/** The observer as a machine over the bytes it has heard, and the notifications it owes. */
module Observation {
  import opened ByteStrings
  import opened UsageDecoding
  import opened EventStream
  import opened Refinement

  const MAX_JSON: nat := 4 * 1024 * 1024

  datatype Call = ObserveCall(chunk: Bytes) | FinishCall

  datatype Notice = UsageNotice(usage: Usage) | EvidenceNotice(evidence: Evidence) | TerminalNotice

  /** `hasX` says whether callback X is set; `onX` are the calls it makes back into the observer when
      it runs. Each callback runs at most once, so one list per callback covers every behaviour. */
  datatype Config = Config(
    streaming: bool,
    format: Format,
    codec: Codec,
    hasUsage: bool,
    hasEvidence: bool,
    hasTerminal: bool,
    onUsage: seq<Call>,
    onEvidence: seq<Call>,
    onTerminal: seq<Call>)
  {
    function Classifier(): Classifier {
      ClassifierOf(codec, format)
    }

    /** The terminal callback finishes the observer from inside the notification. */
    predicate FinishesAtDone() {
      hasTerminal && FinishCall in onTerminal
    }
  }

  /** Everything the bytes have contributed so far. */
  datatype Parse = Events(stream: Stream) | Document(body: Bytes, limited: bool)

  function Start(cfg: Config): Parse {
    if cfg.streaming then Events(START) else Document([], false)
  }

  function Absorb(cfg: Config, p: Parse, s: Bytes): Parse {
    match p
    case Events(st) => Events(Feed(cfg.Classifier(), st, s))
    case Document(body, limited) =>
      if limited then p
      else if |body| + |s| > MAX_JSON then Document([], true)
      else Document(body + s, false)
  }

  /** End of input: a pending event is dispatched as two line feeds would. */
  function Close(cfg: Config, p: Parse): Parse {
    if p.Events? then Events(Flush(cfg.Classifier(), p.stream)) else p
  }

  predicate IsDone(p: Parse) {
    p.Events? && p.stream.done
  }

  function Verdict(cfg: Config, p: Parse): Evidence {
    match p
    case Events(st) => StreamVerdict(st)
    case Document(body, limited) =>
      if limited then Malformed
      else if body == [] then Unavailable
      else Decode(cfg.codec, body, false, cfg.format)
  }

  function UsagePart(cfg: Config, p: Parse): seq<Notice> {
    var verdict := Verdict(cfg, p);
    if verdict.Available? && cfg.hasUsage then [UsageNotice(verdict.usage)] else []
  }

  function EvidencePart(cfg: Config, p: Parse): seq<Notice> {
    if cfg.hasEvidence then [EvidenceNotice(Verdict(cfg, p))] else []
  }

  function TerminalPart(cfg: Config): seq<Notice> {
    if cfg.hasTerminal then [TerminalNotice] else []
  }

  /** The whole notification history, a function of what was heard and whether it is over. */
  function LogOf(cfg: Config, p: Parse, finished: bool): seq<Notice> {
    if finished then
      (if IsDone(p) then TerminalPart(cfg) else [])
      + UsagePart(cfg, p) + EvidencePart(cfg, p)
      + (if IsDone(p) then [] else TerminalPart(cfg))
    else if IsDone(p) then TerminalPart(cfg)
    else []
  }

  /** Usage, evidence and a terminal not yet sent, appended in that order, complete the history. */
  lemma LogAssembled(cfg: Config, p: Parse, sent: seq<Notice>, withUsage: seq<Notice>,
                     withEvidence: seq<Notice>, all: seq<Notice>)
    requires sent == LogOf(cfg, p, false)
    requires withUsage == sent + UsagePart(cfg, p) || (UsagePart(cfg, p) == [] && withUsage == sent)
    requires withEvidence == withUsage + EvidencePart(cfg, p) || (!cfg.hasEvidence && withEvidence == withUsage)
    requires all == if cfg.hasTerminal && !IsDone(p) then withEvidence + [TerminalNotice] else withEvidence
    ensures all == LogOf(cfg, p, true)
    ensures withUsage == LogOf(cfg, p, true) <==> !cfg.hasEvidence && !(cfg.hasTerminal && !IsDone(p))
    ensures withEvidence == LogOf(cfg, p, true) <==> !(cfg.hasTerminal && !IsDone(p))
  {
    assert withUsage == sent + UsagePart(cfg, p);
    assert withEvidence == withUsage + EvidencePart(cfg, p);
  }

  /** A Finish called from inside a callback returns while a notification is still owed: one made by
      the usage callback if evidence, or a terminal not sent at `[DONE]`, is to come; one made by the
      evidence callback if such a terminal is. */
  predicate EarlyReturn(cfg: Config, p: Parse) {
    var terminalOwed := cfg.hasTerminal && !IsDone(p);
    || (Verdict(cfg, p).Available? && cfg.hasUsage && FinishCall in cfg.onUsage && (cfg.hasEvidence || terminalOwed))
    || (cfg.hasEvidence && FinishCall in cfg.onEvidence && terminalOwed)
  }

  datatype Machine = Machine(parse: Parse, finished: bool)

  function ObserveStep(cfg: Config, m: Machine, chunk: Bytes): Machine {
    if m.finished then m
    else
      var p := Absorb(cfg, m.parse, chunk);
      Machine(p, IsDone(p) && !IsDone(m.parse) && cfg.FinishesAtDone())
  }

  function FinishStep(cfg: Config, m: Machine): Machine {
    if m.finished then m else Machine(Close(cfg, m.parse), true)
  }

  function Run(cfg: Config, m: Machine, calls: seq<Call>): Machine
    decreases |calls|
  {
    if calls == [] then m
    else
      var next := match calls[0]
        case ObserveCall(chunk) => ObserveStep(cfg, m, chunk)
        case FinishCall => FinishStep(cfg, m);
      Run(cfg, next, calls[1..])
  }

  /** The bytes offered before the first Finish, chunk boundaries forgotten. */
  function Heard(calls: seq<Call>): Bytes {
    if calls == [] || calls[0].FinishCall? then [] else calls[0].chunk + Heard(calls[1..])
  }

  // ---- chunking ----

  lemma AbsorbAppend(cfg: Config, p: Parse, a: Bytes, b: Bytes)
    requires p.Document? ==> |p.body| <= MAX_JSON
    ensures Absorb(cfg, p, a + b) == Absorb(cfg, Absorb(cfg, p, a), b)
  {
    match p
    case Events(st) => FeedAppend(cfg.Classifier(), st, a, b);
    case Document(body, limited) =>
      if !limited && |body| + |a + b| <= MAX_JSON {
        assert body + (a + b) == body + a + b;
      }
  }

  lemma AbsorbNothing(cfg: Config, p: Parse)
    requires p.Document? ==> |p.body| <= MAX_JSON
    ensures Absorb(cfg, p, []) == p
  {
    if p.Document? && !p.limited {
      assert p.body + [] == p.body;
    }
  }

  lemma AbsorbDone(cfg: Config, p: Parse, s: Bytes)
    requires IsDone(p)
    ensures Absorb(cfg, p, s) == p && Close(cfg, p) == p
  {
    FeedDone(cfg.Classifier(), p.stream, s);
    FeedDone(cfg.Classifier(), p.stream, [LF, LF]);
  }

  lemma AbsorbBounded(cfg: Config, p: Parse, s: Bytes)
    requires p.Document? ==> |p.body| <= MAX_JSON
    ensures var r := Absorb(cfg, p, s); r.Document? ==> |r.body| <= MAX_JSON
  {
  }

  // ---- whole runs ----

  lemma {:induction false} RunFinished(cfg: Config, m: Machine, calls: seq<Call>)
    requires m.finished
    ensures Run(cfg, m, calls) == m
    decreases |calls|
  {
    if calls != [] {
      RunFinished(cfg, m, calls[1..]);
    }
  }

  /** Any sequence of calls leaves the machine where feeding the bytes heard in one piece would. */
  lemma {:induction false} RunMeaning(cfg: Config, m: Machine, calls: seq<Call>)
    requires !m.finished
    requires m.parse.Document? ==> |m.parse.body| <= MAX_JSON
    ensures var heard, r := Absorb(cfg, m.parse, Heard(calls)), Run(cfg, m, calls);
            && r.parse == (if FinishCall in calls then Close(cfg, heard) else heard)
            && r.finished ==
               (FinishCall in calls || (IsDone(heard) && !IsDone(m.parse) && cfg.FinishesAtDone()))
    decreases |calls|
  {
    if calls == [] {
      AbsorbNothing(cfg, m.parse);
    } else {
      var rest := calls[1..];
      assert calls == [calls[0]] + rest;
      match calls[0] {
        case FinishCall =>
          AbsorbNothing(cfg, m.parse);
          RunFinished(cfg, FinishStep(cfg, m), rest);
        case ObserveCall(chunk) =>
          var next := ObserveStep(cfg, m, chunk);
          AbsorbAppend(cfg, m.parse, chunk, Heard(rest));
          if IsDone(next.parse) {
            AbsorbDone(cfg, next.parse, Heard(rest));
          }
          if next.finished {
            RunFinished(cfg, next, rest);
          } else {
            RunMeaning(cfg, next, rest);
            AbsorbDoneStays(cfg, m.parse, chunk);
          }
      }
    }
  }

  lemma AbsorbDoneStays(cfg: Config, p: Parse, s: Bytes)
    ensures IsDone(p) ==> IsDone(Absorb(cfg, p, s))
  {
    if IsDone(p) {
      AbsorbDone(cfg, p, s);
    }
  }
}
