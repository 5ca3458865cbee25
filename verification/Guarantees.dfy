/** What a user of the observer gets, over every run: every order of calls, every chunking, and
    callbacks that call back. */
module Guarantees {
  import opened ByteStrings
  import opened Common
  import opened UsageDecoding
  import opened EventStream
  import opened BatchSpec
  import opened Refinement
  import opened FramingLaws
  import opened Observation
  import opened Observer

  /** The verdict on a whole body, in terms of the body alone. */
  function BodyVerdict(cfg: Config, s: Bytes): Evidence {
    if cfg.streaming then BatchVerdict(cfg.Classifier(), s)
    else if |s| > MAX_JSON then Malformed
    else if s == [] then Unavailable
    else Decode(cfg.codec, s, false, cfg.format)
  }

  predicate EndsWithDone(cfg: Config, s: Bytes) {
    cfg.streaming && HasDone(cfg.Classifier(), s)
  }

  /** The notifications a verdict earns: terminal first if the stream said `[DONE]`, else last. */
  function NoticesOf(cfg: Config, verdict: Evidence, done: bool): seq<Notice> {
    var usage := if verdict.Available? && cfg.hasUsage then [UsageNotice(verdict.usage)] else [];
    var evidence := if cfg.hasEvidence then [EvidenceNotice(verdict)] else [];
    var terminal := if cfg.hasTerminal then [TerminalNotice] else [];
    if done then terminal + usage + evidence else usage + evidence + terminal
  }

  /** The notifications a whole body earns. */
  function BodyLog(cfg: Config, s: Bytes): seq<Notice> {
    NoticesOf(cfg, BodyVerdict(cfg, s), EndsWithDone(cfg, s))
  }

  /** A whole document: over 4 MiB is malformed, nothing is unavailable, the rest is decoded. */
  lemma DocumentVerdict(cfg: Config, s: Bytes)
    requires !cfg.streaming
    ensures |s| > 4194304 ==> BodyVerdict(cfg, s) == Malformed
    ensures s == [] ==> BodyVerdict(cfg, s) == Unavailable
    ensures 0 < |s| <= 4194304 ==> BodyVerdict(cfg, s) == Decode(cfg.codec, s, false, cfg.format)
  {
  }

  /** A stream's verdict in terms of its events. */
  lemma StreamVerdictMeaning(cfg: Config, s: Bytes)
    requires cfg.streaming
    ensures var signals := Signals(cfg.Classifier(), s);
            && (BodyVerdict(cfg, s) == Malformed <==> Spoilt(signals))
            && (forall u :: BodyVerdict(cfg, s) == Available(u) <==>
                  !Spoilt(signals) && exists i: nat :: Counts(signals, i) && signals[i] == Found(u))
  {
    forall u: Usage
      ensures var signals := Signals(cfg.Classifier(), s);
              && (Judge(signals).Malformed? <==> Spoilt(signals))
              && (Judge(signals) == Available(u) <==>
                    !Spoilt(signals) && exists i: nat :: Counts(signals, i) && signals[i] == Found(u))
    {
      JudgeMeaning(Signals(cfg.Classifier(), s), u);
    }
    JudgeMeaning(Signals(cfg.Classifier(), s), Usage(0, 0, 0, 0));
  }

  /** `data: ` with `v`, a blank line, `data: [DONE]` and a blank line. */
  ghost function OneReport(v: Bytes): Bytes {
    DataText(v) + DataText([91, 68, 79, 78, 69, 93])
  }

  /** What one report and `[DONE]` leave the parser with. */
  lemma OneReportFed(cfg: Config, v: Bytes)
    requires IsFieldValue(v)
    ensures Feed(cfg.Classifier(), START, OneReport(v))
         == Record(START, Classify(cfg.codec, cfg.format, v)).(done := true)
  {
    var cls := cfg.Classifier();
    var done: Bytes := [91, 68, 79, 78, 69, 93];
    var mid := Record(START, cls(v));
    SingleData(cls, START, v);
    FeedAppend(cls, START, DataText(v), DataText(done));
    if mid.done {
      FeedDone(cls, mid, DataText(done));
    } else {
      DoneIsDone(cfg.codec, cfg.format);
      SingleData(cls, mid, done);
    }
  }

  /** The usual stream, one report and `[DONE]`: the verdict is what the report says. */
  lemma OneReportVerdict(cfg: Config, v: Bytes)
    requires cfg.streaming && IsFieldValue(v)
    ensures EndsWithDone(cfg, OneReport(v))
    ensures BodyVerdict(cfg, OneReport(v)) == match Classify(cfg.codec, cfg.format, v)
              case Found(usage) => Available(usage)
              case Broken => Malformed
              case Silent => Unavailable
              case Done => Unavailable
  {
    var cls := cfg.Classifier();
    OneReportFed(cfg, v);
    FeedDone(cls, Feed(cls, START, OneReport(v)), [LF, LF]);
    StreamingRefinesBatch(cls, OneReport(v));
  }

  lemma DoneIsDone(codec: Codec, format: Format)
    ensures Classify(codec, format, [91, 68, 79, 78, 69, 93]) == Done
  {
    var d: Bytes := [91, 68, 79, 78, 69, 93];
    assert LeadingSpace(d) == 0 && TrailingSpace(d) == 0;
  }

  lemma CloseMeaning(cfg: Config, s: Bytes)
    ensures var p := Close(cfg, Absorb(cfg, Start(cfg), s));
            && Verdict(cfg, p) == BodyVerdict(cfg, s)
            && IsDone(p) == EndsWithDone(cfg, s)
            && LogOf(cfg, p, true) == BodyLog(cfg, s)
  {
    if cfg.streaming {
      StreamingRefinesBatch(cfg.Classifier(), s);
    } else {
      assert [] + s == s;
    }
    var p := Close(cfg, Absorb(cfg, Start(cfg), s));
    var usage, evidence, terminal := UsagePart(cfg, p), EvidencePart(cfg, p), TerminalPart(cfg);
    assert terminal + usage + evidence + [] == terminal + usage + evidence;
    assert [] + usage + evidence + terminal == usage + evidence + terminal;
  }

  /** Once Finish is among the calls, the notifications are those of the bytes offered before it:
      chunk boundaries, calls after it, repeated calls and callbacks' own calls change nothing. */
  lemma RunDelivers(cfg: Config, calls: seq<Call>)
    requires FinishCall in calls
    ensures var m := Run(cfg, Machine(Start(cfg), false), calls);
            m.finished && LogOf(cfg, m.parse, m.finished) == BodyLog(cfg, Heard(calls))
  {
    RunMeaning(cfg, Machine(Start(cfg), false), calls);
    CloseMeaning(cfg, Heard(calls));
  }

  /** Before any Finish nothing is sent unless the bytes so far complete a `[DONE]` event. */
  lemma RunHoldsBack(cfg: Config, calls: seq<Call>)
    requires FinishCall !in calls
    ensures var m := Run(cfg, Machine(Start(cfg), false), calls);
            var heard := Absorb(cfg, Start(cfg), Heard(calls));
            LogOf(cfg, m.parse, m.finished) == (
              if !IsDone(heard) then []
              else if cfg.FinishesAtDone() then BodyLog(cfg, Heard(calls))
              else TerminalPart(cfg))
  {
    var heard := Absorb(cfg, Start(cfg), Heard(calls));
    RunMeaning(cfg, Machine(Start(cfg), false), calls);
    if IsDone(heard) {
      AbsorbDone(cfg, heard, []);
      CloseMeaning(cfg, Heard(calls));
    }
  }

  /** Chunking independence: runs that hear the same bytes end in the same state. */
  lemma ChunkingIndependent(cfg: Config, m: Machine, calls: seq<Call>, others: seq<Call>)
    requires !m.finished && (m.parse.Document? ==> |m.parse.body| <= MAX_JSON)
    requires Heard(calls) == Heard(others) && (FinishCall in calls <==> FinishCall in others)
    ensures Run(cfg, m, calls) == Run(cfg, m, others)
  {
    RunMeaning(cfg, m, calls);
    RunMeaning(cfg, m, others);
  }

  /** The JSON document a body's usage is read from: the body, or the data of the reporting event. */
  ghost function ReportingDocument(cfg: Config, s: Bytes): Bytes {
    if !cfg.streaming then s
    else
      var event := ReportingEvent(cfg.Classifier(), BatchSpec.Events(s));
      if event.Some? then TrimSpace(Join(Payloads(event.value), LF)) else []
  }

  ghost function ReportedMetrics(cfg: Config, s: Bytes): Metrics {
    MetricsOf(cfg.codec, ReportingDocument(cfg, s), cfg.format)
  }

  /** A usage that is reported has no negative token count, and each of its durations is negative
      exactly if that metric of the document it was read from is out of range. */
  lemma VerdictTrustworthy(cfg: Config, s: Bytes)
    ensures var verdict := BodyVerdict(cfg, s);
            verdict.Available? ==> Trustworthy(verdict.usage) && TimedBy(verdict.usage, ReportedMetrics(cfg, s))
  {
    if cfg.streaming && BodyVerdict(cfg, s).Available? {
      FirstUsageIsReported(cfg.Classifier(), BatchSpec.Events(s));
    }
  }

  lemma NoticesOnce(cfg: Config, verdict: Evidence, done: bool)
    ensures var log := NoticesOf(cfg, verdict, done);
            && (forall i, j :: 0 <= i < j < |log| ==>
                 !(log[i].UsageNotice? && log[j].UsageNotice?)
                 && !(log[i].EvidenceNotice? && log[j].EvidenceNotice?)
                 && !(log[i].TerminalNotice? && log[j].TerminalNotice?))
            && (forall e :: EvidenceNotice(e) in log <==> cfg.hasEvidence && e == verdict)
            && (TerminalNotice in log <==> cfg.hasTerminal)
            && (forall u :: UsageNotice(u) in log <==> cfg.hasUsage && verdict == Available(u))
            && (forall i, j :: 0 <= i < |log| && 0 <= j < |log| && log[i].TerminalNotice? && log[j].UsageNotice? ==>
                 (i < j <==> done))
            && (forall i, j :: 0 <= i < |log| && 0 <= j < |log| && log[j].EvidenceNotice? ==>
                 && (log[i].UsageNotice? ==> i < j)
                 && (log[i].TerminalNotice? ==> (i < j <==> done)))
  {
  }

  /** At most one notice of each kind; evidence and terminal exactly one once finished; usage just
      when the evidence is Available, with its value, whose token counts are never negative and whose
      durations are negative exactly for metrics out of range; usage ahead of evidence, and terminal
      ahead of both just when the stream said `[DONE]`, else behind them. */
  lemma ExactlyOnce(cfg: Config, s: Bytes)
    ensures var log := BodyLog(cfg, s);
            && (forall i, j :: 0 <= i < j < |log| ==>
                 !(log[i].UsageNotice? && log[j].UsageNotice?)
                 && !(log[i].EvidenceNotice? && log[j].EvidenceNotice?)
                 && !(log[i].TerminalNotice? && log[j].TerminalNotice?))
            && (forall e :: EvidenceNotice(e) in log <==> cfg.hasEvidence && e == BodyVerdict(cfg, s))
            && (TerminalNotice in log <==> cfg.hasTerminal)
            && (forall u :: UsageNotice(u) in log <==> cfg.hasUsage && BodyVerdict(cfg, s) == Available(u))
            && (forall u :: UsageNotice(u) in log ==> Trustworthy(u) && TimedBy(u, ReportedMetrics(cfg, s)))
            && (forall i, j :: 0 <= i < |log| && 0 <= j < |log| && log[i].TerminalNotice? && log[j].UsageNotice? ==>
                 (i < j <==> EndsWithDone(cfg, s)))
            && (forall i, j :: 0 <= i < |log| && 0 <= j < |log| && log[j].EvidenceNotice? ==>
                 && (log[i].UsageNotice? ==> i < j)
                 && (log[i].TerminalNotice? ==> (i < j <==> EndsWithDone(cfg, s))))
  {
    NoticesOnce(cfg, BodyVerdict(cfg, s), EndsWithDone(cfg, s));
    VerdictTrustworthy(cfg, s);
  }

  ghost predicate WellBounded(p: Parse) {
    match p
    case Events(st) => Bounded(st)
    case Document(body, _) => |body| <= MAX_JSON
  }

  /** Fixed memory: the parse state of every run is within the caps. */
  lemma {:induction false} RunBounded(cfg: Config, m: Machine, calls: seq<Call>)
    requires WellBounded(m.parse)
    ensures WellBounded(Run(cfg, m, calls).parse)
    decreases |calls|
  {
    if calls != [] {
      if m.parse.Events? {
        FeedBounded(cfg.Classifier(), m.parse.stream, if calls[0].ObserveCall? then calls[0].chunk else [LF, LF]);
      }
      var next := match calls[0]
        case ObserveCall(chunk) => ObserveStep(cfg, m, chunk)
        case FinishCall => FinishStep(cfg, m);
      RunBounded(cfg, next, calls[1..]);
    }
  }

  /** End-of-input law: finishing a stream is the same as hearing two line feeds and finishing. */
  lemma FlushLaw(cfg: Config, m: Machine)
    requires m.parse.Events? && Bounded(m.parse.stream)
    ensures FinishStep(cfg, ObserveStep(cfg, m, [LF, LF])) == FinishStep(cfg, m)
  {
    var cls, st := cfg.Classifier(), m.parse.stream;
    var closed := Flush(cls, st);
    if st.done {
      FeedDone(cls, st, [LF, LF]);
    } else if closed.done {
      FeedDone(cls, closed, [LF, LF]);
    } else {
      FlushByParts(cls, st);
      FeedBounded(cls, st, [LF, LF]);
      FlushByParts(cls, closed);
    }
  }

  /** The observer object carries out exactly the machine's run, and its invariant with it. So a fresh
      observer that is told to finish has sent exactly what the bytes before that earn, and one that
      is not has sent nothing unless they complete a `[DONE]` event. */
  method Drive(o: CompletionUsageObserver, calls: seq<Call>)
    requires o.Valid()
    modifies o
    ensures o.Valid() && o.State() == Run(o.cfg, old(o.State()), calls)
    ensures old(o.State()) == Machine(Start(o.cfg), false) && FinishCall in calls ==>
              o.log == BodyLog(o.cfg, Heard(calls))
    ensures old(o.State()) == Machine(Start(o.cfg), false) && FinishCall !in calls ==>
              o.log == (
                if !IsDone(Absorb(o.cfg, Start(o.cfg), Heard(calls))) then []
                else if o.cfg.FinishesAtDone() then BodyLog(o.cfg, Heard(calls))
                else TerminalPart(o.cfg))
  {
    if FinishCall in calls {
      RunDelivers(o.cfg, calls);
    } else {
      RunHoldsBack(o.cfg, calls);
    }
    for i := 0 to |calls|
      invariant o.Valid()
      invariant Run(o.cfg, old(o.State()), calls) == Run(o.cfg, o.State(), calls[i..])
    {
      assert calls[i..][0] == calls[i] && calls[i..][1..] == calls[i + 1..];
      match calls[i] {
        case ObserveCall(chunk) => o.Observe(chunk);
        case FinishCall => o.Finish();
      }
    }
  }

  /** With a single callback set, as most constructors do, no nested Finish returns early. */
  lemma SingleCallbackNeverEarly(cfg: Config, p: Parse)
    requires !(cfg.hasUsage && cfg.hasEvidence)
    requires !(cfg.hasUsage && cfg.hasTerminal)
    requires !(cfg.hasEvidence && cfg.hasTerminal)
    ensures !EarlyReturn(cfg, p)
  {
  }

  /** A Finish made from inside the evidence callback does return with the terminal notice still
      owed. The observer's invariant says exactly when this happens: EarlyReturn. */
  method NestedFinishReturnsEarly(codec: Codec) returns (o: CompletionUsageObserver)
    ensures fresh(o) && o.Valid() && o.finished && o.earlyReturn
  {
    var cfg := Config(false, Completions, codec, false, true, true, [], [FinishCall], []);
    o := new CompletionUsageObserver(cfg, 0);
    o.Finish();
  }
}
