/** The meaning of an event-stream body, defined on the whole byte string at once and without any
    buffer: split on LF, group by blank lines, join the data fields, cut at `[DONE]`, count. */
module BatchSpec {
  import opened ByteStrings
  import opened Common
  import opened UsageDecoding
  import opened EventStream

  predicate IsLF(b: Byte) {
    b == LF
  }

  predicate IsBlank(line: Bytes) {
    DropCR(line) == []
  }

  function Lines(s: Bytes): seq<Bytes> {
    SplitOn(s, IsLF)
  }

  function Events(s: Bytes): seq<seq<Bytes>> {
    SplitOn(Lines(s), IsBlank)
  }

  /** The data field values of an event's lines, in order. */
  function Payloads(event: seq<Bytes>): seq<Bytes> {
    if event == [] then []
    else
      var line := DropCR(event[|event| - 1]);
      Payloads(event[..|event| - 1]) + (if IsDataLine(line) then [Payload(line)] else [])
  }

  predicate HasLongLine(event: seq<Bytes>) {
    exists line | line in event :: |line| > MAX_SSE
  }

  predicate Oversized(event: seq<Bytes>) {
    HasLongLine(event) || |Join(Payloads(event), LF)| > MAX_SSE
  }

  function SignalOf(cls: Classifier, event: seq<Bytes>): Signal {
    if Oversized(event) then Broken
    else if Payloads(event) == [] then Silent
    else cls(Join(Payloads(event), LF))
  }

  function SignalsOf(cls: Classifier, events: seq<seq<Bytes>>): seq<Signal> {
    if events == [] then [] else [SignalOf(cls, events[0])] + SignalsOf(cls, events[1..])
  }

  function Signals(cls: Classifier, s: Bytes): seq<Signal> {
    SignalsOf(cls, Events(s))
  }

  /** Events count up to the first `[DONE]`. */
  function BeforeDone(signals: seq<Signal>): seq<Signal> {
    if signals == [] || signals[0].Done? then [] else [signals[0]] + BeforeDone(signals[1..])
  }

  function Usages(signals: seq<Signal>): seq<Usage> {
    if signals == [] then []
    else (if signals[0].Found? then [signals[0].usage] else []) + Usages(signals[1..])
  }

  /** Exactly one usage record and nothing broken, or no claim. */
  function Judge(signals: seq<Signal>): Evidence {
    var live := BeforeDone(signals);
    if Broken in live || |Usages(live)| > 1 then Malformed
    else if |Usages(live)| == 1 then Available(Usages(live)[0])
    else Unavailable
  }

  /** The first event before any `[DONE]` that reports usage. */
  ghost function ReportingEvent(cls: Classifier, events: seq<seq<Bytes>>): (event: Option<seq<Bytes>>)
    ensures event.Some? ==> event.value in events
  {
    if events == [] || SignalOf(cls, events[0]).Done? then None
    else if SignalOf(cls, events[0]).Found? then Some(events[0])
    else ReportingEvent(cls, events[1..])
  }

  function BatchVerdict(cls: Classifier, s: Bytes): Evidence {
    Judge(Signals(cls, s))
  }

  predicate HasDone(cls: Classifier, s: Bytes) {
    Done in Signals(cls, s)
  }

  /** Lines undoes joining with LF, and every piece is free of LF. */
  lemma LinesRoundTrip(s: Bytes)
    ensures Join(Lines(s), LF) == s
    ensures forall line :: line in Lines(s) ==> LF !in line
  {
    SplitRoundTrip(s, IsLF, LF);
  }

  /** ... and it is the only such way to cut `s`. */
  lemma LinesUnique(pieces: seq<Bytes>)
    requires pieces != [] && forall piece :: piece in pieces ==> LF !in piece
    ensures Lines(Join(pieces, LF)) == pieces
  {
    SplitUnique(pieces, IsLF, LF);
  }

  /** `signals[i]` counts: neither it nor anything before it is `[DONE]`. */
  ghost predicate Counts(signals: seq<Signal>, i: nat) {
    i < |signals| && forall j :: 0 <= j <= i ==> !signals[j].Done?
  }

  /** Two or more usage records, or a broken event, before any `[DONE]`. */
  ghost predicate Spoilt(signals: seq<Signal>) {
    || (exists i: nat :: Counts(signals, i) && signals[i].Broken?)
    || (exists i: nat, j: nat :: i < j && Counts(signals, j) && signals[i].Found? && signals[j].Found?)
  }

  lemma {:induction false} BeforeDoneMeaning(signals: seq<Signal>)
    ensures BeforeDone(signals) <= signals
    ensures forall i: nat :: Counts(signals, i) <==> i < |BeforeDone(signals)|
    decreases |signals|
  {
    if signals != [] && !signals[0].Done? {
      var rest := signals[1..];
      BeforeDoneMeaning(rest);
      forall i: nat
        ensures Counts(signals, i) <==> i < |BeforeDone(signals)|
      {
        if i > 0 {
          assert Counts(rest, i - 1) <==> i - 1 < |BeforeDone(rest)|;
          assert forall j :: 1 <= j < |signals| ==> signals[j] == rest[j - 1];
          assert Counts(signals, i) <==> Counts(rest, i - 1);
        }
      }
    } else if signals != [] {
      assert signals[0].Done?;
    }
  }

  lemma {:induction false} UsagesMeaning(live: seq<Signal>)
    ensures Usages(live) == [] <==> forall i :: 0 <= i < |live| ==> !live[i].Found?
    ensures |Usages(live)| > 1 <==>
            exists i: nat, j: nat :: i < j < |live| && live[i].Found? && live[j].Found?
    ensures forall i :: 0 <= i < |live| && live[i].Found? ==> live[i].usage in Usages(live)
    decreases |live|
  {
    if live != [] {
      var rest := live[1..];
      UsagesMeaning(rest);
      assert forall i :: 0 <= i < |rest| ==> rest[i] == live[i + 1];
      if |Usages(live)| > 1 {
        if live[0].Found? {
          var j :| 0 <= j < |rest| && rest[j].Found?;
          assert 0 < j + 1 < |live| && live[0].Found? && live[j + 1].Found?;
        } else {
          var i: nat, j: nat :| i < j < |rest| && rest[i].Found? && rest[j].Found?;
          assert i + 1 < j + 1 < |live| && live[i + 1].Found? && live[j + 1].Found?;
        }
      }
      if i: nat, j: nat :| i < j < |live| && live[i].Found? && live[j].Found? {
        assert rest[j - 1].Found?;
        if i > 0 {
          assert rest[i - 1].Found?;
        }
      }
    }
  }

  lemma UsageCounts(signals: seq<Signal>, u: Usage)
    ensures (exists i: nat :: Counts(signals, i) && signals[i] == Found(u)) ==> u in Usages(BeforeDone(signals))
    ensures Usages(BeforeDone(signals)) == [u] ==> exists i: nat :: Counts(signals, i) && signals[i] == Found(u)
  {
    var live := BeforeDone(signals);
    BeforeDoneMeaning(signals);
    UsagesMeaning(live);
    if i: nat :| Counts(signals, i) && signals[i] == Found(u) {
      assert live[i] == signals[i];
    }
    if Usages(live) == [u] {
      var i :| 0 <= i < |live| && live[i].Found?;
      assert Counts(signals, i) && signals[i] == live[i] && live[i].usage in Usages(live);
    }
  }

  /** The verdict in plain terms: malformed exactly if something that counts is broken or two usage
      records count; else available exactly with the one that counts; else unavailable. */
  lemma JudgeMeaning(signals: seq<Signal>, u: Usage)
    ensures Judge(signals).Malformed? <==> Spoilt(signals)
    ensures Judge(signals) == Available(u) <==>
            !Spoilt(signals) && exists i: nat :: Counts(signals, i) && signals[i] == Found(u)
  {
    var found := Usages(BeforeDone(signals));
    JudgeSpoilt(signals);
    UsageCounts(signals, u);
    assert |found| == 1 ==> found == [found[0]];
  }

  lemma JudgeSpoilt(signals: seq<Signal>)
    ensures Broken in BeforeDone(signals) || |Usages(BeforeDone(signals))| > 1 <==> Spoilt(signals)
  {
    var live := BeforeDone(signals);
    BeforeDoneMeaning(signals);
    UsagesMeaning(live);
    assert forall i: nat :: i < |live| ==> live[i] == signals[i];
    if Broken in live {
      var i :| 0 <= i < |live| && live[i] == Broken;
      assert Counts(signals, i) && signals[i].Broken?;
    }
    if |Usages(live)| > 1 {
      var i: nat, j: nat :| i < j < |live| && live[i].Found? && live[j].Found?;
      assert i < j && Counts(signals, j) && signals[i].Found? && signals[j].Found?;
    }
  }
}
