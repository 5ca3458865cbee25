/** The incremental parser computes the batch meaning: bytes to lines, lines to events, events to verdict. */
module Refinement {
  import opened ByteStrings
  import opened Common
  import opened UsageDecoding
  import opened EventStream
  import opened BatchSpec

  /** At most the first MAX_SSE bytes of a line are kept. */
  function Kept(s: Bytes): Bytes {
    if |s| <= MAX_SSE then s else s[..MAX_SSE]
  }

  /** One whole line, LF included, seen at once. */
  function LineStep(cls: Classifier, st: Stream, raw: Bytes): Stream {
    if st.done then st
    else ProcessLine(cls, st.(line := Kept(raw), limited := st.limited || |raw| > MAX_SSE))
  }

  function FoldLines(cls: Classifier, st: Stream, lines: seq<Bytes>): Stream
    decreases |lines|
  {
    if lines == [] then st else FoldLines(cls, LineStep(cls, st, lines[0]), lines[1..])
  }

  function FoldSignals(st: Stream, signals: seq<Signal>): Stream
    decreases |signals|
  {
    if signals == [] || st.done then st else FoldSignals(Record(st, signals[0]), signals[1..])
  }

  /** Between events: nothing buffered, nothing pending. */
  ghost predicate AtBoundary(st: Stream) {
    st.line == [] && st.data == [] && !st.limited && !st.hasData
  }

  lemma {:induction false} FoldLinesAppend(cls: Classifier, st: Stream, a: seq<Bytes>, b: seq<Bytes>)
    ensures FoldLines(cls, st, a + b) == FoldLines(cls, FoldLines(cls, st, a), b)
    decreases |a|
  {
    if a == [] {
      assert a + b == b;
    } else {
      assert (a + b)[0] == a[0] && (a + b)[1..] == a[1..] + b;
      FoldLinesAppend(cls, LineStep(cls, st, a[0]), a[1..], b);
    }
  }

  lemma {:induction false} FoldLinesDone(cls: Classifier, st: Stream, lines: seq<Bytes>)
    requires st.done
    ensures FoldLines(cls, st, lines) == st
    decreases |lines|
  {
    if lines != [] {
      FoldLinesDone(cls, st, lines[1..]);
    }
  }

  // ---- bytes to lines ----

  lemma {:induction false} FeedWithinLine(cls: Classifier, st: Stream, before: Bytes, s: Bytes)
    requires !st.done && LF !in s
    requires st.line == Kept(before) && (|before| > MAX_SSE ==> st.limited)
    ensures Feed(cls, st, s)
         == st.(line := Kept(before + s), limited := st.limited || |before + s| > MAX_SSE)
    decreases |s|
  {
    if s == [] {
      assert before + s == before;
    } else {
      var next := Step(cls, st, s[0]);
      assert s[0] in s;
      assert before + s == before + [s[0]] + s[1..];
      FeedWithinLine(cls, next, before + [s[0]], s[1..]);
    }
  }

  lemma LineStepResets(cls: Classifier, st: Stream, raw: Bytes)
    requires st.line == []
    ensures LineStep(cls, st, raw).line == []
  {
  }

  lemma {:induction false} FeedLine(cls: Classifier, st: Stream, raw: Bytes)
    requires st.line == [] && LF !in raw
    ensures Feed(cls, st, raw + [LF]) == LineStep(cls, st, raw)
  {
    if st.done {
      FeedDone(cls, st, raw + [LF]);
    } else {
      FeedAppend(cls, st, raw, [LF]);
      FeedWithinLine(cls, st, [], raw);
      assert [] + raw == raw;
      var mid := Feed(cls, st, raw);
      assert Feed(cls, mid, [LF]) == Feed(cls, Step(cls, mid, LF), []);
    }
  }

  lemma {:induction false} FeedLines(cls: Classifier, st: Stream, s: Bytes)
    requires st.line == []
    ensures Feed(cls, st, s + [LF]) == FoldLines(cls, st, Lines(s))
    ensures Feed(cls, st, s + [LF]).line == []
    decreases |s|
  {
    var i := IndexOf(s, IsLF);
    if i == |s| {
      FeedLine(cls, st, s);
      LineStepResets(cls, st, s);
      assert FoldLines(cls, st, [s]) == FoldLines(cls, LineStep(cls, st, s), []);
    } else {
      var raw, rest := s[..i], s[i + 1..];
      assert s + [LF] == (raw + [LF]) + (rest + [LF]);
      FeedAppend(cls, st, raw + [LF], rest + [LF]);
      FeedLine(cls, st, raw);
      LineStepResets(cls, st, raw);
      FeedLines(cls, LineStep(cls, st, raw), rest);
      assert Lines(s)[0] == raw && Lines(s)[1..] == Lines(rest);
    }
  }

  // ---- lines to events ----

  /** `st` has accumulated exactly the non-blank lines `event` since the boundary `base`. */
  ghost predicate Accumulated(base: Stream, st: Stream, event: seq<Bytes>) {
    && st == base.(limited := st.limited, hasData := st.hasData, data := st.data)
    && st.limited == Oversized(event)
    && (!st.limited ==> st.hasData == (Payloads(event) != []) && st.data == Join(Payloads(event), LF))
  }

  lemma JoinSnoc(parts: seq<Bytes>, part: Bytes)
    ensures Join(parts + [part], LF) == if parts == [] then part else Join(parts, LF) + [LF] + part
  {
    assert (parts + [part])[..|parts|] == parts;
  }

  lemma PayloadsSnoc(event: seq<Bytes>, raw: Bytes)
    ensures Payloads(event + [raw])
         == Payloads(event) + (if IsDataLine(DropCR(raw)) then [Payload(DropCR(raw))] else [])
  {
    assert (event + [raw])[..|event|] == event;
  }

  lemma HasLongLineSnoc(event: seq<Bytes>, raw: Bytes)
    ensures HasLongLine(event + [raw]) <==> HasLongLine(event) || |raw| > MAX_SSE
  {
    if HasLongLine(event) {
      var line :| line in event && |line| > MAX_SSE;
      assert line in event + [raw];
    }
    assert raw in event + [raw];
  }

  /** Joined data only grows, so an event once oversized stays so. */
  lemma OversizedSnoc(event: seq<Bytes>, raw: Bytes)
    ensures Oversized(event + [raw]) <==>
            Oversized(event) || |raw| > MAX_SSE || |Join(Payloads(event + [raw]), LF)| > MAX_SSE
  {
    HasLongLineSnoc(event, raw);
    PayloadsSnoc(event, raw);
    if IsDataLine(DropCR(raw)) {
      JoinSnoc(Payloads(event), Payload(DropCR(raw)));
    } else {
      assert Payloads(event + [raw]) == Payloads(event);
    }
  }

  /** What one non-blank line does to the pending event. */
  lemma NonBlankLine(cls: Classifier, st: Stream, raw: Bytes)
    requires !st.done && !IsBlank(raw) && st.line == []
    ensures var line := DropCR(raw);
            var data := if !IsDataLine(line) then st.data
                        else if st.hasData then st.data + [LF] + Payload(line)
                        else st.data + Payload(line);
            LineStep(cls, st, raw) ==
            if st.limited || |raw| > MAX_SSE then st.(limited := true)
            else if !IsDataLine(line) then st
            else if |data| > MAX_SSE then st.(data := [], limited := true)
            else st.(data := data, hasData := true)
  {
    assert |raw| > MAX_SSE ==> DropCR(Kept(raw)) != [];
  }

  lemma AccumulateLine(cls: Classifier, base: Stream, st: Stream, event: seq<Bytes>, raw: Bytes)
    requires AtBoundary(base) && !base.done && Accumulated(base, st, event) && !IsBlank(raw)
    ensures Accumulated(base, LineStep(cls, st, raw), event + [raw])
  {
    NonBlankLine(cls, st, raw);
    OversizedSnoc(event, raw);
    PayloadsSnoc(event, raw);
    if IsDataLine(DropCR(raw)) {
      JoinSnoc(Payloads(event), Payload(DropCR(raw)));
    } else {
      assert Payloads(event + [raw]) == Payloads(event);
    }
  }

  lemma {:induction false} AccumulateLines(cls: Classifier, base: Stream, event: seq<Bytes>)
    requires AtBoundary(base) && !base.done
    requires forall i :: 0 <= i < |event| ==> !IsBlank(event[i])
    ensures Accumulated(base, FoldLines(cls, base, event), event)
    decreases |event|
  {
    if event != [] {
      var last := |event| - 1;
      AccumulateLines(cls, base, event[..last]);
      assert event == event[..last] + [event[last]];
      FoldLinesAppend(cls, base, event[..last], [event[last]]);
      var mid := FoldLines(cls, base, event[..last]);
      assert FoldLines(cls, mid, [event[last]]) == FoldLines(cls, LineStep(cls, mid, event[last]), []);
      AccumulateLine(cls, base, mid, event[..last], event[last]);
    }
  }

  /** A blank line turns the lines since the last one into that event's signal. */
  lemma DispatchEvent(cls: Classifier, base: Stream, event: seq<Bytes>, blank: Bytes)
    requires AtBoundary(base) && !base.done && IsBlank(blank)
    requires forall i :: 0 <= i < |event| ==> !IsBlank(event[i])
    ensures FoldLines(cls, base, event + [blank]) == Record(base, SignalOf(cls, event))
  {
    FoldLinesAppend(cls, base, event, [blank]);
    AccumulateLines(cls, base, event);
    var mid := FoldLines(cls, base, event);
    assert FoldLines(cls, mid, [blank]) == FoldLines(cls, LineStep(cls, mid, blank), []);
  }

  lemma SignalsOfCons(cls: Classifier, event: seq<Bytes>, rest: seq<seq<Bytes>>)
    ensures SignalsOf(cls, [event] + rest) == [SignalOf(cls, event)] + SignalsOf(cls, rest)
  {
    assert ([event] + rest)[1..] == rest;
  }

  /** The lines up to and including the first blank one act as one signal. */
  lemma FoldFirstEvent(cls: Classifier, base: Stream, event: seq<Bytes>, blank: Bytes, rest: seq<Bytes>)
    requires AtBoundary(base) && !base.done && IsBlank(blank)
    requires forall i :: 0 <= i < |event| ==> !IsBlank(event[i])
    ensures FoldLines(cls, base, (event + [blank]) + rest)
         == FoldLines(cls, Record(base, SignalOf(cls, event)), rest)
  {
    FoldLinesAppend(cls, base, event + [blank], rest);
    DispatchEvent(cls, base, event, blank);
  }

  lemma CutAt<T>(s: seq<T>, i: nat, tail: seq<T>)
    requires i < |s|
    ensures s + tail == (s[..i] + [s[i]]) + (s[i + 1..] + tail)
  {
  }

  lemma FoldSignalsCons(st: Stream, signal: Signal, rest: seq<Signal>)
    requires !st.done
    ensures FoldSignals(st, [signal] + rest) == FoldSignals(Record(st, signal), rest)
  {
    assert ([signal] + rest)[1..] == rest;
  }

  lemma {:induction false} FoldEvents(cls: Classifier, base: Stream, lines: seq<Bytes>)
    requires AtBoundary(base)
    ensures FoldLines(cls, base, lines + [[]])
         == FoldSignals(base, SignalsOf(cls, SplitOn(lines, IsBlank)))
    decreases |lines|
  {
    var i := IndexOf(lines, IsBlank);
    if base.done {
      FoldLinesDone(cls, base, lines + [[]]);
    } else if i == |lines| {
      DispatchEvent(cls, base, lines, []);
      SignalsOfCons(cls, lines, []);
      assert [lines] + [] == [lines];
      FoldSignalsCons(base, SignalOf(cls, lines), []);
    } else {
      var signal := SignalOf(cls, lines[..i]);
      CutAt(lines, i, [[]]);
      FoldFirstEvent(cls, base, lines[..i], lines[i], lines[i + 1..] + [[]]);
      FoldEvents(cls, Record(base, signal), lines[i + 1..]);
      SignalsOfCons(cls, lines[..i], SplitOn(lines[i + 1..], IsBlank));
      FoldSignalsCons(base, signal, SignalsOf(cls, SplitOn(lines[i + 1..], IsBlank)));
    }
  }

  // ---- events to verdict ----

  /** The usage already on record, if any, ahead of those still to come. */
  ghost function Tally(st: Stream, signals: seq<Signal>): seq<Usage> {
    (if st.candidate.Some? then [st.candidate.value] else []) + Usages(BeforeDone(signals))
  }

  ghost predicate Totals(st: Stream, signals: seq<Signal>, r: Stream) {
    var found := Tally(st, signals);
    && r.done == (Done in signals)
    && r.invalid == (st.invalid || Broken in BeforeDone(signals) || |found| > 1)
    && r.candidate == (if found == [] then None else Some(found[0]))
  }

  lemma TotalsCons(st: Stream, signal: Signal, rest: seq<Signal>, r: Stream)
    requires !st.done && !signal.Done? && Totals(Record(st, signal), rest, r)
    ensures Totals(st, [signal] + rest, r)
  {
    var signals := [signal] + rest;
    assert signals[1..] == rest;
    var live, later := BeforeDone(signals), BeforeDone(rest);
    assert live == [signal] + later && live[1..] == later;
    assert Usages(live) == (if signal.Found? then [signal.usage] else []) + Usages(later);
    match signal {
      case Silent => assert Tally(st, signals) == Tally(st, rest);
      case Broken => assert Tally(st, signals) == Tally(st, rest);
      case Found(usage) =>
        if st.candidate.None? {
          assert Tally(st, signals) == Tally(Record(st, signal), rest);
        }
    }
  }

  lemma {:induction false} FoldSignalsMeaning(st: Stream, signals: seq<Signal>)
    requires !st.done
    ensures Totals(st, signals, FoldSignals(st, signals))
    decreases |signals|
  {
    if signals == [] {
    } else if signals[0].Done? {
      assert FoldSignals(Record(st, Done), signals[1..]) == Record(st, Done);
    } else {
      FoldSignalsMeaning(Record(st, signals[0]), signals[1..]);
      assert signals == [signals[0]] + signals[1..];
      TotalsCons(st, signals[0], signals[1..], FoldSignals(st, signals));
    }
  }

  function StreamVerdict(st: Stream): Evidence {
    if st.candidate.Some? && !st.invalid then Available(st.candidate.value)
    else if st.invalid then Malformed
    else Unavailable
  }

  /** Closing a stream is feeding it two line feeds. */
  function Flush(cls: Classifier, st: Stream): Stream {
    Feed(cls, st, [LF, LF])
  }

  /** The two-stage end-of-input code is that flush: a partial line first, then a pending event. */
  lemma FlushByParts(cls: Classifier, st: Stream)
    requires Bounded(st) && !st.done
    ensures var a := if st.line == [] then st else ProcessLine(cls, st);
            Flush(cls, st) == if !a.done && (a.hasData || a.limited) then Dispatch(cls, a) else a
  {
    var first := ProcessLine(cls, st);
    assert Flush(cls, st) == Feed(cls, Step(cls, st, LF), [LF]);
    assert Feed(cls, first, [LF]) == Feed(cls, Step(cls, first, LF), []);
  }

  /** Terminating `s` and adding a blank line dispatches every event of `s`. */
  lemma FeedEvents(cls: Classifier, base: Stream, s: Bytes)
    requires AtBoundary(base)
    ensures Feed(cls, base, s + [LF, LF]) == FoldSignals(base, Signals(cls, s))
  {
    assert s + [LF, LF] == (s + [LF]) + ([] + [LF]);
    FeedAppend(cls, base, s + [LF], [] + [LF]);
    FeedLines(cls, base, s);
    var mid := Feed(cls, base, s + [LF]);
    FeedLine(cls, mid, []);
    FoldLinesAppend(cls, base, Lines(s), [[]]);
    assert FoldLines(cls, mid, [[]]) == FoldLines(cls, LineStep(cls, mid, []), []);
    FoldEvents(cls, base, Lines(s));
  }

  /** Every byte string gets its batch verdict from the incremental parser, and `[DONE]` is
      noticed exactly when the batch reading has one. */
  lemma StreamingRefinesBatch(cls: Classifier, s: Bytes)
    ensures var r := Flush(cls, Feed(cls, START, s));
            StreamVerdict(r) == BatchVerdict(cls, s) && r.done == HasDone(cls, s)
  {
    FeedAppend(cls, START, s, [LF, LF]);
    FeedEvents(cls, START, s);
    FoldSignalsMeaning(START, Signals(cls, s));
    assert Tally(START, Signals(cls, s)) == Usages(BeforeDone(Signals(cls, s)));
  }

  lemma {:induction false} FirstUsageIsReported(cls: Classifier, events: seq<seq<Bytes>>)
    requires Usages(BeforeDone(SignalsOf(cls, events))) != []
    ensures var event := ReportingEvent(cls, events);
            event.Some? && SignalOf(cls, event.value) == Found(Usages(BeforeDone(SignalsOf(cls, events)))[0])
    decreases |events|
  {
    assert events != [];
    var signals := SignalsOf(cls, events);
    assert signals[0] == SignalOf(cls, events[0]) && signals[1..] == SignalsOf(cls, events[1..]);
    var live := BeforeDone(signals);
    assert live[0] == signals[0] && live[1..] == BeforeDone(signals[1..]);
    if !signals[0].Found? {
      FirstUsageIsReported(cls, events[1..]);
    }
  }

  /** A candidate is always the usage found in the data of the first reporting event of what was fed. */
  lemma FeedFound(cls: Classifier, s: Bytes)
    ensures var r := Feed(cls, START, s);
            var event := ReportingEvent(cls, Events(s));
            r.candidate.Some? ==>
              event.Some? && !Oversized(event.value) && cls(Join(Payloads(event.value), LF)) == Found(r.candidate.value)
  {
    var r := Feed(cls, START, s);
    if r.candidate.Some? {
      CandidateStays(cls, r, [LF, LF]);
      FeedAppend(cls, START, s, [LF, LF]);
      FeedEvents(cls, START, s);
      FoldSignalsMeaning(START, Signals(cls, s));
      assert Tally(START, Signals(cls, s)) == Usages(BeforeDone(Signals(cls, s)));
      FirstUsageIsReported(cls, Events(s));
    }
  }

  /** ... so its token counts are not negative, and its durations are negative exactly for metrics of
      that event's document that are out of range. */
  lemma FeedTrustworthy(codec: Codec, format: Format, s: Bytes)
    ensures var cls := ClassifierOf(codec, format);
            var r := Feed(cls, START, s);
            var event := ReportingEvent(cls, Events(s));
            r.candidate.Some? ==>
              && Trustworthy(r.candidate.value)
              && event.Some?
              && TimedBy(r.candidate.value, MetricsOf(codec, TrimSpace(Join(Payloads(event.value), LF)), format))
  {
    FeedFound(ClassifierOf(codec, format), s);
  }
}
