/** Laws of the framing that a producer of event streams can rely on. */
module FramingLaws {
  import opened ByteStrings
  import opened Common
  import opened UsageDecoding
  import opened EventStream
  import opened BatchSpec
  import opened Refinement

  ghost predicate AtLineStart(s: Bytes) {
    s == [] || s[|s| - 1] == LF
  }

  lemma LineStart(cls: Classifier, s: Bytes)
    requires AtLineStart(s)
    ensures Feed(cls, START, s).line == []
  {
    if s != [] {
      var init := s[..|s| - 1];
      assert s == init + [LF];
      FeedLines(cls, START, init);
    }
  }

  /** A line of at most 65536 bytes that is not blank and does not begin with `data:` can be put in at
      any line boundary: nothing changes, not even the state of an event that is half read. */
  lemma OtherFieldsIgnored(cls: Classifier, before: Bytes, line: Bytes, after: Bytes)
    requires AtLineStart(before)
    requires 10 !in line && line != [] && line != [13] && |line| <= 65536 && !([100, 97, 116, 97, 58] <= line)
    ensures Feed(cls, START, before + (line + [10]) + after) == Feed(cls, START, before + after)
  {
    LineStart(cls, before);
    var st := Feed(cls, START, before);
    FeedLine(cls, st, line);
    assert !IsBlank(line) && !IsDataLine(DropCR(line));
    if !st.done {
      NonBlankLine(cls, st, line);
    }
    assert before + (line + [LF]) + after == before + ((line + [LF]) + after);
    FeedAppend(cls, START, before, (line + [LF]) + after);
    FeedAppend(cls, st, line + [LF], after);
    FeedAppend(cls, START, before, after);
  }

  /** In particular a comment, a line that begins with a colon. */
  lemma CommentInsensitive(cls: Classifier, before: Bytes, comment: Bytes, after: Bytes)
    requires AtLineStart(before)
    requires 10 !in comment && comment != [] && comment[0] == 58 && |comment| <= 65536
    ensures Feed(cls, START, before + (comment + [10]) + after) == Feed(cls, START, before + after)
  {
    OtherFieldsIgnored(cls, before, comment, after);
  }

  function ToCRLF(s: Bytes): Bytes {
    if s == [] then []
    else (if s[0] == LF then [CR, LF] else [s[0]]) + ToCRLF(s[1..])
  }

  /** Lines that end in LF; the unterminated rest does not count. */
  function TerminatedLines(s: Bytes): seq<Bytes> {
    Lines(s)[..|Lines(s)| - 1]
  }

  /** Adding a CR to `line` neither doubles one nor crosses the cap. */
  ghost predicate TakesCR(line: Bytes) {
    (line == [] || line[|line| - 1] != CR) && |line| != MAX_SSE
  }

  lemma {:induction false} ToCRLFOfLine(raw: Bytes, rest: Bytes)
    requires LF !in raw
    ensures ToCRLF(raw + [LF] + rest) == (raw + [CR] + [LF]) + ToCRLF(rest)
    decreases |raw|
  {
    if raw == [] {
      assert raw + [LF] + rest == [LF] + rest;
      assert ([LF] + rest)[1..] == rest;
      assert raw + [CR] + [LF] == [CR, LF];
    } else {
      assert (raw + [LF] + rest)[1..] == raw[1..] + [LF] + rest;
      assert raw[0] in raw;
      ToCRLFOfLine(raw[1..], rest);
      assert raw + [CR] + [LF] == [raw[0]] + (raw[1..] + [CR] + [LF]);
    }
  }

  lemma {:induction false} ToCRLFNoLF(s: Bytes)
    requires LF !in s
    ensures ToCRLF(s) == s
    decreases |s|
  {
    if s != [] {
      assert s[0] in s;
      ToCRLFNoLF(s[1..]);
    }
  }

  lemma OnlyStrippedLineCounts(cls: Classifier, st: Stream, a: Bytes, b: Bytes)
    requires DropCR(a) == DropCR(b)
    ensures ProcessLine(cls, st.(line := a)) == ProcessLine(cls, st.(line := b))
  {
  }

  lemma LineStepCR(cls: Classifier, st: Stream, raw: Bytes)
    requires TakesCR(raw)
    ensures LineStep(cls, st, raw + [CR]) == LineStep(cls, st, raw)
  {
    if |raw| < MAX_SSE {
      DropCRMeaning(raw);
      OnlyStrippedLineCounts(cls, st.(limited := st.limited), raw + [CR], raw);
    } else {
      assert Kept(raw + [CR]) == Kept(raw);
    }
  }

  lemma TerminatedCons(s: Bytes, raw: Bytes, rest: Bytes)
    requires Lines(s) == [raw] + Lines(rest)
    ensures TerminatedLines(s) == [raw] + TerminatedLines(rest)
    ensures raw in TerminatedLines(s)
    ensures forall line :: line in TerminatedLines(rest) ==> line in TerminatedLines(s)
  {
    assert ([raw] + Lines(rest))[..|Lines(rest)|] == [raw] + Lines(rest)[..|Lines(rest)| - 1];
    assert TerminatedLines(s)[0] == raw;
  }

  /** LF and CRLF line endings are read alike. */
  lemma {:induction false} CRLFInsensitive(cls: Classifier, st: Stream, s: Bytes)
    requires st.line == []
    requires forall line :: line in TerminatedLines(s) ==> TakesCR(line)
    ensures Feed(cls, st, ToCRLF(s)) == Feed(cls, st, s)
    decreases |s|
  {
    var i := IndexOf(s, IsLF);
    if i == |s| {
      ToCRLFNoLF(s);
    } else {
      var raw, rest := s[..i], s[i + 1..];
      assert s == raw + [LF] + rest;
      assert Lines(s) == [raw] + Lines(rest);
      TerminatedCons(s, raw, rest);
      ToCRLFOfLine(raw, rest);
      FeedLine(cls, st, raw);
      FeedLine(cls, st, raw + [CR]);
      LineStepCR(cls, st, raw);
      LineStepResets(cls, st, raw);
      CRLFInsensitive(cls, LineStep(cls, st, raw), rest);
      FeedAppend(cls, st, raw + [LF], rest);
      FeedAppend(cls, st, raw + [CR] + [LF], ToCRLF(rest));
    }
  }

  /** The lines of `s` form a single event. */
  ghost predicate OneEvent(s: Bytes) {
    forall i :: 0 <= i < |Lines(s)| ==> !IsBlank(Lines(s)[i])
  }

  /** The limit flag is exact: set just when some raw line or the joined data is over 65536 bytes. */
  lemma LimitExact(cls: Classifier, st: Stream, s: Bytes)
    requires AtBoundary(st) && !st.done && OneEvent(s)
    ensures Feed(cls, st, s + [LF]).limited <==> Oversized(Lines(s))
    ensures Oversized(Lines(s)) <==>
            (exists line | line in Lines(s) :: |line| > 65536) || |Join(Payloads(Lines(s)), 10)| > 65536
  {
    FeedLines(cls, st, s);
    AccumulateLines(cls, st, Lines(s));
  }

  lemma {:induction false} FeedInvalid(cls: Classifier, st: Stream, s: Bytes)
    ensures Feed(cls, st.(invalid := true), s) == Feed(cls, st, s).(invalid := true)
    decreases |s|
  {
    if s != [] {
      assert Step(cls, st.(invalid := true), s[0]) == Step(cls, st, s[0]).(invalid := true);
      FeedInvalid(cls, Step(cls, st, s[0]), s[1..]);
    }
  }

  /** An event closed by any blank line contributes its signal and leaves nothing behind. */
  lemma ClosedEvent(cls: Classifier, st: Stream, s: Bytes, blank: Bytes)
    requires AtBoundary(st) && !st.done && OneEvent(s) && IsBlank(blank)
    ensures Feed(cls, st, (s + [LF]) + (blank + [LF])) == Record(st, SignalOf(cls, Lines(s)))
  {
    assert LF !in blank;
    FeedAppend(cls, st, s + [LF], blank + [LF]);
    FeedLines(cls, st, s);
    var mid := Feed(cls, st, s + [LF]);
    FeedLine(cls, mid, blank);
    FoldLinesAppend(cls, st, Lines(s), [blank]);
    assert FoldLines(cls, mid, [blank]) == FoldLines(cls, LineStep(cls, mid, blank), []);
    DispatchEvent(cls, st, Lines(s), blank);
  }

  /** Resynchronisation: an oversized event, closed by any blank line, poisons the verdict and is
      otherwise as if absent, whatever follows and whatever it contained, a `[DONE]` included. */
  lemma OversizedResync(cls: Classifier, st: Stream, s: Bytes, blank: Bytes, after: Bytes)
    requires AtBoundary(st) && !st.done && OneEvent(s) && Oversized(Lines(s)) && IsBlank(blank)
    ensures Feed(cls, st, ((s + [LF]) + (blank + [LF])) + after) == Feed(cls, st, after).(invalid := true)
  {
    ClosedEvent(cls, st, s, blank);
    FeedAppend(cls, st, (s + [LF]) + (blank + [LF]), after);
    FeedInvalid(cls, st, after);
  }

  /** The line `data: v`. */
  function DataLine(v: Bytes): Bytes {
    [100, 97, 116, 97, 58, 32] + v
  }

  ghost function DataLines(values: seq<Bytes>): seq<Bytes> {
    if values == [] then [] else DataLines(values[..|values| - 1]) + [DataLine(values[|values| - 1])]
  }

  /** A value that fits on one such line as it is. */
  ghost predicate IsFieldValue(v: Bytes) {
    10 !in v && (v == [] || v[|v| - 1] != 13) && |v| + 6 <= 65536
  }

  ghost predicate IsEventLine(line: Bytes) {
    LF !in line && !IsBlank(line) && |line| <= MAX_SSE
  }

  lemma DataLineMeaning(v: Bytes)
    requires IsFieldValue(v)
    ensures IsEventLine(DataLine(v)) && DropCR(DataLine(v)) == DataLine(v)
    ensures IsDataLine(DataLine(v)) && Payload(DataLine(v)) == v
  {
    var line := DataLine(v);
    assert line[|line| - 1] != 13;
    PayloadMeaning(line, v);
  }

  lemma PayloadsOfData(lines: seq<Bytes>, v: Bytes)
    requires IsFieldValue(v)
    ensures Payloads(lines + [DataLine(v)]) == Payloads(lines) + [v]
  {
    DataLineMeaning(v);
    PayloadsSnoc(lines, DataLine(v));
  }

  lemma DataLinesSnoc(values: seq<Bytes>, v: Bytes)
    ensures DataLines(values + [v]) == DataLines(values) + [DataLine(v)]
  {
    assert (values + [v])[..|values|] == values;
  }

  lemma {:induction false} DataLinesPayloads(values: seq<Bytes>)
    requires forall i :: 0 <= i < |values| ==> IsFieldValue(values[i])
    ensures Payloads(DataLines(values)) == values
    decreases |values|
  {
    if values != [] {
      var init, v := values[..|values| - 1], values[|values| - 1];
      DataLinesPayloads(init);
      assert values == init + [v];
      DataLinesSnoc(init, v);
      PayloadsOfData(DataLines(init), v);
    }
  }

  lemma {:induction false} DataLinesAreLines(values: seq<Bytes>)
    requires forall i :: 0 <= i < |values| ==> IsFieldValue(values[i])
    ensures |DataLines(values)| == |values|
    ensures forall i :: 0 <= i < |values| ==> IsEventLine(DataLines(values)[i])
    decreases |values|
  {
    if values != [] {
      DataLinesAreLines(values[..|values| - 1]);
      DataLineMeaning(values[|values| - 1]);
    }
  }

  lemma DataIsOneEvent(values: seq<Bytes>)
    requires values != [] && forall i :: 0 <= i < |values| ==> IsFieldValue(values[i])
    ensures var s := Join(DataLines(values), LF); Lines(s) == DataLines(values) && OneEvent(s)
  {
    var lines := DataLines(values);
    DataLinesAreLines(values);
    forall line | line in lines
      ensures LF !in line
    {
      var i :| 0 <= i < |lines| && lines[i] == line;
      assert IsEventLine(lines[i]);
    }
    LinesUnique(lines);
    forall i | 0 <= i < |lines|
      ensures !IsBlank(lines[i])
    {
      assert IsEventLine(lines[i]);
    }
  }

  lemma DataSignal(cls: Classifier, values: seq<Bytes>)
    requires values != [] && forall i :: 0 <= i < |values| ==> IsFieldValue(values[i])
    requires |Join(values, 10)| <= 65536
    ensures SignalOf(cls, DataLines(values)) == cls(Join(values, 10))
  {
    var lines := DataLines(values);
    DataLinesPayloads(values);
    DataLinesAreLines(values);
    assert !HasLongLine(lines);
  }

  /** Values sent one per `data: ` line and closed by a blank line reach the classifier joined by LF,
      from any event boundary. */
  lemma DataEvent(cls: Classifier, st: Stream, values: seq<Bytes>, blank: Bytes)
    requires AtBoundary(st) && !st.done
    requires values != [] && forall i :: 0 <= i < |values| ==> IsFieldValue(values[i])
    requires |Join(values, 10)| <= 65536 && (blank == [] || blank == [13])
    ensures Feed(cls, st, (Join(DataLines(values), 10) + [10]) + (blank + [10])) == Record(st, cls(Join(values, 10)))
  {
    DataIsOneEvent(values);
    DataSignal(cls, values);
    ClosedEvent(cls, st, Join(DataLines(values), LF), blank);
  }

  /** One value and a blank line. */
  function DataText(v: Bytes): Bytes {
    DataLine(v) + [10] + [10]
  }

  lemma SingleData(cls: Classifier, st: Stream, v: Bytes)
    requires AtBoundary(st) && !st.done && IsFieldValue(v)
    ensures Feed(cls, st, DataText(v)) == Record(st, cls(v))
  {
    assert Join([v], 10) == v;
    assert [v][..0] == [] && DataLines([v]) == [DataLine(v)] && Join([DataLine(v)], 10) == DataLine(v);
    DataEvent(cls, st, [v], []);
    assert (DataLine(v) + [10]) + ([] + [10]) == DataText(v);
  }
}
