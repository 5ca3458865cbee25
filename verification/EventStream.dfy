/** The byte-at-a-time event-stream parser as a function on its state. The observer class is proved
    against it; BatchSpec gives the independent meaning it is proved to have. */
module EventStream {
  import opened ByteStrings
  import opened Common
  import opened UsageDecoding

  const MAX_SSE: nat := 65536

  /** `line` and `data` are the bounded buffers; `limited` marks the pending event oversized. */
  datatype Stream = Stream(
    line: Bytes,
    data: Bytes,
    limited: bool,
    hasData: bool,
    candidate: Option<Usage>,
    invalid: bool,
    done: bool)

  const START := Stream([], [], false, false, None, false, false)

  /** Holds in every reachable state. */
  ghost predicate Bounded(st: Stream) {
    && |st.line| <= MAX_SSE
    && |st.data| <= MAX_SSE
    && (!st.hasData ==> st.data == [])
  }

  predicate IsDataLine(line: Bytes) {
    DATA_FIELD <= line
  }

  /** The field value: what follows `data:`, less one leading space. */
  function Payload(line: Bytes): Bytes
    requires IsDataLine(line)
  {
    var value := line[|DATA_FIELD|..];
    if value != [] && value[0] == 32 then value[1..] else value
  }

  /** A line is a data line exactly if it begins with `data:`, and its value is the rest less a single
      leading space if there is one. */
  lemma PayloadMeaning(line: Bytes, v: Bytes)
    ensures IsDataLine(line) <==> [100, 97, 116, 97, 58] <= line
    ensures IsDataLine([100, 97, 116, 97, 58] + v) && IsDataLine([100, 97, 116, 97, 58, 32] + v)
    ensures Payload([100, 97, 116, 97, 58, 32] + v) == v
    ensures v == [] || v[0] != 32 ==> Payload([100, 97, 116, 97, 58] + v) == v
  {
    var spaced: Bytes := [100, 97, 116, 97, 58, 32] + v;
    assert spaced[5..] == [32] + v && ([32] + v)[1..] == v;
    assert ([100, 97, 116, 97, 58] + v)[5..] == v;
  }

  function Record(st: Stream, signal: Signal): (r: Stream)
    ensures r == st.(candidate := r.candidate, invalid := r.invalid, done := r.done)
  {
    match signal
    case Silent => st
    case Done => st.(done := true)
    case Found(usage) => if st.candidate.Some? then st.(invalid := true) else st.(candidate := Some(usage))
    case Broken => st.(invalid := true)
  }

  function Dispatch(cls: Classifier, st: Stream): Stream {
    var signal := if st.limited then Broken else if st.hasData then cls(st.data) else Silent;
    Record(st.(data := [], limited := false, hasData := false), signal)
  }

  function ProcessLine(cls: Classifier, st: Stream): Stream {
    var line := DropCR(st.line);
    var next := st.(line := []);
    if line == [] then Dispatch(cls, next)
    else if st.limited || !IsDataLine(line) then next
    else
      var data := if st.hasData then st.data + [LF] + Payload(line) else st.data + Payload(line);
      if |data| > MAX_SSE then next.(data := [], limited := true)
      else next.(data := data, hasData := true)
  }

  function Step(cls: Classifier, st: Stream, value: Byte): Stream {
    if st.done then st
    else if value == LF then ProcessLine(cls, st)
    else if |st.line| < MAX_SSE then st.(line := st.line + [value])
    else st.(limited := true)
  }

  function Feed(cls: Classifier, st: Stream, s: Bytes): Stream
    decreases |s|
  {
    if s == [] then st else Feed(cls, Step(cls, st, s[0]), s[1..])
  }

  /** Chunk boundaries leave no trace. */
  lemma {:induction false} FeedAppend(cls: Classifier, st: Stream, a: Bytes, b: Bytes)
    ensures Feed(cls, st, a + b) == Feed(cls, Feed(cls, st, a), b)
    decreases |a|
  {
    if a == [] {
      assert a + b == b;
    } else {
      assert (a + b)[0] == a[0] && (a + b)[1..] == a[1..] + b;
      FeedAppend(cls, Step(cls, st, a[0]), a[1..], b);
    }
  }

  /** `[DONE]` is absorbing. */
  lemma {:induction false} FeedDone(cls: Classifier, st: Stream, s: Bytes)
    requires st.done
    ensures Feed(cls, st, s) == st
    decreases |s|
  {
    if s != [] {
      FeedDone(cls, st, s[1..]);
    }
  }

  /** Memory: neither buffer ever passes the cap, however long the input. */
  lemma {:induction false} FeedBounded(cls: Classifier, st: Stream, s: Bytes)
    requires Bounded(st)
    ensures Bounded(Feed(cls, st, s))
    decreases |s|
  {
    if s != [] {
      FeedBounded(cls, Step(cls, st, s[0]), s[1..]);
    }
  }

  /** Once there is a candidate, nothing replaces it. */
  lemma {:induction false} CandidateStays(cls: Classifier, st: Stream, s: Bytes)
    requires st.candidate.Some?
    ensures Feed(cls, st, s).candidate == st.candidate
    decreases |s|
  {
    if s != [] {
      CandidateStays(cls, Step(cls, st, s[0]), s[1..]);
    }
  }
}
