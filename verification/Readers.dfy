/** The readers under the body wrapper: an arbitrary source, and bufio.Reader in front of it. */
module Readers {
  import opened ByteStrings

  datatype ReadError = NoError | EOF | NoProgress | Failure

  /** One choice of a source: an empty read, or up to `size + 1` bytes, with or without the final
      error alongside the last of them. */
  datatype Move = Stall | Chunk(size: nat, eager: bool)

  /** Delivers `rest`, cut up as `plan` dictates, then `final` for ever. Every io.Reader that yields
      `rest` followed by a sticky error behaves, over any finite run, like one of these. */
  datatype Source = Source(rest: Bytes, final: ReadError, plan: seq<Move>, ended: bool)

  ghost predicate Honest(src: Source) {
    (src.final.EOF? || src.final.Failure?) && (src.ended ==> src.rest == [])
  }

  datatype ReadResult<R> = ReadResult(out: Bytes, err: ReadError, next: R)

  function Min(a: nat, b: nat): nat {
    if a < b then a else b
  }

  function SourceRead(src: Source, limit: nat): ReadResult<Source> {
    if src.ended then ReadResult([], src.final, src)
    else if src.plan != [] && src.plan[0].Stall? then
      ReadResult([], NoError, src.(plan := src.plan[1..]))
    else
      var size := if src.plan == [] then limit else src.plan[0].size + 1;
      var eager := src.plan != [] && src.plan[0].eager;
      var n := Min(size, Min(limit, |src.rest|));
      var left := src.rest[n..];
      var ends := left == [] && (eager || src.rest == []);
      ReadResult(src.rest[..n], if ends then src.final else NoError,
                 src.(rest := left, plan := if src.plan == [] then [] else src.plan[1..], ended := ends))
  }

  // ---- bufio.Reader ----

  const BUFFER_SIZE: nat := 32 * 1024
  const MAX_EMPTY_READS: nat := 100

  /** `buffered` is buf[r:w]; `err` is the read error held back. */
  datatype Buffered = Buffered(src: Source, buffered: Bytes, err: ReadError)

  /** bufio.Reader.Read: at most one read of the source, none while bytes are buffered. */
  function BufRead(b: Buffered, limit: nat): ReadResult<Buffered> {
    if limit == 0 then
      if b.buffered != [] then ReadResult([], NoError, b) else ReadResult([], b.err, b.(err := NoError))
    else if b.buffered != [] then
      var n := Min(limit, |b.buffered|);
      ReadResult(b.buffered[..n], NoError, b.(buffered := b.buffered[n..]))
    else if b.err != NoError then
      ReadResult([], b.err, b.(err := NoError))
    else if limit >= BUFFER_SIZE then
      var r := SourceRead(b.src, limit);
      ReadResult(r.out, r.err, b.(src := r.next))
    else
      var r := SourceRead(b.src, BUFFER_SIZE);
      if r.out == [] then ReadResult([], r.err, b.(src := r.next))
      else
        var n := Min(limit, |r.out|);
        ReadResult(r.out[..n], NoError, Buffered(r.next, r.out[n..], r.err))
  }

  /** bufio.Reader.fill on an empty buffer: up to `tries` reads until one gives bytes or an error. */
  function Fill(src: Source, tries: nat): ReadResult<Source>
    decreases tries
  {
    if tries == 0 then ReadResult([], NoProgress, src)
    else
      var r := SourceRead(src, BUFFER_SIZE);
      if r.err != NoError || r.out != [] then r else Fill(r.next, tries - 1)
  }

  /** bufio.Reader.Peek(1); `out` is the byte seen, which stays buffered. */
  function Peek(b: Buffered): ReadResult<Buffered> {
    var filled :=
      if b.buffered != [] || b.err != NoError then b
      else var r := Fill(b.src, MAX_EMPTY_READS); Buffered(r.next, r.out, r.err);
    if filled.buffered != [] then ReadResult(filled.buffered[..1], NoError, filled)
    else ReadResult([], filled.err, filled.(err := NoError))
  }

  // ---- what they preserve ----

  /** A held-back error is the source's last word. */
  ghost predicate Faithful(b: Buffered) {
    && Honest(b.src)
    && (b.err == NoError || (b.err == b.src.final && b.src.ended))
  }

  /** Bytes the caller has yet to receive. */
  function Pending(b: Buffered): Bytes {
    b.buffered + b.src.rest
  }

  predicate IsSuffix<T(==)>(tail: seq<T>, s: seq<T>) {
    |tail| <= |s| && tail == s[|s| - |tail|..]
  }

  /** A read hands over a prefix of what is left and reports `final` only after the last byte. */
  ghost predicate ReadsFrom(src: Source, r: ReadResult<Source>) {
    && Honest(r.next)
    && r.next.final == src.final
    && r.out + r.next.rest == src.rest
    && (r.err == NoError || (r.err == src.final && r.next.ended) || (r.err == NoProgress && r.out == []))
    && IsSuffix(r.next.plan, src.plan)
  }

  lemma SourceReads(src: Source, limit: nat)
    requires Honest(src)
    ensures ReadsFrom(src, SourceRead(src, limit))
    ensures SourceRead(src, limit).err != NoProgress
    ensures |SourceRead(src, limit).out| <= limit
    ensures var r := SourceRead(src, limit);
            limit > 0 && r.err == NoError && r.out == [] ==> |r.next.plan| < |src.plan|
  {
    var r := SourceRead(src, limit);
    assert r.out + r.next.rest == src.rest;
  }

  function LeadingStalls(plan: seq<Move>): nat {
    if plan == [] || plan[0].Chunk? then 0 else 1 + LeadingStalls(plan[1..])
  }

  /** Empty reads still to come before an exhausted source reports its final error. */
  function Stalls(src: Source): nat {
    if src.ended then 0 else LeadingStalls(src.plan)
  }

  /** Filling reaches the end of an exhausted source exactly if it stalls fewer times than are tried. */
  lemma {:induction false} FillMeaning(src: Source, tries: nat)
    requires Honest(src)
    ensures ReadsFrom(src, Fill(src, tries))
    ensures Fill(src, tries).err == NoError ==> Fill(src, tries).out != []
    ensures src.rest == [] ==> Fill(src, tries).err == if Stalls(src) < tries then src.final else NoProgress
    ensures src.rest != [] ==> Fill(src, tries).out != [] || Fill(src, tries).err == NoProgress
    decreases tries
  {
    if tries > 0 {
      SourceReads(src, BUFFER_SIZE);
      var r := SourceRead(src, BUFFER_SIZE);
      if r.err == NoError && r.out == [] {
        FillMeaning(r.next, tries - 1);
        assert r.next.rest == src.rest;
      }
    }
  }

  /** The same for the buffered reader, whose callers see no error before the last byte. */
  ghost predicate PassesOn(b: Buffered, r: ReadResult<Buffered>) {
    && Faithful(r.next)
    && r.next.src.final == b.src.final
    && r.out + Pending(r.next) == Pending(b)
    && (r.err == NoError || (r.err == b.src.final && Pending(r.next) == []))
    && IsSuffix(r.next.src.plan, b.src.plan)
  }

  lemma DirectPasses(b: Buffered, r: ReadResult<Source>)
    requires Faithful(b) && b.buffered == [] && b.err == NoError
    requires ReadsFrom(b.src, r) && r.err != NoProgress
    ensures PassesOn(b, ReadResult(r.out, r.err, b.(src := r.next)))
  {
    assert Pending(b) == b.src.rest && Pending(b.(src := r.next)) == r.next.rest;
  }

  lemma RefillPasses(b: Buffered, r: ReadResult<Source>, n: nat)
    requires Faithful(b) && b.buffered == [] && b.err == NoError
    requires ReadsFrom(b.src, r) && r.err != NoProgress && n <= |r.out|
    ensures PassesOn(b, ReadResult(r.out[..n], NoError, Buffered(r.next, r.out[n..], r.err)))
  {
    assert Pending(b) == b.src.rest;
    assert r.out[..n] + (r.out[n..] + r.next.rest) == r.out + r.next.rest;
  }

  lemma DrainPasses(b: Buffered, n: nat)
    requires Faithful(b) && n <= |b.buffered|
    ensures PassesOn(b, ReadResult(b.buffered[..n], NoError, b.(buffered := b.buffered[n..])))
    ensures b.buffered == [] && b.err != NoError ==> PassesOn(b, ReadResult([], b.err, b.(err := NoError)))
  {
    assert b.buffered[..n] + (b.buffered[n..] + b.src.rest) == Pending(b);
    assert [] + Pending(b.(err := NoError)) == Pending(b);
  }

  lemma BufReads(b: Buffered, limit: nat)
    requires Faithful(b)
    ensures PassesOn(b, BufRead(b, limit))
    ensures |BufRead(b, limit).out| <= limit
    ensures var r := BufRead(b, limit);
            limit > 0 && r.err == NoError && r.out == [] ==> |r.next.src.plan| < |b.src.plan|
  {
    if limit == 0 || b.err != NoError || b.buffered != [] {
      DrainPasses(b, Min(limit, |b.buffered|));
      assert limit == 0 ==> b.buffered[..0] == [] && b.buffered[0..] == b.buffered;
      assert b.(err := NoError).(err := b.err) == b;
    } else if limit >= BUFFER_SIZE {
      SourceReads(b.src, limit);
      DirectPasses(b, SourceRead(b.src, limit));
    } else {
      var r := SourceRead(b.src, BUFFER_SIZE);
      SourceReads(b.src, BUFFER_SIZE);
      DirectPasses(b, r);
      RefillPasses(b, r, Min(limit, |r.out|));
    }
  }

  /** Peeking loses no byte, and sees EOF exactly when none is left, EOF is how the source ends, and
      the source gets there before the reader's patience runs out. */
  lemma PeekMeaning(b: Buffered)
    requires Faithful(b)
    ensures var r := Peek(b);
            && PassesOn(b, ReadResult([], NoError, r.next))
            && (r.err == EOF <==>
                 b.src.final == EOF && Pending(b) == [] && (b.err != NoError || Stalls(b.src) < 100))
  {
    var r := Peek(b);
    if b.buffered == [] && b.err == NoError {
      FillMeaning(b.src, MAX_EMPTY_READS);
      assert Pending(b) == b.src.rest;
      assert Pending(r.next) == b.src.rest;
    }
    assert [] + Pending(r.next) == Pending(b);
  }

  /** Never a hundred empty reads in a row. */
  ghost predicate Lively(plan: seq<Move>) {
    forall i :: 0 <= i <= |plan| - MAX_EMPTY_READS ==> LeadingStalls(plan[i..]) < MAX_EMPTY_READS
  }

  lemma {:induction false} LeadingStallsBound(plan: seq<Move>)
    ensures LeadingStalls(plan) <= |plan|
    decreases |plan|
  {
    if plan != [] && plan[0].Stall? {
      LeadingStallsBound(plan[1..]);
    }
  }

  lemma LivelySuffix(plan: seq<Move>, k: nat)
    requires Lively(plan) && k <= |plan|
    ensures Lively(plan[k..]) && LeadingStalls(plan[k..]) < MAX_EMPTY_READS
  {
    var rest := plan[k..];
    assert forall i :: 0 <= i <= |rest| ==> rest[i..] == plan[k + i..];
    LeadingStallsBound(rest);
    assert rest[0..] == rest;
  }

  lemma {:induction false} LeadingStallsAll(n: nat)
    ensures LeadingStalls(seq(n, _ => Stall)) == n
    decreases n
  {
    if n > 0 {
      assert seq(n, _ => Stall)[1..] == seq(n - 1, _ => Stall);
      LeadingStallsAll(n - 1);
    }
  }

  /** Looking ahead can miss the end: a source that makes a hundred empty reads between its last byte
      and EOF exhausts the reader's patience, and the peek after the last byte reports no EOF. */
  lemma PeekMissesLateEOF(last: Byte)
    ensures var src := Source([last], EOF, [Chunk(0, false)] + seq(100, _ => Stall), false);
            var read := BufRead(Buffered(src, [], NoError), 1);
            read.out == [last] && read.err == NoError && Pending(read.next) == [] && Peek(read.next).err == NoProgress
  {
    var stalls := seq(100, _ => Stall);
    var src := Source([last], EOF, [Chunk(0, false)] + stalls, false);
    var read := BufRead(Buffered(src, [], NoError), 1);
    assert src.plan[1..] == stalls;
    assert read.next.src == Source([], EOF, stalls, false);
    LeadingStallsAll(100);
    FillMeaning(read.next.src, MAX_EMPTY_READS);
  }
}
