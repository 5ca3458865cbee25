/** completionUsageBody: a reader that shows the observer every byte it passes on and tells it where
    the body ends, by plain EOF, by looking one byte ahead, or by counting down a known length. */
module Body {
  import opened ByteStrings
  import opened Observation
  import opened Observer
  import opened Readers
  import opened Countdown
  import opened Guarantees

  class CompletionUsageBody {
    const observer: CompletionUsageObserver
    const hasLookahead: bool
    const hasExpectedLength: bool
    var remaining: int
    var expectedLengthBad: bool
    /** The source, with bufio's buffer in front; without lookahead that buffer stays empty. */
    var input: Buffered

    ghost const whole: Bytes
    ghost const final: ReadError
    ghost const contentLength: int
    ghost const lively: bool
    ghost var delivered: Bytes
    ghost var reports: seq<Report>
    ghost var sawEOF: bool

    /** What the observer has heard of the body. */
    ghost function Progress(): Parse
      reads this
    {
      Absorb(observer.cfg, Start(observer.cfg), delivered)
    }

    /** Transparency: what was delivered and what is pending make up the body, whatever the mode. */
    ghost predicate Transparent()
      reads this
    {
      && Faithful(input)
      && input.src.final == final
      && delivered + Pending(input) == whole
      && (!hasLookahead ==> input.buffered == [] && input.err == NoError)
      && (lively ==> Lively(input.src.plan))
    }

    /** Plain and lookahead modes: the observer closes on the whole body or not at all. */
    ghost predicate EndsAtEOF()
      reads this, observer
    {
      && (observer.finished ==>
           observer.Parsed() == Close(observer.cfg, Absorb(observer.cfg, Start(observer.cfg), whole)))
      && (!hasLookahead ==>
           (observer.finished <==> sawEOF || (IsDone(Progress()) && observer.cfg.FinishesAtDone())))
      && (hasLookahead ==>
           && !observer.cfg.streaming
           && (observer.finished ==> final == EOF && delivered == whole)
           && (sawEOF ==> observer.finished)
           && (lively ==> (observer.finished <==> final == EOF && delivered == whole && (whole != [] || sawEOF))))
    }

    /** Known-length mode: the countdown decides, and what is closed on is the first contentLength bytes. */
    ghost predicate EndsAtLength()
      reads this, observer
    {
      && !hasLookahead && !observer.cfg.streaming && 0 <= contentLength
      && CountAll(contentLength, reports) == Count(remaining, expectedLengthBad, observer.finished)
      && Total(reports) == |delivered|
      && (observer.finished ==>
           contentLength <= |delivered|
           && observer.Parsed() == Absorb(observer.cfg, Start(observer.cfg), delivered[..contentLength]))
    }

    ghost predicate Valid()
      reads this, observer
    {
      && observer.Valid()
      && Transparent()
      && (!observer.finished ==> observer.Parsed() == Progress())
      && (if hasExpectedLength then EndsAtLength() else EndsAtEOF())
    }

    /** Reads still possible before something other than an empty read must happen. */
    ghost function Fuel(): nat
      reads this
    {
      |input.src.plan| + |Pending(input)|
    }

    constructor (src: Source, cfg: Config, contentLength: int)
      requires Honest(src)
      ensures Valid() && fresh(observer) && observer.cfg == cfg && !observer.finished
      ensures whole == src.rest && final == src.final && delivered == [] && this.contentLength == contentLength
      ensures lively == Lively(src.plan) && reports == [] && !sawEOF
      ensures hasExpectedLength == (!cfg.streaming && cfg.hasTerminal && contentLength >= 0)
      ensures hasLookahead == (!cfg.streaming && cfg.hasTerminal && contentLength < 0)
    {
      var preallocated := if !cfg.streaming && 0 < contentLength <= MAX_JSON then contentLength else 0;
      observer := new CompletionUsageObserver(cfg, preallocated);
      hasExpectedLength := !cfg.streaming && cfg.hasTerminal && contentLength >= 0;
      hasLookahead := !cfg.streaming && cfg.hasTerminal && contentLength < 0;
      remaining := if !cfg.streaming && cfg.hasTerminal && contentLength >= 0 then contentLength else -1;
      expectedLengthBad := false;
      input := Buffered(src, [], NoError);
      whole, final, this.contentLength, lively := src.rest, src.final, contentLength, Lively(src.plan);
      delivered, reports, sawEOF := [], [], false;
      new;
      AbsorbNothing(cfg, Start(cfg));
    }

    /** One Read of the layer below, into a buffer of `limit` bytes. */
    method ReadInput(limit: nat) returns (out: Bytes, err: ReadError)
      requires Transparent()
      modifies this`input, this`delivered
      ensures Transparent() && delivered == old(delivered) + out && |out| <= limit
      ensures err == NoError || (err == final && delivered == whole)
      ensures limit > 0 && err == NoError ==> Fuel() < old(Fuel())
      ensures hasLookahead ==> input == BufRead(old(input), limit).next
    {
      var r;
      if hasLookahead {
        r := BufRead(input, limit);
        BufReads(input, limit);
      } else {
        var direct := SourceRead(input.src, limit);
        r := ReadResult(direct.out, direct.err, input.(src := direct.next));
        SourceReads(input.src, limit);
        DirectPasses(input, direct);
      }
      if lively {
        LivelySuffix(input.src.plan, |input.src.plan| - |r.next.src.plan|);
      }
      Regroup(delivered, r.out, Pending(r.next));
      input, out, err := r.next, r.out, r.err;
      delivered := delivered + out;
    }

    method PeekInput() returns (err: ReadError)
      requires Transparent() && hasLookahead
      modifies this`input
      ensures Transparent() && Fuel() <= old(Fuel())
      ensures err == EOF <==>
              final == EOF && delivered == whole
              && (old(input).err != NoError || Stalls(old(input).src) < 100)
      ensures lively && final == EOF && delivered == whole ==> err == EOF
    {
      var r := Peek(input);
      PeekMeaning(input);
      if lively {
        LivelySuffix(input.src.plan, 0);
        LivelySuffix(input.src.plan, |input.src.plan| - |r.next.src.plan|);
      }
      assert input.src.plan[0..] == input.src.plan;
      assert [] + Pending(r.next) == Pending(r.next);
      assert Pending(input) == [] <==> delivered == whole;
      input, err := r.next, r.err;
    }

    /** Hands `out`, the bytes just delivered, to the observer. */
    method Show(out: Bytes, ghost before: Bytes)
      requires observer.Valid() && delivered == before + out
      requires !observer.finished ==> observer.Parsed() == Absorb(observer.cfg, Start(observer.cfg), before)
      modifies observer
      ensures observer.Valid()
      ensures old(observer.finished) ==> observer.finished && observer.Parsed() == old(observer.Parsed())
      ensures !old(observer.finished) ==> observer.Parsed() == Progress()
      ensures !old(observer.finished) ==>
                (observer.finished <==>
                   && IsDone(Progress())
                   && !IsDone(Absorb(observer.cfg, Start(observer.cfg), before))
                   && observer.cfg.FinishesAtDone())
    {
      ghost var cfg := observer.cfg;
      AbsorbBounded(cfg, Start(cfg), before);
      AbsorbAppend(cfg, Start(cfg), before, out);
      if |out| > 0 {
        observer.Observe(out);
      } else {
        assert before + out == before;
      }
    }

    /** The countdown itself; says if this report lands on the length. */
    method CountOff(n: nat, err: ReadError, ghost complete: bool) returns (lands: bool)
      requires 0 <= contentLength
      requires CountAll(contentLength, reports) == Count(remaining, expectedLengthBad, complete)
      modifies this`remaining, this`expectedLengthBad, this`reports
      ensures reports == old(reports) + [Report(n, err)]
      ensures CountAll(contentLength, reports) == Count(remaining, expectedLengthBad, complete || lands)
      ensures Total(reports) == Total(old(reports)) + n
      ensures lands ==> Total(reports) == contentLength
    {
      CountSnoc(contentLength, reports, Report(n, err));
      reports := reports + [Report(n, err)];
      if expectedLengthBad {
        return false;
      }
      if n > remaining {
        expectedLengthBad := true;
        return false;
      }
      remaining := remaining - n;
      if remaining == 0 && (err == NoError || err == EOF) {
        return true;
      }
      if err == EOF {
        expectedLengthBad := true;
      }
      return false;
    }

    /** Known-length mode, after `out` has been shown: count it off, finish on landing exactly. */
    method ObserveExpectedLength(out: Bytes, err: ReadError, ghost before: Bytes)
      requires observer.Valid() && !hasLookahead && !observer.cfg.streaming && 0 <= contentLength
      requires CountAll(contentLength, reports) == Count(remaining, expectedLengthBad, observer.finished)
      requires Total(reports) == |before| && delivered == before + out
      requires !observer.finished ==> observer.Parsed() == Progress()
      requires observer.finished ==>
                 contentLength <= |before|
                 && observer.Parsed() == Absorb(observer.cfg, Start(observer.cfg), before[..contentLength])
      modifies this`remaining, this`expectedLengthBad, this`reports, observer
      ensures observer.Valid() && EndsAtLength() && (!observer.finished ==> observer.Parsed() == Progress())
      ensures reports == old(reports) + [Report(|out|, err)]
    {
      KeepPrefix(before, out, contentLength);
      var lands := CountOff(|out|, err, observer.finished);
      if lands {
        observer.Finish();
      }
    }

    /** Known-length mode, after `out` has been shown. */
    method SenseLength(out: Bytes, err: ReadError, ghost before: Bytes)
      requires hasExpectedLength && Transparent() && observer.Valid()
      requires !hasLookahead && !observer.cfg.streaming && 0 <= contentLength
      requires CountAll(contentLength, reports) == Count(remaining, expectedLengthBad, observer.finished)
      requires Total(reports) == |before| && delivered == before + out
      requires !observer.finished ==> observer.Parsed() == Progress()
      requires observer.finished ==>
                 contentLength <= |before|
                 && observer.Parsed() == Absorb(observer.cfg, Start(observer.cfg), before[..contentLength])
      modifies this`remaining, this`expectedLengthBad, this`reports, this`sawEOF, observer
      ensures Valid() && sawEOF == (old(sawEOF) || err == EOF)
      ensures reports == old(reports) + [Report(|out|, err)]
    {
      sawEOF := sawEOF || err == EOF;
      ObserveExpectedLength(out, err, before);
    }

    /** A `[DONE]` settles the outcome of the whole body. */
    lemma DoneSettles()
      requires Transparent() && IsDone(Progress())
      ensures Close(observer.cfg, Absorb(observer.cfg, Start(observer.cfg), whole)) == Progress()
    {
      var cfg := observer.cfg;
      AbsorbAppend(cfg, Start(cfg), delivered, Pending(input));
      AbsorbDone(cfg, Progress(), Pending(input));
    }

    /** Plain and lookahead modes, after `out` has been shown: finish on EOF, or on seeing EOF next. */
    method SenseEnd(out: Bytes, err: ReadError, ghost before: Bytes)
      requires !hasExpectedLength && Transparent() && observer.Valid() && delivered == before + out
      requires err == NoError || (err == final && delivered == whole)
      requires !observer.finished ==> observer.Parsed() == Progress()
      requires observer.finished ==>
                 observer.Parsed() == Close(observer.cfg, Absorb(observer.cfg, Start(observer.cfg), whole))
      requires !hasLookahead ==>
                 (observer.finished <==> sawEOF || (IsDone(Progress()) && observer.cfg.FinishesAtDone()))
      requires hasLookahead ==>
                 && !observer.cfg.streaming
                 && (observer.finished ==> final == EOF && delivered == whole)
                 && (sawEOF ==> observer.finished)
                 && (lively ==> (observer.finished <==> final == EOF && before == whole && (whole != [] || sawEOF)))
      modifies this`input, this`sawEOF, observer
      ensures Valid() && Fuel() <= old(Fuel()) && sawEOF == (old(sawEOF) || err == EOF)
      ensures hasLookahead ==>
                (observer.finished <==>
                   || old(observer.finished)
                   || err == EOF
                   || (err == NoError && out != [] && final == EOF && delivered == whole
                       && (old(input).err != NoError || Stalls(old(input).src) < 100)))
    {
      sawEOF := sawEOF || err == EOF;
      if err == EOF {
        observer.Finish();
      } else if err == NoError && |out| > 0 && hasLookahead {
        var peekErr := PeekInput();
        if peekErr == EOF {
          observer.Finish();
        }
      }
    }

    /** io.Reader.Read: passes the bytes through unchanged and, inside this very call, ends the
        observation if the mode can tell that the body is over. */
    method Read(limit: nat) returns (out: Bytes, err: ReadError)
      requires Valid()
      modifies this, observer
      ensures Valid() && delivered == old(delivered) + out && |out| <= limit
      ensures err == NoError || (err == final && delivered == whole)
      ensures limit > 0 && err == NoError ==> Fuel() < old(Fuel())
      ensures sawEOF == (old(sawEOF) || err == EOF)
      ensures hasExpectedLength ==> reports == old(reports) + [Report(|out|, err)]
      ensures hasLookahead ==>
                var read := BufRead(old(input), limit).next;
                (observer.finished <==>
                   || old(observer.finished)
                   || err == EOF
                   || (err == NoError && out != [] && final == EOF && delivered == whole
                       && (read.err != NoError || Stalls(read.src) < 100)))
    {
      ghost var before := delivered;
      out, err := ReadInput(limit);
      Show(out, before);
      if hasExpectedLength {
        SenseLength(out, err, before);
      } else {
        AbsorbDoneAppend(observer.cfg, before, out);
        if IsDone(Progress()) {
          DoneSettles();
        }
        SenseEnd(out, err, before);
      }
    }
  }

  lemma Regroup(a: Bytes, b: Bytes, c: Bytes)
    ensures a + (b + c) == (a + b) + c
  {
  }

  lemma KeepPrefix(before: Bytes, out: Bytes, n: int)
    requires 0 <= n
    ensures n <= |before| ==> (before + out)[..n] == before[..n]
    ensures n == |before + out| ==> (before + out)[..n] == before + out
  {
  }

  lemma AbsorbDoneAppend(cfg: Config, a: Bytes, b: Bytes)
    ensures IsDone(Absorb(cfg, Start(cfg), a)) ==> IsDone(Absorb(cfg, Start(cfg), a + b))
  {
    AbsorbBounded(cfg, Start(cfg), a);
    AbsorbAppend(cfg, Start(cfg), a, b);
    AbsorbDoneStays(cfg, Absorb(cfg, Start(cfg), a), b);
  }

  /** All three modes, one promise: for any cutting of the body by the source and any positive buffer
      sizes of the caller, reading to the end delivers the body itself, and if it ended in EOF (with
      the right length, where one was announced) the notifications are those of the body. With a wrong
      length, they are those of the first contentLength bytes if some read landed exactly there, and
      none otherwise, so never any for a truncated body. */
  method ReadAll(body: CompletionUsageBody, sizes: nat -> nat) returns (all: Bytes, err: ReadError)
    requires body.Valid() && body.delivered == [] && !body.observer.finished && !body.sawEOF
    requires body.hasExpectedLength ==> body.reports == []
    requires forall i :: sizes(i) > 0
    modifies body, body.observer
    ensures body.Valid() && all == body.whole && err == body.final
    ensures err == EOF && (body.hasExpectedLength ==> body.contentLength == |body.whole|) ==>
              body.observer.finished && body.observer.log == BodyLog(body.observer.cfg, body.whole)
    ensures body.hasExpectedLength ==>
              (body.observer.finished <==> Completes(body.contentLength, body.reports))
    ensures body.hasExpectedLength ==>
              body.observer.log ==
              if body.observer.finished && body.contentLength <= |body.whole|
              then BodyLog(body.observer.cfg, body.whole[..body.contentLength]) else []
    ensures body.hasExpectedLength && body.contentLength > |body.whole| ==>
              !body.observer.finished && body.observer.log == []
    ensures err == Failure && !body.hasExpectedLength && !body.observer.cfg.streaming ==> body.observer.log == []
  {
    all, err := [], NoError;
    var i := 0;
    while err == NoError
      invariant body.Valid() && body.delivered == all
      invariant err == NoError || (err == body.final && all == body.whole)
      invariant body.sawEOF == (err == EOF)
      invariant body.hasExpectedLength && body.contentLength == |body.whole| ==>
                  !body.expectedLengthBad && (err == EOF ==> body.observer.finished)
      decreases if err == NoError then 1 else 0, body.Fuel()
    {
      ghost var sofar := body.reports;
      var out;
      out, err := body.Read(sizes(i));
      all, i := all + out, i + 1;
      if body.hasExpectedLength {
        assert |body.delivered| <= |body.whole|;
        CountSnoc(body.contentLength, sofar, Report(|out|, err));
      }
    }
    CloseMeaning(body.observer.cfg, body.whole);
    if body.hasExpectedLength {
      CountExact(body.contentLength, body.reports);
      if body.contentLength <= |body.whole| {
        CloseMeaning(body.observer.cfg, body.whole[..body.contentLength]);
      }
      if body.contentLength == |body.whole| {
        assert all[..body.contentLength] == all;
      }
    }
  }

  method ObserveWhole(src: Source, cfg: Config, contentLength: int, sizes: nat -> nat)
    returns (all: Bytes, ghost log: seq<Notice>)
    requires Honest(src) && src.final == EOF
    requires !cfg.streaming && cfg.hasTerminal && contentLength >= 0 ==> contentLength == |src.rest|
    requires forall i :: sizes(i) > 0
    ensures all == src.rest && log == BodyLog(cfg, src.rest)
  {
    var body := new CompletionUsageBody(src, cfg, contentLength);
    var err;
    all, err := ReadAll(body, sizes);
    log := body.observer.log;
  }

  lemma TerminalComesLast(cfg: Config, s: Bytes)
    requires !cfg.streaming && cfg.hasTerminal
    ensures BodyLog(cfg, s) == BodyLog(cfg.(hasTerminal := false), s) + [TerminalNotice]
  {
    assert BodyVerdict(cfg, s) == BodyVerdict(cfg.(hasTerminal := false), s);
  }

  /** Plain EOF, lookahead and known length on one document: whatever sources deliver it and however
      it is read, all three pass it on unchanged and report the same usage and evidence; the two that
      notify a terminal add just that. */
  method ModesAgree(plain: Source, ahead: Source, known: Source, cfg: Config, sizes: nat -> nat)
    returns (a: Bytes, b: Bytes, c: Bytes,
             ghost plainLog: seq<Notice>, ghost aheadLog: seq<Notice>, ghost knownLog: seq<Notice>)
    requires Honest(plain) && Honest(ahead) && Honest(known)
    requires plain.rest == ahead.rest == known.rest && plain.final == ahead.final == known.final == EOF
    requires !cfg.streaming && cfg.hasTerminal
    requires forall i :: sizes(i) > 0
    ensures a == b == c == plain.rest
    ensures plainLog == BodyLog(cfg.(hasTerminal := false), plain.rest)
    ensures aheadLog == knownLog == plainLog + [TerminalNotice]
  {
    a, plainLog := ObserveWhole(plain, cfg.(hasTerminal := false), -1, sizes);
    b, aheadLog := ObserveWhole(ahead, cfg, -1, sizes);
    c, knownLog := ObserveWhole(known, cfg, |known.rest|, sizes);
    TerminalComesLast(cfg, plain.rest);
  }
}
