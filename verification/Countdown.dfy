/** The content-length countdown: when it declares the body complete. */
module Countdown {
  import opened Readers

  /** What one Read reported to the countdown. */
  datatype Report = Report(n: nat, err: ReadError)

  datatype Count = Count(remaining: int, bad: bool, complete: bool)

  function CountStep(c: Count, report: Report): Count {
    if c.bad then c
    else if report.n > c.remaining then c.(bad := true)
    else
      var left := c.remaining - report.n;
      if left == 0 && (report.err == NoError || report.err == EOF) then c.(remaining := left, complete := true)
      else c.(remaining := left, bad := report.err == EOF)
  }

  function CountAll(contentLength: int, reports: seq<Report>): Count {
    if reports == [] then Count(contentLength, false, false)
    else CountStep(CountAll(contentLength, reports[..|reports| - 1]), reports[|reports| - 1])
  }

  function Total(reports: seq<Report>): nat {
    if reports == [] then 0 else Total(reports[..|reports| - 1]) + reports[|reports| - 1].n
  }

  /** Report `i` arrives with the running total exactly at the length and no real error. */
  ghost predicate Lands(contentLength: int, reports: seq<Report>, i: nat)
    requires i < |reports|
  {
    && Total(reports[..i + 1]) == contentLength
    && (reports[i].err == NoError || reports[i].err == EOF)
  }

  /** Report `i` rules the body out: past the length, or at EOF short of it. */
  ghost predicate Spoils(contentLength: int, reports: seq<Report>, i: nat)
    requires i < |reports|
  {
    || Total(reports[..i + 1]) > contentLength
    || (reports[i].err == EOF && Total(reports[..i + 1]) < contentLength)
  }

  /** Nothing among the first `i` reports rules the body out. */
  ghost predicate Clean(contentLength: int, reports: seq<Report>, i: nat)
    requires i <= |reports|
  {
    forall j | 0 <= j < i :: !Spoils(contentLength, reports, j)
  }

  ghost predicate Completes(contentLength: int, reports: seq<Report>) {
    exists i | 0 <= i < |reports| :: Lands(contentLength, reports, i) && Clean(contentLength, reports, i)
  }

  ghost predicate Spoiled(contentLength: int, reports: seq<Report>) {
    !Clean(contentLength, reports, |reports|)
  }

  /** A later report does not change what the earlier ones were. */
  lemma EarlierReports(contentLength: int, init: seq<Report>, last: Report, i: nat)
    requires i < |init|
    ensures Lands(contentLength, init + [last], i) == Lands(contentLength, init, i)
    ensures Spoils(contentLength, init + [last], i) == Spoils(contentLength, init, i)
  {
    assert (init + [last])[..i + 1] == init[..i + 1];
  }

  lemma CleanSnoc(contentLength: int, init: seq<Report>, last: Report, i: nat)
    requires i <= |init|
    ensures Clean(contentLength, init + [last], i) == Clean(contentLength, init, i)
  {
    forall j | 0 <= j < i
      ensures Spoils(contentLength, init + [last], j) == Spoils(contentLength, init, j)
    {
      EarlierReports(contentLength, init, last, j);
    }
  }

  lemma CompletesSnoc(contentLength: int, init: seq<Report>, last: Report)
    ensures Completes(contentLength, init + [last]) <==>
            || Completes(contentLength, init)
            || (Lands(contentLength, init + [last], |init|) && !Spoiled(contentLength, init))
  {
    var reports := init + [last];
    CleanSnoc(contentLength, init, last, |init|);
    if Completes(contentLength, init) {
      var i :| 0 <= i < |init| && Lands(contentLength, init, i) && Clean(contentLength, init, i);
      EarlierReports(contentLength, init, last, i);
      CleanSnoc(contentLength, init, last, i);
      assert Lands(contentLength, reports, i);
    }
    if Completes(contentLength, reports) {
      var i :| 0 <= i < |reports| && Lands(contentLength, reports, i) && Clean(contentLength, reports, i);
      if i < |init| {
        EarlierReports(contentLength, init, last, i);
        CleanSnoc(contentLength, init, last, i);
        assert Lands(contentLength, init, i);
      }
    }
  }

  /** The countdown's three fields mean what they say, for every sequence of reads: it completes just
      when some read lands exactly on the length with nothing spoiled before; it is bad just when some
      read spoiled it; and until then `remaining` is what is left, never negative. */
  lemma {:induction false} CountExact(contentLength: int, reports: seq<Report>)
    requires contentLength >= 0
    ensures var c := CountAll(contentLength, reports);
            && c.complete == Completes(contentLength, reports)
            && c.bad == Spoiled(contentLength, reports)
            && (!c.bad ==> c.remaining == contentLength - Total(reports) >= 0)
    decreases |reports|
  {
    if reports != [] {
      CountExact(contentLength, reports[..|reports| - 1]);
      var init, last := reports[..|reports| - 1], reports[|reports| - 1];
      assert reports == init + [last];
      CleanSnoc(contentLength, init, last, |init|);
      CompletesSnoc(contentLength, init, last);
      assert reports[..|init| + 1] == reports;
      assert Spoiled(contentLength, reports) <==>
             Spoiled(contentLength, init) || Spoils(contentLength, reports, |init|);
    }
  }

  /** One more report, one more step; while nothing is spoiled, `remaining` is what is left. */
  lemma CountSnoc(contentLength: int, reports: seq<Report>, report: Report)
    requires contentLength >= 0
    ensures CountAll(contentLength, reports + [report]) == CountStep(CountAll(contentLength, reports), report)
    ensures Total(reports + [report]) == Total(reports) + report.n
    ensures var c := CountAll(contentLength, reports); !c.bad ==> c.remaining == contentLength - Total(reports) >= 0
  {
    assert (reports + [report])[..|reports|] == reports;
    CountExact(contentLength, reports);
  }
}
