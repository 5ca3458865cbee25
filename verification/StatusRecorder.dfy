/** The status recorder as a machine over the calls made on it, sections 15.2 and 15.2.2 of RFC 9110. */
module StatusRecorder {
  import opened Common

  /** A Write, Flush or ReadFrom is one thing to the recorder: the body has begun. */
  datatype Call = WriteHeader(status: int) | BodyCall

  type Instant = nat

  predicate IsInformational(status: int) {
    100 <= status < 200 && status != 101
  }

  /** The status a call settles, zero if it settles none. */
  function Settles(call: Call): int {
    if call.BodyCall? then 200 else if IsInformational(call.status) then 0 else call.status
  }

  /** The response's final status: the first that any call settles, zero before that. */
  function FinalStatus(calls: seq<Call>): int {
    if calls == [] then 0
    else if Settles(calls[0]) != 0 then Settles(calls[0])
    else FinalStatus(calls[1..])
  }

  /** `call` settles the response with `status`: a body call with 200, a header with its own code unless
      that is an interim one, 100 to 199 but for 101. */
  ghost predicate SettlesWith(call: Call, status: int) {
    && status != 0
    && (|| (call == BodyCall && status == 200)
        || (call == WriteHeader(status) && (status == 101 || !(100 <= status <= 199))))
  }

  /** The first call that settles the response decides its status; zero if none does. */
  lemma {:induction false} FinalStatusMeaning(calls: seq<Call>, status: int)
    requires status != 0
    ensures FinalStatus(calls) == status <==>
            exists i :: 0 <= i < |calls| && SettlesWith(calls[i], status)
              && forall j, other :: 0 <= j < i ==> !SettlesWith(calls[j], other)
    decreases |calls|
  {
    if calls != [] {
      var rest := calls[1..];
      FinalStatusMeaning(rest, status);
      assert forall i :: 1 <= i < |calls| ==> calls[i] == rest[i - 1];
      assert forall other :: SettlesWith(calls[0], other) <==> Settles(calls[0]) == other != 0;
      if FinalStatus(calls) == status {
        if Settles(calls[0]) != 0 {
          assert SettlesWith(calls[0], status);
        } else {
          var i :| 0 <= i < |rest| && SettlesWith(rest[i], status)
                     && forall j, other :: 0 <= j < i ==> !SettlesWith(rest[j], other);
          assert SettlesWith(calls[i + 1], status);
        }
      }
      if i :| 0 <= i < |calls| && SettlesWith(calls[i], status)
                && forall j, other :: 0 <= j < i ==> !SettlesWith(calls[j], other) {
        if i > 0 {
          assert !SettlesWith(calls[0], Settles(calls[0]));
          assert SettlesWith(rest[i - 1], status);
          assert forall j, other :: 0 <= j < i - 1 ==> !SettlesWith(rest[j], other) by {
            assert forall j :: 0 <= j < i - 1 ==> rest[j] == calls[j + 1];
          }
        }
      }
    }
  }

  lemma {:induction false} FinalStatusSnoc(calls: seq<Call>, call: Call)
    ensures FinalStatus(calls + [call]) == if FinalStatus(calls) != 0 then FinalStatus(calls) else Settles(call)
    decreases |calls|
  {
    if calls == [] {
      assert calls + [call] == [call] && [call][1..] == [];
    } else {
      assert (calls + [call])[1..] == calls[1..] + [call];
      FinalStatusSnoc(calls[1..], call);
    }
  }

  /** Once settled, a status is final: no later call changes it. */
  lemma {:induction false} FinalStatusStable(calls: seq<Call>, more: seq<Call>)
    requires FinalStatus(calls) != 0
    ensures FinalStatus(calls + more) == FinalStatus(calls)
    decreases |more|
  {
    if more == [] {
      assert calls + more == calls;
    } else {
      assert calls + more == (calls + [more[0]]) + more[1..];
      FinalStatusSnoc(calls, more[0]);
      FinalStatusStable(calls + [more[0]], more[1..]);
    }
  }

  predicate IsInterim(call: Call) {
    call.WriteHeader? && IsInformational(call.status)
  }

  /** Something beyond interim responses has been sent. */
  predicate HeaderSent(calls: seq<Call>) {
    exists call | call in calls :: !IsInterim(call)
  }

  lemma HeaderSentSnoc(calls: seq<Call>, call: Call)
    ensures HeaderSent(calls + [call]) <==> HeaderSent(calls) || !IsInterim(call)
  {
    assert call in calls + [call];
    assert forall c :: c in calls ==> c in calls + [call];
  }

  class StatusRecorder {
    var status: int
    var headerAt: Option<Instant>
    var firstWriteAt: Option<Instant>

    ghost var calls: seq<Call>
    /** The latest clock reading taken. */
    ghost var now: Instant

    /** The recorded status is the trace's, and a first write never precedes the header. */
    ghost predicate Valid()
      reads this
    {
      && status == FinalStatus(calls)
      && (status != 0 ==> headerAt.Some?)
      && (headerAt.Some? <==> HeaderSent(calls))
      && (firstWriteAt.Some? ==> status != 0 && headerAt.value <= firstWriteAt.value <= now)
      && (headerAt.Some? ==> headerAt.value <= now)
      && (firstWriteAt.Some? <==> BodyCall in calls)
    }

    constructor ()
      ensures Valid() && calls == []
    {
      status, headerAt, firstWriteAt := 0, None, None;
      calls, now := [], 0;
    }

    method MarkHeader(code: int, at: Instant)
      requires now <= at
      modifies this`status, this`headerAt, this`now
      ensures now == at
      ensures status == if IsInformational(code) || old(status) != 0 then old(status) else code
      ensures headerAt == if IsInformational(code) || old(headerAt).Some? then old(headerAt) else Some(at)
    {
      now := at;
      if 100 <= code && code < 200 && code != 101 {
        return;
      }
      if status == 0 {
        status := code;
      }
      if headerAt.None? {
        headerAt := Some(at);
      }
    }

    method WriteHeader(code: int, at: Instant)
      requires Valid() && now <= at
      modifies this
      ensures Valid() && calls == old(calls) + [Call.WriteHeader(code)]
    {
      MarkHeader(code, at);
      FinalStatusSnoc(calls, Call.WriteHeader(code));
      HeaderSentSnoc(calls, Call.WriteHeader(code));
      calls := calls + [Call.WriteHeader(code)];
    }

    /** Write, Flush and ReadFrom up to the point where they hand over to the underlying writer. */
    method BeginBody(headerTime: Instant, writeTime: Instant)
      requires Valid() && now <= headerTime <= writeTime
      modifies this
      ensures Valid() && calls == old(calls) + [BodyCall]
      ensures firstWriteAt == if old(firstWriteAt).Some? then old(firstWriteAt) else Some(writeTime)
    {
      if status == 0 {
        MarkHeader(200, headerTime);
      }
      if firstWriteAt.None? {
        firstWriteAt := Some(writeTime);
      }
      now := writeTime;
      FinalStatusSnoc(calls, BodyCall);
      HeaderSentSnoc(calls, BodyCall);
      calls := calls + [BodyCall];
    }

    method StatusOrOK() returns (code: int)
      requires Valid()
      ensures code == if FinalStatus(calls) == 0 then 200 else FinalStatus(calls)
    {
      if status == 0 {
        return 200;
      }
      return status;
    }

    /** The first body operation, failing that the final header; nothing for 1xx alone. */
    method FirstByteSince(started: Instant) returns (elapsed: Option<int>)
      requires Valid()
      ensures elapsed.Some? <==> HeaderSent(calls)
      ensures BodyCall in calls ==> firstWriteAt.Some? && elapsed == Some(firstWriteAt.value - started)
      ensures BodyCall !in calls && elapsed.Some? ==> headerAt.Some? && elapsed.value == headerAt.value - started
      ensures elapsed.Some? ==> headerAt.Some? && elapsed.value >= headerAt.value - started
    {
      if firstWriteAt.Some? {
        return Some(firstWriteAt.value - started);
      }
      if headerAt.Some? {
        return Some(headerAt.value - started);
      }
      return None;
    }
  }
}
