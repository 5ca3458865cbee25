/** The handler's counters under every interleaving of concurrent requests: each atomic add, each
    entry and each exit is a step of its own. */
module ProxyAccounting {
  import opened Proxy

  type Id = nat

  /** Where one request is. `failed`: the proxy's error handler has run for it and `unavailable` was
      counted; `handled`: it has run at all. */
  datatype Phase =
    | Arrived(admitted: bool)
    | Entering
    | Proxying(handled: bool, failed: bool)
    | Left(failed: bool)
    | Refused

  datatype Counters = Counters(inflight: int, forwarded: int, unavailable: int, requests: map<Id, Phase>)

  datatype Step =
    | Arrive(id: Id, request: Inbound)
    | Refuse(id: Id)
    | AddInflight(id: Id)
    | AddForwarded(id: Id)
    | ErrorHandler(id: Id, canceled: bool)
    | Leave(id: Id, panicking: bool)

  const IDLE := Counters(0, 0, 0, map[])

  predicate Enabled(s: Counters, step: Step) {
    match step
    case Arrive(id, _) => id !in s.requests
    case Refuse(id) => id in s.requests && s.requests[id] == Arrived(false)
    case AddInflight(id) => id in s.requests && s.requests[id] == Arrived(true)
    case AddForwarded(id) => id in s.requests && s.requests[id].Entering?
    case ErrorHandler(id, _) => id in s.requests && s.requests[id].Proxying? && !s.requests[id].handled
    case Leave(id, _) => id in s.requests && s.requests[id].Proxying?
  }

  /** The deferred decrement runs however the proxy returns, panic included. */
  function Next(token: string, s: Counters, step: Step): Counters
    requires Enabled(s, step)
  {
    match step
    case Arrive(id, request) => s.(requests := s.requests[id := Arrived(Route(request, token).Forward?)])
    case Refuse(id) => s.(requests := s.requests[id := Refused])
    case AddInflight(id) => s.(inflight := s.inflight + 1, requests := s.requests[id := Entering])
    case AddForwarded(id) => s.(forwarded := s.forwarded + 1, requests := s.requests[id := Proxying(false, false)])
    case ErrorHandler(id, canceled) =>
      s.(unavailable := s.unavailable + (if canceled then 0 else 1),
         requests := s.requests[id := Proxying(true, !canceled)])
    case Leave(id, _) =>
      s.(inflight := s.inflight - 1, requests := s.requests[id := Left(s.requests[id].failed)])
  }

  ghost predicate IsRun(token: string, s: Counters, steps: seq<Step>)
    decreases |steps|
  {
    steps == [] || (Enabled(s, steps[0]) && IsRun(token, Next(token, s, steps[0]), steps[1..]))
  }

  ghost function After(token: string, s: Counters, steps: seq<Step>): Counters
    requires IsRun(token, s, steps)
    decreases |steps|
  {
    if steps == [] then s else After(token, Next(token, s, steps[0]), steps[1..])
  }

  ghost function Having(s: map<Id, Phase>, p: Phase -> bool): set<Id> {
    set id | id in s && p(s[id])
  }

  ghost predicate Inside(p: Phase) {
    p.Entering? || p.Proxying?
  }

  ghost predicate Passed(p: Phase) {
    p.Proxying? || p.Left?
  }

  ghost predicate Failed(p: Phase) {
    (p.Proxying? || p.Left?) && p.failed
  }

  /** Each counter is the number of requests in the matching phases. */
  ghost predicate Balanced(s: Counters) {
    && s.inflight == |Having(s.requests, Inside)|
    && s.forwarded == |Having(s.requests, Passed)|
    && s.unavailable == |Having(s.requests, Failed)|
    && (forall id :: id in s.requests && s.requests[id].Proxying? && s.requests[id].failed ==> s.requests[id].handled)
  }

  lemma HavingUpdate(s: map<Id, Phase>, p: Phase -> bool, id: Id, phase: Phase)
    ensures |Having(s[id := phase], p)|
         == |Having(s, p)| - (if id in s && p(s[id]) then 1 else 0) + (if p(phase) then 1 else 0)
  {
    var others := Having(s, p) - {id};
    assert Having(s[id := phase], p) == if p(phase) then others + {id} else others;
    assert Having(s, p) == if id in s && p(s[id]) then others + {id} else others;
  }

  lemma StepBalanced(token: string, s: Counters, step: Step)
    requires Balanced(s) && Enabled(s, step)
    ensures Balanced(Next(token, s, step))
  {
    var next := Next(token, s, step);
    var phase := next.requests[step.id];
    assert next.requests == s.requests[step.id := phase];
    HavingUpdate(s.requests, Inside, step.id, phase);
    HavingUpdate(s.requests, Passed, step.id, phase);
    HavingUpdate(s.requests, Failed, step.id, phase);
  }

  lemma {:induction false} RunBalanced(token: string, s: Counters, steps: seq<Step>)
    requires Balanced(s) && IsRun(token, s, steps)
    ensures Balanced(After(token, s, steps))
    decreases |steps|
  {
    if steps != [] {
      StepBalanced(token, s, steps[0]);
      RunBalanced(token, Next(token, s, steps[0]), steps[1..]);
    }
  }

  /** The requests of a run that admission accepts. */
  ghost function Accepted(token: string, steps: seq<Step>): set<Id> {
    if steps == [] then {}
    else (if steps[0].Arrive? && Route(steps[0].request, token).Forward? then {steps[0].id} else {})
         + Accepted(token, steps[1..])
  }

  ghost predicate WasAdmitted(p: Phase) {
    p == Arrived(true) || p.Entering? || p.Proxying? || p.Left?
  }

  lemma {:induction false} AdmittedAreAccepted(token: string, s: Counters, steps: seq<Step>)
    requires IsRun(token, s, steps)
    ensures Having(After(token, s, steps).requests, WasAdmitted)
         == Having(s.requests, WasAdmitted) + Accepted(token, steps)
    decreases |steps|
  {
    if steps != [] {
      AdmittedAreAccepted(token, Next(token, s, steps[0]), steps[1..]);
    }
  }

  /** Runs of the error handler that were not for a canceled request. */
  ghost function Failures(steps: seq<Step>): nat {
    if steps == [] then 0
    else (if steps[0].ErrorHandler? && !steps[0].canceled then 1 else 0) + Failures(steps[1..])
  }

  ghost function Forwards(steps: seq<Step>): nat {
    if steps == [] then 0 else (if steps[0].AddForwarded? then 1 else 0) + Forwards(steps[1..])
  }

  lemma {:induction false} CountersCountSteps(token: string, s: Counters, steps: seq<Step>)
    requires IsRun(token, s, steps)
    ensures After(token, s, steps).unavailable == s.unavailable + Failures(steps)
    ensures After(token, s, steps).forwarded == s.forwarded + Forwards(steps)
    decreases |steps|
  {
    if steps != [] {
      CountersCountSteps(token, Next(token, s, steps[0]), steps[1..]);
    }
  }

  ghost predicate Quiescent(s: Counters) {
    forall id :: id in s.requests ==> s.requests[id].Left? || s.requests[id].Refused?
  }

  /** After any run: nothing negative, no more failures than forwards; and once every request has
      left, nothing is in flight and what was forwarded is exactly what admission accepted. */
  lemma AccountsAddUp(token: string, steps: seq<Step>)
    requires IsRun(token, IDLE, steps)
    ensures var s := After(token, IDLE, steps);
            && Balanced(s)
            && 0 <= s.inflight && 0 <= s.unavailable <= s.forwarded
            && s.unavailable == Failures(steps) && s.forwarded == Forwards(steps)
            && (Quiescent(s) ==> s.inflight == 0 && s.forwarded == |Accepted(token, steps)|)
  {
    var s := After(token, IDLE, steps);
    assert Having(IDLE.requests, Inside) == {};
    assert Having(IDLE.requests, Passed) == {} && Having(IDLE.requests, Failed) == {};
    RunBalanced(token, IDLE, steps);
    CountersCountSteps(token, IDLE, steps);
    assert Having(s.requests, Failed) <= Having(s.requests, Passed);
    SubsetSize(Having(s.requests, Failed), Having(s.requests, Passed));
    AdmittedAreAccepted(token, IDLE, steps);
    if Quiescent(s) {
      assert Having(s.requests, Inside) == {};
      assert Having(s.requests, Passed) == Having(s.requests, WasAdmitted);
      assert Having(IDLE.requests, WasAdmitted) == {};
    }
  }

  lemma {:induction false} SubsetSize(a: set<Id>, b: set<Id>)
    requires a <= b
    ensures |a| <= |b|
    decreases |a|
  {
    if a != {} {
      var x :| x in a;
      SubsetSize(a - {x}, b - {x});
    }
  }
}
