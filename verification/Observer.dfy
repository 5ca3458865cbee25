/** CompletionUsageObserver as the source has it: one object, updated in place, whose callbacks may
    call straight back into it. */
module Observer {
  import opened ByteStrings
  import opened Common
  import opened UsageDecoding
  import opened EventStream
  import opened Refinement
  import opened Observation

  /** The capacity loop of observeJSON: doubling, clamped at MAX_JSON. */
  method GrownCapacity(current: nat, required: nat) returns (capacity: nat)
    requires current < required <= MAX_JSON
    ensures required <= capacity <= MAX_JSON
    ensures 2 * current <= capacity || capacity == MAX_JSON
    ensures capacity < 2 * required
  {
    capacity := current;
    if capacity == 0 {
      capacity := 1;
    }
    while capacity < required
      invariant 1 <= capacity <= MAX_JSON
      invariant capacity < 2 * required
      invariant
        || capacity == current
        || (current == 0 && capacity == 1)
        || 2 * current <= capacity
        || capacity == MAX_JSON
    {
      if capacity >= MAX_JSON / 2 {
        capacity := MAX_JSON;
        break;
      }
      capacity := capacity * 2;
    }
  }

  class CompletionUsageObserver {
    const cfg: Config

    var finished: bool
    var terminalSeen: bool
    var terminalNotified: bool
    var evidenceNotified: bool

    var candidate: Usage
    var candidateValid: bool
    var candidateInvalid: bool

    // The slice jsonBody: its contents and its capacity.
    var jsonBody: Bytes
    var jsonCap: nat
    var jsonLimited: bool

    var line: Bytes
    var eventData: Bytes
    var eventLimited: bool
    var eventHasData: bool

    /** Every callback invocation, in order. */
    ghost var log: seq<Notice>
    /** A nested Finish has returned while some notification was still owed. */
    ghost var earlyReturn: bool
    /** Bytes taken into jsonBody, and bytes moved by its reallocations. */
    ghost var accepted: nat
    ghost var copied: nat

    ghost function Parsed(): Parse
      reads this
    {
      if cfg.streaming then
        Events(Stream(line, eventData, eventLimited, eventHasData,
                      if candidateValid then Some(candidate) else None, candidateInvalid, terminalSeen))
      else
        Document(jsonBody, jsonLimited)
    }

    ghost function State(): Machine
      reads this
    {
      Machine(Parsed(), finished)
    }

    /** The fixed-memory and amortised-growth invariant of the JSON buffer. */
    ghost predicate Frugal()
      reads this
    {
      && |jsonBody| <= jsonCap <= MAX_JSON
      && copied <= 2 * accepted
      && (!jsonLimited ==> accepted == |jsonBody| && (jsonCap < MAX_JSON ==> copied <= jsonCap))
    }

    ghost predicate Sound()
      reads this
    {
      if cfg.streaming then
        Bounded(Parsed().stream) && (candidateValid ==> Trustworthy(candidate))
      else
        !terminalSeen && Frugal()
    }

    /** No call is in progress, or only the `[DONE]` notification is. */
    ghost predicate Valid()
      reads this
    {
      && Sound()
      && terminalNotified == (finished || terminalSeen)
      && evidenceNotified == finished
      && log == LogOf(cfg, Parsed(), finished)
      && earlyReturn == (finished && EarlyReturn(cfg, Parsed()))
    }

    /** What calls made from inside a closing callback leave alone. */
    ghost function Frozen(): (Parse, bool, bool, Usage, nat, nat, nat)
      reads this
    {
      (Parsed(), finished, terminalSeen, candidate, jsonCap, accepted, copied)
    }

    ghost function Rank(): nat
      reads this
    {
      (if finished then 0 else 2) + (if terminalSeen then 0 else 1)
    }

    constructor (cfg: Config, preallocated: nat)
      requires preallocated <= MAX_JSON
      ensures this.cfg == cfg
      ensures Valid() && State() == Machine(Start(cfg), false)
    {
      this.cfg := cfg;
      finished, terminalSeen, terminalNotified, evidenceNotified := false, false, false, false;
      candidate, candidateValid, candidateInvalid := Usage(0, 0, 0, 0), false, false;
      jsonBody, jsonCap, jsonLimited := [], preallocated, false;
      line, eventData, eventLimited, eventHasData := [], [], false, false;
      log, earlyReturn, accepted, copied := [], false, 0, 0;
    }

    /** The calls a callback makes before it returns. */
    method React(calls: seq<Call>)
      requires finished || (terminalSeen && Valid())
      modifies this
      ensures old(finished) ==> Frozen() == old(Frozen()) && log == old(log)
      ensures old(finished) ==> terminalNotified == old(terminalNotified) && evidenceNotified == old(evidenceNotified)
      ensures old(finished) ==>
                earlyReturn == (old(earlyReturn) || (FinishCall in calls && log != LogOf(cfg, Parsed(), true)))
      ensures !old(finished) ==> Valid() && Parsed() == old(Parsed()) && finished == (FinishCall in calls)
      decreases Rank(), 7
    {
      for i := 0 to |calls|
        invariant Rank() <= old(Rank())
        invariant old(finished) ==> Frozen() == old(Frozen()) && log == old(log)
        invariant old(finished) ==>
                    terminalNotified == old(terminalNotified) && evidenceNotified == old(evidenceNotified)
        invariant old(finished) ==>
                    earlyReturn == (old(earlyReturn) || (FinishCall in calls[..i] && log != LogOf(cfg, Parsed(), true)))
        invariant !old(finished) ==> Valid() && Parsed() == old(Parsed()) && finished == (FinishCall in calls[..i])
      {
        assert calls[..i + 1] == calls[..i] + [calls[i]];
        CallBack(calls[i]);
      }
      assert calls[..|calls|] == calls;
    }

    /** One of them. */
    method CallBack(call: Call)
      requires finished || (terminalSeen && Valid())
      modifies this
      ensures Rank() <= old(Rank())
      ensures old(finished) ==> Frozen() == old(Frozen()) && log == old(log)
      ensures old(finished) ==> terminalNotified == old(terminalNotified) && evidenceNotified == old(evidenceNotified)
      ensures old(finished) ==>
                earlyReturn == (old(earlyReturn) || (call.FinishCall? && log != LogOf(cfg, Parsed(), true)))
      ensures !old(finished) ==> Valid() && Parsed() == old(Parsed()) && finished == call.FinishCall?
      decreases Rank(), 6
    {
      if !finished {
        AbsorbAtDone(call);
      }
      match call {
        case ObserveCall(chunk) =>
          Observe(chunk);
        case FinishCall =>
          Finish();
          earlyReturn := earlyReturn || log != LogOf(cfg, Parsed(), true);
      }
    }

    lemma AbsorbAtDone(call: Call)
      requires IsDone(Parsed())
      ensures Close(cfg, Parsed()) == Parsed()
      ensures call.ObserveCall? ==> Absorb(cfg, Parsed(), call.chunk) == Parsed()
    {
      AbsorbDone(cfg, Parsed(), if call.ObserveCall? then call.chunk else []);
    }

    method Emit(usage: Usage)
      requires finished
      modifies this
      ensures Frozen() == old(Frozen())
      ensures terminalNotified == old(terminalNotified) && evidenceNotified == old(evidenceNotified)
      ensures log == if cfg.hasUsage then old(log) + [UsageNotice(usage)] else old(log)
      ensures earlyReturn == (old(earlyReturn) ||
                (cfg.hasUsage && FinishCall in cfg.onUsage && log != LogOf(cfg, Parsed(), true)))
      decreases Rank(), 8
    {
      if !cfg.hasUsage {
        return;
      }
      log := log + [UsageNotice(usage)];
      React(cfg.onUsage);
    }

    method EmitEvidence(evidence: Evidence)
      requires finished && !evidenceNotified
      modifies this
      ensures Frozen() == old(Frozen())
      ensures terminalNotified == old(terminalNotified) && evidenceNotified
      ensures log == if cfg.hasEvidence then old(log) + [EvidenceNotice(evidence)] else old(log)
      ensures earlyReturn == (old(earlyReturn) ||
                (cfg.hasEvidence && FinishCall in cfg.onEvidence && log != LogOf(cfg, Parsed(), true)))
      decreases Rank(), 8
    {
      evidenceNotified := true;
      if cfg.hasEvidence {
        log := log + [EvidenceNotice(evidence)];
        React(cfg.onEvidence);
      }
    }

    /** Fires once; at `[DONE]` it may finish the observer before it returns. */
    method NotifyTerminal()
      requires finished ==> evidenceNotified
      requires finished ==>
                 LogOf(cfg, Parsed(), true) ==
                 if cfg.hasTerminal && !terminalNotified then log + [TerminalNotice] else log
      requires !finished ==>
                 terminalSeen && Sound() && !terminalNotified && !evidenceNotified && log == [] && !earlyReturn
      requires terminalSeen ==> cfg.streaming
      modifies this
      ensures old(finished) ==> Frozen() == old(Frozen()) && earlyReturn == old(earlyReturn)
      ensures old(finished) ==> terminalNotified && evidenceNotified
      ensures old(finished) ==>
                log == if cfg.hasTerminal && !old(terminalNotified) then old(log) + [TerminalNotice] else old(log)
      ensures !old(finished) ==> Valid() && Parsed() == old(Parsed()) && finished == cfg.FinishesAtDone()
      decreases Rank(), 8
    {
      if terminalNotified {
        return;
      }
      terminalNotified := true;
      if cfg.hasTerminal {
        log := log + [TerminalNotice];
        React(cfg.onTerminal);
      }
    }

    /** Reads the pending event's signal into the candidate and clears the event; says if it was `[DONE]`. */
    method SettleEvent() returns (terminal: bool)
      requires cfg.streaming && !terminalSeen && (candidateValid ==> Trustworthy(candidate))
      modifies this`candidate, this`candidateValid, this`candidateInvalid
      modifies this`eventData, this`eventLimited, this`eventHasData
      ensures candidateValid ==> Trustworthy(candidate)
      ensures var st := Dispatch(cfg.Classifier(), old(Parsed()).stream);
              terminal == st.done && Parsed() == Events(st.(done := false))
    {
      terminal := false;
      if !eventLimited && eventHasData {
        var data := TrimSpace(eventData);
        terminal := data == DONE_MARK;
        if |data| > 0 && !terminal && Contains(data, USAGE_KEY) {
          match Decode(cfg.codec, data, true, cfg.format) {
            case Available(usage) =>
              if candidateValid {
                candidateInvalid := true;
              } else {
                candidate := usage;
                candidateValid := true;
              }
            case Malformed =>
              candidateInvalid := true;
            case Unavailable =>
          }
        }
      } else if eventLimited {
        candidateInvalid := true;
      }
      eventData := [];
      eventLimited := false;
      eventHasData := false;
    }

    method FinishSSEEvent()
      requires Valid() && cfg.streaming && !finished && !terminalSeen
      modifies this
      ensures Valid() && Parsed() == Events(Dispatch(cfg.Classifier(), old(Parsed()).stream))
      ensures finished == (terminalSeen && cfg.FinishesAtDone())
      decreases Rank(), 3
    {
      var terminal := SettleEvent();
      if terminal {
        terminalSeen := true;
        NotifyTerminal();
      }
    }

    method ProcessSSELine()
      requires Valid() && cfg.streaming && !finished && !terminalSeen
      modifies this
      ensures Valid() && Parsed() == Events(ProcessLine(cfg.Classifier(), old(Parsed()).stream))
      ensures finished == (terminalSeen && cfg.FinishesAtDone())
      decreases Rank(), 4
    {
      var current := DropCR(line);
      line := [];
      if |current| == 0 {
        FinishSSEEvent();
        return;
      }
      if eventLimited || current[0] == 58 || !(DATA_FIELD <= current) {
        return;
      }
      var data := current[|DATA_FIELD|..];
      if |data| > 0 && data[0] == 32 {
        data := data[1..];
      }
      TakeData(data);
    }

    /** One more data field for the pending event, or the event goes over the cap. */
    method TakeData(data: Bytes)
      requires Valid() && cfg.streaming && !finished && !terminalSeen && !eventLimited && line == []
      modifies this
      ensures Valid() && !finished
      ensures var st := old(Parsed()).stream;
              var joined := if st.hasData then st.data + [LF] + data else st.data + data;
              Parsed() == Events(if |joined| > MAX_SSE then st.(data := [], limited := true)
                                 else st.(data := joined, hasData := true))
    {
      var additional := |data|;
      if eventHasData {
        additional := additional + 1;
      }
      if |eventData| + additional > MAX_SSE {
        eventData := [];
        eventLimited := true;
        return;
      }
      if eventHasData {
        eventData := eventData + [LF];
      }
      eventData := eventData + data;
      eventHasData := true;
    }

    method ObserveJSON(chunk: Bytes)
      requires Valid() && !cfg.streaming && !finished && chunk != []
      modifies this
      ensures Valid() && !finished && Parsed() == Absorb(cfg, old(Parsed()), chunk)
    {
      if jsonLimited {
        return;
      }
      var remaining := MAX_JSON - |jsonBody|;
      if |chunk| > remaining {
        jsonBody, jsonCap := [], 0;
        jsonLimited := true;
        return;
      }
      var required := |jsonBody| + |chunk|;
      if required > jsonCap {
        var capacity := GrownCapacity(jsonCap, required);
        copied := copied + |jsonBody|;
        jsonCap := capacity;
      }
      assert required <= jsonCap;  // the append stays in place
      jsonBody := jsonBody + chunk;
      accepted := accepted + |chunk|;
    }

    /** Any chunk, at any time, from anywhere: after the end it is a no-op. */
    method Observe(chunk: Bytes)
      requires finished || Valid()
      modifies this
      ensures old(finished) ==> unchanged(this)
      ensures !old(finished) ==> Valid() && State() == ObserveStep(cfg, old(State()), chunk)
      decreases Rank(), 5
    {
      if finished || terminalSeen || |chunk| == 0 {
        if terminalSeen && !finished {
          AbsorbDone(cfg, Parsed(), chunk);
        } else if !finished {
          AbsorbNothing(cfg, Parsed());
        }
        return;
      }
      if !cfg.streaming {
        ObserveJSON(chunk);
        return;
      }
      for i := 0 to |chunk|
        invariant Valid() && !finished && !terminalSeen
        invariant Absorb(cfg, old(Parsed()), chunk) == Absorb(cfg, Parsed(), chunk[i..])
      {
        assert chunk[i..][0] == chunk[i] && chunk[i..][1..] == chunk[i + 1..];
        var value := chunk[i];
        if value == LF {
          ProcessSSELine();
          if finished || terminalSeen {
            AbsorbDone(cfg, Parsed(), chunk[i + 1..]);
            return;
          }
          continue;
        }
        if |line| < MAX_SSE {
          line := line + [value];
        } else {
          eventLimited := true;
        }
      }
    }

    /** The tail both closing paths share: usage, evidence, terminal, each once. */
    method Announce(verdict: Evidence)
      requires finished && !evidenceNotified && terminalNotified == terminalSeen
      requires Sound() && verdict == Verdict(cfg, Parsed())
      requires log == LogOf(cfg, Parsed(), false) && !earlyReturn
      modifies this
      ensures Valid() && finished && Parsed() == old(Parsed())
      decreases Rank(), 9
    {
      if verdict.Available? {
        Emit(verdict.usage);
      }
      ghost var withUsage := log;
      EmitEvidence(verdict);
      LogAssembled(cfg, Parsed(), old(log), withUsage, log,
                   if cfg.hasTerminal && !terminalSeen then log + [TerminalNotice] else log);
      NotifyTerminal();
    }

    method FinishStreaming()
      requires Valid() && cfg.streaming
      modifies this
      ensures Valid() && finished && Parsed() == old(Parsed())
      decreases Rank(), 3
    {
      if finished {
        return;
      }
      finished := true;
      if candidateValid && !candidateInvalid {
        Announce(Available(candidate));
      } else if candidateInvalid {
        Announce(Malformed);
      } else {
        Announce(Unavailable);
      }
    }

    /** Once it returns, unless it was already under way, everything owed has been delivered. */
    method Finish()
      requires finished || Valid()
      modifies this
      ensures old(finished) ==> unchanged(this)
      ensures !old(finished) ==> Valid() && State() == FinishStep(cfg, old(State()))
      decreases Rank(), 5
    {
      if finished {
        return;
      }
      if cfg.streaming {
        if terminalSeen {
          AbsorbDone(cfg, Parsed(), []);
        } else {
          FlushByParts(cfg.Classifier(), Parsed().stream);
        }
        if !terminalSeen && |line| > 0 {
          ProcessSSELine();
          if finished || terminalSeen {
            FinishStreaming();
            return;
          }
        }
        if !terminalSeen && (eventHasData || eventLimited) {
          FinishSSEEvent();
          if finished || terminalSeen {
            FinishStreaming();
            return;
          }
        }
        FinishStreaming();
        return;
      }
      finished := true;
      if jsonLimited {
        Announce(Malformed);
        return;
      }
      if |jsonBody| == 0 {
        Announce(Unavailable);
        return;
      }
      Announce(Decode(cfg.codec, jsonBody, false, cfg.format));
    }
  }
}
