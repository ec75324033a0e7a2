/** The breaker as the object callers share: each method is one critical section. */
module BreakerObject {
  import opened Breaker

  class CircuitBreaker {
    const policy: Policy
    var phase: Phase
    var window: seq<bool>
    var trips: nat
    var rejections: nat

    ghost function Value(): State
      reads this
    {
      State(phase, window, trips, rejections)
    }

    constructor (policy: Policy)
      ensures this.policy == policy && Value() == Fresh
    {
      this.policy := policy;
      phase, window, trips, rejections := Closed, [], 0, 0;
    }

    method Admit(now: nat) returns (a: Admission)
      modifies this
      ensures (Value(), a) == Breaker.Admit(policy, old(Value()), now)
    {
      match phase {
        case Closed => a := Proceed(Ticket(false));
        case Open(until) =>
          if now >= until {
            phase := HalfOpen(1, 0);
            a := Proceed(Ticket(true));
          } else {
            rejections := rejections + 1;
            a := Reject;
          }
        case HalfOpen(inFlight, successes) =>
          if inFlight < policy.maxProbes {
            phase := HalfOpen(inFlight + 1, successes);
            a := Proceed(Ticket(true));
          } else {
            rejections := rejections + 1;
            a := Reject;
          }
      }
    }

    method Record(ticket: Ticket, ok: bool, now: nat)
      modifies this
      ensures Value() == Breaker.Record(policy, old(Value()), ticket, ok, now)
    {
      if ticket.probe {
        match phase {
          case HalfOpen(inFlight, successes) =>
            phase := HalfOpen(if inFlight == 0 then 0 else inFlight - 1, successes);
            if ok {
              phase := phase.(successes := phase.successes + 1);
              if phase.successes >= policy.maxProbes {
                phase := Closed;
                window := [];
              }
            } else {
              Trip(now);
            }
          case _ =>
        }
      } else if phase.Closed? {
        Sample(ok, now);
      }
    }

    /** Recording an ordinary request while Closed. */
    method Sample(ok: bool, now: nat)
      requires phase.Closed?
      modifies this
      ensures Value() == Breaker.Record(policy, old(Value()), Ticket(false), ok, now)
    {
      Push(ok);
      var trips := WindowTrips();
      if trips { Trip(now); }
    }

    /** The window is full and its failure ratio reaches the threshold. */
    method WindowTrips() returns (trips: bool)
      ensures trips <==> |window| >= policy.minSamples && RateReached(policy, window)
    {
      if |window| < policy.minSamples { return false; }
      var failures := CountFailures();
      trips := Reaches(policy.failureRate, failures, |window|);
    }

    /** Appends an outcome and drops the oldest ones beyond the sample floor. */
    method Push(ok: bool)
      modifies this`window
      ensures window == Last(old(window) + [ok], policy.minSamples)
    {
      window := window + [ok];
      ghost var all := window;
      while |window| > policy.minSamples
        invariant |window| <= |all| && window == all[|all| - |window|..]
        invariant |all| >= policy.minSamples ==> |window| >= policy.minSamples
        invariant |all| <= policy.minSamples ==> window == all
      {
        window := window[1..];
      }
    }

    method CountFailures() returns (failures: nat)
      ensures failures == Failures(window) == multiset(window)[false]
    {
      failures := 0;
      for i := 0 to |window|
        invariant failures == Failures(window[..i])
      {
        assert window[..i + 1][..i] == window[..i];
        if !window[i] { failures := failures + 1; }
      }
      assert window[..|window|] == window;
      FailuresCount(window);
    }

    /** The way into Open, from either other state. */
    method Trip(now: nat)
      modifies this
      ensures phase == Open(now + policy.cooldown) && window == []
      ensures trips == old(trips) + 1 && rejections == old(rejections)
    {
      phase := Open(now + policy.cooldown);
      window := [];
      trips := trips + 1;
    }
  }
}
