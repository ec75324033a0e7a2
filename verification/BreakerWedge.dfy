/** A half-open breaker whose probes are all out admits nobody, however late it gets. Every valid policy
    can come to that, and only the outcome of a probe leads out of it. */
module BreakerWedge {
  import opened Breaker
  import opened BreakerLateProbes

  /** The tickets of `n` probes minted by the events from number `base` on. */
  function Probes(base: nat, n: nat): map<nat, Ticket> {
    if n == 0 then map[] else Probes(base, n - 1)[base + n - 1 := Ticket(true)]
  }

  /** After `n` probes of the first round, opened by event `base`. */
  function AfterProbes(base: nat, n: nat): Run { Run(State(HalfOpen(n, 0), [], 1, 0), Probes(base, n), base, 0) }

  lemma FirstProbe(p: Policy, events: seq<Event>, base: nat)
    requires Legal(p, events) && |events| == base && After(p, events) == Tripped(p.cooldown)
    ensures Legal(p, events + [Admits(p.cooldown)]) && After(p, events + [Admits(p.cooldown)]) == AfterProbes(base, 1)
  {
    assert ProbesBefore(map[], base) == {};
    assert Probes(base, 0) == map[];
    ExtendTo(p, events, base, Admits(p.cooldown), Tripped(p.cooldown), AfterProbes(base, 1));
  }

  lemma OneMoreProbe(p: Policy, events: seq<Event>, base: nat, n: nat)
    requires 1 <= n < p.maxProbes
    requires Legal(p, events) && |events| == base + n && After(p, events) == AfterProbes(base, n)
    ensures Legal(p, events + [Admits(p.cooldown)])
    ensures After(p, events + [Admits(p.cooldown)]) == AfterProbes(base, n + 1)
  {
    ExtendTo(p, events, base + n, Admits(p.cooldown), AfterProbes(base, n), AfterProbes(base, n + 1));
  }

  /** After a trip, any number of probes up to the budget can be out at once. */
  lemma {:induction false} ProbingRun(p: Policy, base: nat, n: nat) returns (events: seq<Event>)
    requires ValidPolicy(p) && base == 2 * p.minSamples && 1 <= n <= p.maxProbes
    ensures Legal(p, events) && |events| == base + n && After(p, events) == AfterProbes(base, n)
    decreases n
  {
    if n == 1 {
      events := FailingRun(p, p.minSamples);
      FirstProbe(p, events, base);
    } else {
      events := ProbingRun(p, base, n - 1);
      OneMoreProbe(p, events, base, n - 1);
    }
    events := events + [Admits(p.cooldown)];
  }

  /** Nobody is admitted, at any clock reading. */
  ghost predicate Wedged(p: Policy, b: State) { forall now: nat :: Admit(p, b, now).1.Reject? }

  /** A breaker rejects at every clock reading exactly when it is half-open with its probe budget spent. */
  lemma WedgedIff(p: Policy, b: State)
    ensures Wedged(p, b) <==> b.phase.HalfOpen? && b.phase.inFlight >= p.maxProbes
  {
    if b.phase.Open? { assert Admit(p, b, b.phase.until).1.Proceed?; } else { assert Admit(p, b, 0) == Admit(p, b, 0); }
  }

  /** Every valid policy has a run that wedges the breaker. */
  lemma EveryPolicyWedges(p: Policy) returns (events: seq<Event>)
    requires ValidPolicy(p)
    ensures Legal(p, events) && Wedged(p, After(p, events).breaker)
  {
    events := ProbingRun(p, 2 * p.minSamples, p.maxProbes);
    WedgedIff(p, After(p, events).breaker);
  }

  /** The outcome of a probe ends it: in every run that wedged the breaker, whichever probe is recorded next,
      of this round or of an earlier one, the breaker admits again, after a failure once the cooldown is over. */
  lemma ProbeOutcomeEndsWedge(p: Policy, events: seq<Event>, a: nat, ok: bool, now: nat, later: nat)
    requires Legal(p, events) && p.maxProbes >= 1 && Wedged(p, After(p, events).breaker)
    requires a in After(p, events).tickets && After(p, events).tickets[a].probe
    requires !ok ==> later >= now + p.cooldown
    ensures var r := After(p, events);
            Admit(p, Record(p, r.breaker, r.tickets[a], ok, now), later).1.Proceed?
  {
    ProbeAccounting(p, events);
    WedgedIff(p, After(p, events).breaker);
  }
}
