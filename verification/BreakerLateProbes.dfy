/** A probe ticket carries no round number, so an outcome that arrives after its round ended is
    ignored only while the breaker is not half-open. Recorded during a later round it counts.
    For a valid policy this can happen exactly when more than one probe is allowed in flight. */
module BreakerLateProbes {
  import opened Breaker

  /** A probe outcome is ignored exactly when the breaker is not half-open. */
  lemma ProbeIgnoredIff(p: Policy, b: State, ok: bool, now: nat)
    ensures Record(p, b, Ticket(true), ok, now) == b <==> !b.phase.HalfOpen?
  {
  }

  /** The last event recorded, during a half-open round, a probe minted before that round. */
  ghost predicate CountsLateProbe(p: Policy, events: seq<Event>)
    requires Legal(p, events)
  {
    events != [] &&
    var r, e := After(p, events[..|events| - 1]), events[|events| - 1];
    r.breaker.phase.HalfOpen? && e.Records? && r.tickets[e.admit].probe && e.admit < r.roundStart
  }

  ghost predicate OneProbeAtATime(r: Run, n: nat) {
    && (forall i :: i in r.tickets ==> i < n)
    && (forall i :: i in r.tickets && r.tickets[i].probe ==> r.breaker.phase.HalfOpen? && i == r.roundStart)
    && (r.breaker.phase.HalfOpen? ==> r.breaker.phase.inFlight >= 1)
  }

  lemma {:induction false} SingleProbeRounds(p: Policy, events: seq<Event>)
    requires Legal(p, events) && p.maxProbes <= 1
    ensures OneProbeAtATime(After(p, events), |events|)
    decreases |events|
  {
    if events != [] { SingleProbeRounds(p, events[..|events| - 1]); }
  }

  lemma Extend(p: Policy, events: seq<Event>, e: Event)
    requires Legal(p, events) && Enabled(After(p, events), e)
    ensures Legal(p, events + [e]) && After(p, events + [e]) == Happen(p, After(p, events), |events|, e)
  {
    assert (events + [e])[..|events|] == events;
  }

  function Falses(n: nat): seq<bool> { seq(n, _ => false) }

  lemma {:induction false} AllFail(n: nat)
    ensures Failures(Falses(n)) == n
  {
    if n > 0 {
      assert Falses(n)[..n - 1] == Falses(n - 1);
      AllFail(n - 1);
    }
  }

  lemma AllFailuresReach(rate: real, n: nat)
    requires 0.0 < rate <= 1.0 && n > 0
    ensures Reaches(rate, n, n)
  {
    assert (1.0 - rate) * (n as real) >= 0.0;
  }

  lemma FailingRequest(p: Policy, events: seq<Event>, r: Run)
    requires Legal(p, events) && After(p, events) == r && r.breaker.phase.Closed? && r.tickets == map[]
    ensures var all := events + [Admits(0)] + [Records(|events|, false, 0)];
            Legal(p, all) && After(p, all) == r.(breaker := Record(p, r.breaker, Ticket(false), false, 0))
  {
    Extend(p, events, Admits(0));
    assert After(p, events + [Admits(0)]).tickets == map[|events| := Ticket(false)];
    Extend(p, events + [Admits(0)], Records(|events|, false, 0));
    assert map[|events| := Ticket(false)] - {|events|} == map[];
  }

  lemma FailureRecorded(p: Policy, n: nat)
    requires ValidPolicy(p) && 0 < n <= p.minSamples
    ensures Record(p, State(Closed, Falses(n - 1), 0, 0), Ticket(false), false, 0) ==
            if n < p.minSamples then State(Closed, Falses(n), 0, 0) else State(Open(p.cooldown), [], 1, 0)
  {
    assert Falses(n - 1) + [false] == Falses(n);
    AllFail(n);
    AllFailuresReach(p.failureRate, n);
  }

  /** A fresh breaker after `n` failed requests: they fill the window, and the last one trips it. */
  function Failing(p: Policy, n: nat): Run {
    Run(if n < p.minSamples then State(Closed, Falses(n), 0, 0) else State(Open(p.cooldown), [], 1, 0), map[], 0, 0)
  }

  lemma OneMoreFailure(p: Policy, events: seq<Event>, n: nat)
    requires ValidPolicy(p) && n < p.minSamples && Legal(p, events) && After(p, events) == Failing(p, n)
    ensures var all := events + [Admits(0)] + [Records(|events|, false, 0)];
            Legal(p, all) && After(p, all) == Failing(p, n + 1)
  {
    FailingRequest(p, events, Failing(p, n));
    FailureRecorded(p, n + 1);
  }

  lemma {:induction false} FailingRun(p: Policy, n: nat) returns (events: seq<Event>)
    requires ValidPolicy(p) && n <= p.minSamples
    ensures Legal(p, events) && |events| == 2 * n && After(p, events) == Failing(p, n)
    decreases n
  {
    events := [];
    if n > 0 {
      events := FailingRun(p, n - 1);
      OneMoreFailure(p, events, n - 1);
      events := events + [Admits(0)] + [Records(|events|, false, 0)];
    }
  }

  /** A run of `n` events that stands at `r` goes on to `s`. */
  lemma ExtendTo(p: Policy, events: seq<Event>, n: nat, e: Event, r: Run, s: Run)
    requires Legal(p, events) && After(p, events) == r && |events| == n && Enabled(r, e) && Happen(p, r, n, e) == s
    ensures Legal(p, events + [e]) && After(p, events + [e]) == s && |events + [e]| == n + 1
  {
    Extend(p, events, e);
  }

  /** Open after the first trip, from event `n` on. */
  function Tripped(c: nat): Run { Run(State(Open(c), [], 1, 0), map[], 0, 0) }

  /** Events `n` and `n + 1` are two probes of one round; the second fails. */
  lemma TwoProbes(p: Policy, n: nat)
    requires p.maxProbes >= 2
    ensures var c, probe := p.cooldown, Ticket(true);
            var r1 := Run(State(HalfOpen(1, 0), [], 1, 0), map[n := probe], n, 0);
            var r2 := Run(State(HalfOpen(2, 0), [], 1, 0), map[n := probe, n + 1 := probe], n, 0);
            && Happen(p, Tripped(c), n, Admits(c)) == r1 && Happen(p, r1, n + 1, Admits(c)) == r2
            && Happen(p, r2, n + 2, Records(n + 1, false, c)) ==
               Run(State(Open(2 * c), [], 2, 0), map[n := probe], n, 0)
  {
    assert ProbesBefore(map[], n) == {};
    assert map[n := Ticket(true), n + 1 := Ticket(true)] - {n + 1} == map[n := Ticket(true)];
  }

  /** The next round opens with the first probe still unrecorded, and counts its outcome. */
  lemma NextRound(p: Policy, n: nat)
    requires p.maxProbes >= 2
    ensures var c, probe := p.cooldown, Ticket(true);
            var r4 := Run(State(HalfOpen(1, 0), [], 2, 0), map[n := probe, n + 3 := probe], n + 3, 1);
            && Happen(p, Run(State(Open(2 * c), [], 2, 0), map[n := probe], n, 0), n + 3, Admits(2 * c)) == r4
            && Happen(p, r4, n + 4, Records(n, true, 2 * c)) ==
               Run(State(HalfOpen(0, 1), [], 2, 0), map[n + 3 := probe], n + 3, 1)
  {
    assert ProbesBefore(map[n := Ticket(true)], n + 3) == {n};
    assert map[n := Ticket(true), n + 3 := Ticket(true)] - {n} == map[n + 3 := Ticket(true)];
  }

  /** A run up to the second trip, with one probe of the first round unrecorded. */
  lemma SecondTrip(p: Policy) returns (events: seq<Event>)
    requires ValidPolicy(p) && p.maxProbes >= 2
    ensures Legal(p, events) && |events| == 2 * p.minSamples + 3
    ensures After(p, events) ==
            Run(State(Open(2 * p.cooldown), [], 2, 0), map[2 * p.minSamples := Ticket(true)], 2 * p.minSamples, 0)
  {
    var n, c, probe := 2 * p.minSamples, p.cooldown, Ticket(true);
    var e0 := FailingRun(p, p.minSamples);
    TwoProbes(p, n);
    var r1 := Run(State(HalfOpen(1, 0), [], 1, 0), map[n := probe], n, 0);
    var r2 := Run(State(HalfOpen(2, 0), [], 1, 0), map[n := probe, n + 1 := probe], n, 0);
    ExtendTo(p, e0, n, Admits(c), Tripped(c), r1);
    var e1 := e0 + [Admits(c)];
    ExtendTo(p, e1, n + 1, Admits(c), r1, r2);
    var e2 := e1 + [Admits(c)];
    ExtendTo(p, e2, n + 2, Records(n + 1, false, c), r2, Run(State(Open(2 * c), [], 2, 0), map[n := probe], n, 0));
    events := e2 + [Records(n + 1, false, c)];
  }

  /** Two probes in one round, one fails, and the other reports during the next round. */
  lemma LateProbeRun(p: Policy) returns (events: seq<Event>)
    requires ValidPolicy(p) && p.maxProbes >= 2
    ensures Legal(p, events) && CountsLateProbe(p, events)
    ensures After(p, events).breaker.phase == HalfOpen(0, 1)
    ensures |After(p, events).tickets| == 1 // the round's own probe is still unrecorded
  {
    var n, c, probe := 2 * p.minSamples, p.cooldown, Ticket(true);
    var e3 := SecondTrip(p);
    NextRound(p, n);
    var r4 := Run(State(HalfOpen(1, 0), [], 2, 0), map[n := probe, n + 3 := probe], n + 3, 1);
    ExtendTo(p, e3, n + 3, Admits(2 * c), Run(State(Open(2 * c), [], 2, 0), map[n := probe], n, 0), r4);
    var e4 := e3 + [Admits(2 * c)];
    ExtendTo(p, e4, n + 4, Records(n, true, 2 * c), r4,
             Run(State(HalfOpen(0, 1), [], 2, 0), map[n + 3 := probe], n + 3, 1));
    events := e4 + [Records(n, true, 2 * c)];
    assert events[..|events| - 1] == e4;
  }

  /** Over all runs of a valid policy: late probe outcomes are never counted if and only if a
      single probe is allowed. */
  lemma LateProbesIgnoredIff(p: Policy)
    requires ValidPolicy(p)
    ensures (forall events :: Legal(p, events) ==> !CountsLateProbe(p, events)) <==> p.maxProbes == 1
  {
    if p.maxProbes == 1 {
      forall events | Legal(p, events) ensures !CountsLateProbe(p, events) {
        if events != [] { SingleProbeRounds(p, events[..|events| - 1]); }
      }
    } else {
      var events := LateProbeRun(p);
    }
  }
}
