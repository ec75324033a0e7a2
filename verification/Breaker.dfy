/** The per-bucket circuit breaker: a state machine with a rolling window of outcomes while
    closed, a cooldown while open and a probe budget while half-open. Every operation reads
    the clock before it takes the lock, so the times seen by consecutive operations need
    not be ordered. */
module Breaker {
  import opened Basics

  datatype Policy = Policy(failureRate: real, minSamples: nat, cooldown: nat, maxProbes: nat)

  /** What configuration validation lets through. */
  predicate ValidPolicy(p: Policy) {
    0.0 < p.failureRate <= 1.0 && p.minSamples >= 1 && p.cooldown >= 1 && p.maxProbes >= 1
  }

  datatype Phase = Closed | Open(until: nat) | HalfOpen(inFlight: nat, successes: nat)

  datatype State = State(phase: Phase, window: seq<bool>, trips: nat, rejections: nat)

  const Fresh: State := State(Closed, [], 0, 0)

  datatype Ticket = Ticket(probe: bool)

  datatype Admission = Proceed(ticket: Ticket) | Reject

  function Admit(p: Policy, b: State, now: nat): (State, Admission) {
    match b.phase
    case Closed => (b, Proceed(Ticket(false)))
    case Open(until) =>
      if now >= until then (b.(phase := HalfOpen(1, 0)), Proceed(Ticket(true)))
      else (b.(rejections := b.rejections + 1), Reject)
    case HalfOpen(n, ok) =>
      if n < p.maxProbes then (b.(phase := HalfOpen(n + 1, ok)), Proceed(Ticket(true)))
      else (b.(rejections := b.rejections + 1), Reject)
  }

  function Failures(window: seq<bool>): nat {
    if window == [] then 0 else Failures(window[..|window| - 1]) + if window[|window| - 1] then 0 else 1
  }

  /** `failures` out of `n` outcomes reach the threshold; no outcomes have no ratio. */
  predicate Reaches(rate: real, failures: nat, n: nat) {
    n > 0 && failures as real >= rate * (n as real)
  }

  predicate RateReached(p: Policy, window: seq<bool>) {
    Reaches(p.failureRate, Failures(window), |window|)
  }

  /** The last `n` elements, or all of them. */
  function Last(s: seq<bool>, n: nat): seq<bool> {
    if |s| <= n then s else s[|s| - n..]
  }

  function Trip(p: Policy, b: State, now: nat): State {
    State(Open(now + p.cooldown), [], b.trips + 1, b.rejections)
  }

  function Record(p: Policy, b: State, ticket: Ticket, ok: bool, now: nat): State {
    if ticket.probe then
      match b.phase
      case HalfOpen(n, successes) =>
        var n' := if n == 0 then 0 else n - 1;
        if !ok then Trip(p, b, now)
        else if successes + 1 >= p.maxProbes then b.(phase := Closed, window := [])
        else b.(phase := HalfOpen(n', successes + 1))
      case _ => b
    else if b.phase.Closed? then
      var window := Last(b.window + [ok], p.minSamples);
      if |window| >= p.minSamples && RateReached(p, window) then Trip(p, b, now) else b.(window := window)
    else b
  }

  // ---- Runs ---------------------------------------------------------------------------

  /** `Records(a, ok, now)` hands back the ticket minted by event number `a`. */
  datatype Event = Admits(now: nat) | Records(admit: nat, ok: bool, now: nat)

  /** `tickets`: unrecorded tickets by the event that minted them. `roundStart`: the event that
      opened the latest half-open round; `leftover`: probe tickets unrecorded at that moment. */
  datatype Run = Run(breaker: State, tickets: map<nat, Ticket>, roundStart: nat, leftover: nat)

  const NewRun: Run := Run(Fresh, map[], 0, 0)

  /** Unrecorded probe tickets minted before event `n`, and from it on. */
  function ProbesBefore(tickets: map<nat, Ticket>, n: nat): set<nat> {
    set i | i in tickets && tickets[i].probe && i < n
  }

  function ProbesFrom(tickets: map<nat, Ticket>, n: nat): set<nat> {
    set i | i in tickets && tickets[i].probe && n <= i
  }

  predicate Enabled(r: Run, e: Event) {
    e.Records? ==> e.admit in r.tickets
  }

  /** Event number `n` happens. */
  function Happen(p: Policy, r: Run, n: nat, e: Event): Run
    requires Enabled(r, e)
  {
    match e
    case Admits(now) =>
      var (b, answer) := Admit(p, r.breaker, now);
      var opens := r.breaker.phase.Open? && b.phase.HalfOpen?;
      Run(b,
          if answer.Proceed? then r.tickets[n := answer.ticket] else r.tickets,
          if opens then n else r.roundStart,
          if opens then |ProbesBefore(r.tickets, n)| else r.leftover)
    case Records(a, ok, now) =>
      r.(breaker := Record(p, r.breaker, r.tickets[a], ok, now), tickets := r.tickets - {a})
  }

  predicate Legal(p: Policy, events: seq<Event>)
    decreases |events|, 0
  {
    events == [] ||
    (Legal(p, events[..|events| - 1]) && Enabled(After(p, events[..|events| - 1]), events[|events| - 1]))
  }

  function After(p: Policy, events: seq<Event>): Run
    requires Legal(p, events)
    decreases |events|, 1
  {
    if events == [] then NewRun
    else Happen(p, After(p, events[..|events| - 1]), |events| - 1, events[|events| - 1])
  }

  lemma {:induction false} PrefixLegal(p: Policy, events: seq<Event>, k: nat)
    requires Legal(p, events) && k <= |events|
    ensures Legal(p, events[..k])
    decreases |events|
  {
    if k == |events| {
      assert events[..k] == events;
    } else {
      assert events[..|events| - 1][..k] == events[..k];
      PrefixLegal(p, events[..|events| - 1], k);
    }
  }

  // ---- Probe accounting ---------------------------------------------------------------

  ghost predicate ProbesAccounted(p: Policy, r: Run, n: nat) {
    && (forall i :: i in r.tickets ==> i < n)
    && r.roundStart <= n
    && (r.breaker.phase.HalfOpen? ==>
          var cur, stale := ProbesFrom(r.tickets, r.roundStart), ProbesBefore(r.tickets, r.roundStart);
          var k := r.breaker.phase.inFlight;
          && k <= Max(1, p.maxProbes)
          && k <= |cur|
          && |cur| + |stale| <= k + r.leftover)
  }

  lemma RoundOpens(p: Policy, r: Run, n: nat, now: nat)
    requires ProbesAccounted(p, r, n) && r.breaker.phase.Open? && now >= r.breaker.phase.until
    ensures ProbesAccounted(p, Happen(p, r, n, Admits(now)), n + 1)
  {
    var r' := Happen(p, r, n, Admits(now));
    assert r'.tickets == r.tickets[n := Ticket(true)] && r'.roundStart == n;
    assert ProbesFrom(r'.tickets, n) == {n};
    assert ProbesBefore(r'.tickets, n) == ProbesBefore(r.tickets, n);
  }

  lemma ProbeAdmitted(p: Policy, r: Run, n: nat, now: nat)
    requires ProbesAccounted(p, r, n) && r.breaker.phase.HalfOpen? && r.breaker.phase.inFlight < p.maxProbes
    ensures ProbesAccounted(p, Happen(p, r, n, Admits(now)), n + 1)
  {
    var r' := Happen(p, r, n, Admits(now));
    assert r'.tickets == r.tickets[n := Ticket(true)] && r'.roundStart == r.roundStart;
    assert ProbesFrom(r'.tickets, r.roundStart) == ProbesFrom(r.tickets, r.roundStart) + {n};
    assert ProbesBefore(r'.tickets, r.roundStart) == ProbesBefore(r.tickets, r.roundStart);
  }

  lemma AdmitAccounted(p: Policy, r: Run, n: nat, now: nat)
    requires ProbesAccounted(p, r, n)
    ensures ProbesAccounted(p, Happen(p, r, n, Admits(now)), n + 1)
  {
    var b := r.breaker.phase;
    if b.Open? && now >= b.until {
      RoundOpens(p, r, n, now);
    } else if b.HalfOpen? && b.inFlight < p.maxProbes {
      ProbeAdmitted(p, r, n, now);
    }
  }

  /** Recording a ticket takes one probe off its side of the round's start, if it was a probe. */
  lemma TicketGone(tickets: map<nat, Ticket>, a: nat, start: nat)
    requires a in tickets
    ensures var cur, stale := ProbesFrom(tickets, start), ProbesBefore(tickets, start);
            var cur', stale' := ProbesFrom(tickets - {a}, start), ProbesBefore(tickets - {a}, start);
            && |cur'| == |cur| - (if tickets[a].probe && a >= start then 1 else 0)
            && |stale'| == |stale| - (if tickets[a].probe && a < start then 1 else 0)
  {
    assert ProbesFrom(tickets - {a}, start) == ProbesFrom(tickets, start) - {a};
    assert ProbesBefore(tickets - {a}, start) == ProbesBefore(tickets, start) - {a};
    assert a in ProbesFrom(tickets, start) <==> tickets[a].probe && a >= start;
    assert a in ProbesBefore(tickets, start) <==> tickets[a].probe && a < start;
  }

  lemma RecordAccounted(p: Policy, r: Run, n: nat, a: nat, ok: bool, now: nat)
    requires ProbesAccounted(p, r, n) && a in r.tickets
    ensures ProbesAccounted(p, Happen(p, r, n, Records(a, ok, now)), n + 1)
  {
    TicketGone(r.tickets, a, r.roundStart);
  }

  /** Over all runs: the in-flight count never exceeds the probe budget nor the unrecorded
      tickets of the round, and unrecorded probe tickets exceed it by at most those left over
      from earlier rounds. */
  lemma {:induction false} ProbeAccounting(p: Policy, events: seq<Event>)
    requires Legal(p, events)
    ensures ProbesAccounted(p, After(p, events), |events|)
  {
    if events != [] {
      var front, e := events[..|events| - 1], events[|events| - 1];
      ProbeAccounting(p, front);
      match e {
        case Admits(now) => AdmitAccounted(p, After(p, front), |front|, now);
        case Records(a, ok, now) => RecordAccounted(p, After(p, front), |front|, a, ok, now);
      }
    }
  }

  /** A half-open rejection always has a probe of the same round still to be recorded. */
  lemma RejectionHasProbeOutstanding(p: Policy, events: seq<Event>, now: nat) returns (a: nat)
    requires Legal(p, events) && p.maxProbes >= 1
    requires After(p, events).breaker.phase.HalfOpen? && Admit(p, After(p, events).breaker, now).1.Reject?
    ensures var r := After(p, events); a in r.tickets && r.tickets[a].probe && r.roundStart <= a < |events|
  {
    ProbeAccounting(p, events);
    var r := After(p, events);
    assert ProbesFrom(r.tickets, r.roundStart) != {};
    a :| a in ProbesFrom(r.tickets, r.roundStart);
  }

  /** With the probe budget spent, no passage of time helps: until some probe ticket is
      recorded, every admission is rejected, at any clock reading. */
  lemma {:induction false} WedgedUntilProbeRecorded(p: Policy, events: seq<Event>, k: nat, now: nat)
    requires Legal(p, events) && k <= |events| && Legal(p, events[..k])
    requires var b := After(p, events[..k]).breaker; b.phase.HalfOpen? && b.phase.inFlight >= p.maxProbes
    requires forall i :: k <= i < |events| && events[i].Records? ==>
               Legal(p, events[..i]) && events[i].admit in After(p, events[..i]).tickets &&
               !After(p, events[..i]).tickets[events[i].admit].probe
    ensures After(p, events).breaker.phase == After(p, events[..k]).breaker.phase
    ensures Admit(p, After(p, events).breaker, now).1.Reject?
    decreases |events|
  {
    if k == |events| {
      assert events[..k] == events;
    } else {
      var front := events[..|events| - 1];
      assert front[..k] == events[..k];
      forall i | k <= i < |front| && front[i].Records?
        ensures Legal(p, front[..i]) && front[i].admit in After(p, front[..i]).tickets &&
                !After(p, front[..i]).tickets[front[i].admit].probe
      {
        assert front[..i] == events[..i] && front[i] == events[i];
      }
      WedgedUntilProbeRecorded(p, front, k, now);
      assert events[..|events| - 1] == front;
    }
  }

  // ---- The rolling window -------------------------------------------------------------

  /** The non-probe outcomes recorded since Closed was last entered. */
  ghost function SinceClosed(p: Policy, events: seq<Event>): seq<bool>
    requires Legal(p, events)
    decreases |events|
  {
    if events == [] then []
    else
      var front, e := events[..|events| - 1], events[|events| - 1];
      var r := After(p, front);
      if !After(p, events).breaker.phase.Closed? || !r.breaker.phase.Closed? then []
      else if e.Records? && !r.tickets[e.admit].probe then SinceClosed(p, front) + [e.ok]
      else SinceClosed(p, front)
  }

  /** What is kept is the end of the sequence, as much of it as fits. */
  lemma LastIsEnd(s: seq<bool>, n: nat)
    ensures |Last(s, n)| == Min(|s|, n) && s[..|s| - Min(|s|, n)] + Last(s, n) == s
  {
  }

  lemma LastOfLonger(s: seq<bool>, ok: bool, n: nat)
    ensures Last(Last(s, n) + [ok], n) == Last(s + [ok], n)
  {
  }

  ghost predicate WindowOk(p: Policy, b: State, since: seq<bool>) {
    b.window == if b.phase.Closed? then Last(since, p.minSamples) else []
  }

  lemma RecordWindow(p: Policy, b: State, since: seq<bool>, ticket: Ticket, ok: bool, now: nat)
    requires WindowOk(p, b, since)
    ensures var b' := Record(p, b, ticket, ok, now);
            WindowOk(p, b', if !b.phase.Closed? then [] else if ticket.probe then since else since + [ok])
  {
    LastOfLonger(since, ok, p.minSamples);
  }

  /** The window always is the last `minSamples` non-probe outcomes since Closed was entered,
      and is empty outside Closed. */
  lemma {:induction false} WindowIsRecentOutcomes(p: Policy, events: seq<Event>)
    requires Legal(p, events)
    ensures After(p, events).breaker.phase.Closed? ==>
              After(p, events).breaker.window == Last(SinceClosed(p, events), p.minSamples)
    ensures !After(p, events).breaker.phase.Closed? ==> After(p, events).breaker.window == []
    decreases |events|
  {
    if events != [] {
      var front, e := events[..|events| - 1], events[|events| - 1];
      WindowIsRecentOutcomes(p, front);
      if e.Records? {
        var r := After(p, front);
        RecordWindow(p, r.breaker, SinceClosed(p, front), r.tickets[e.admit], e.ok, e.now);
      }
    }
  }

  /** The loop's count is the number of failed outcomes. */
  lemma {:induction false} FailuresCount(window: seq<bool>)
    ensures Failures(window) == multiset(window)[false]
    decreases |window|
  {
    if window != [] {
      var n := |window| - 1;
      FailuresCount(window[..n]);
      assert window == window[..n] + [window[n]];
    }
  }

  /** The threshold test is the quotient compared with the configured rate. */
  lemma ReachesIsQuotient(rate: real, failures: nat, n: nat)
    ensures Reaches(rate, failures, n) <==> n > 0 && failures as real / n as real >= rate
  {
    if n > 0 { QuotientAtLeast(failures as real, n as real, rate); }
  }

  lemma QuotientAtLeast(a: real, b: real, r: real)
    requires b > 0.0
    ensures a / b >= r <==> a >= r * b
  {
    var q, rb := a / b, r * b;
    assert a == q * b;
    if q >= r { ProductsOrdered(r, q, b, rb, a); } else { ProductsApart(q, r, b, a, rb); }
  }

  lemma ProductsOrdered(x: real, y: real, b: real, xb: real, yb: real)
    requires x <= y && b > 0.0 && xb == x * b && yb == y * b
    ensures xb <= yb
  {
    assert (y - x) * b == y * b - x * b;
    assert (y - x) * b >= 0.0 by { NonNegativeProduct(y - x, b); }
  }

  lemma ProductsApart(x: real, y: real, b: real, xb: real, yb: real)
    requires x < y && b > 0.0 && xb == x * b && yb == y * b
    ensures xb < yb
  {
    assert (y - x) * b == y * b - x * b;
    assert (y - x) * b > 0.0 by { PositiveProduct(y - x, b); }
  }

  lemma NonNegativeProduct(a: real, b: real)
    requires a >= 0.0 && b >= 0.0
    ensures a * b >= 0.0
  {
  }

  lemma PositiveProduct(a: real, b: real)
    requires a > 0.0 && b > 0.0
    ensures a * b > 0.0
  {
  }

  /** At least `minSamples` outcomes were recorded, and of the last `minSamples` of them the failed ones make
      up at least the configured share. */
  ghost predicate FillsAndReaches(p: Policy, outcomes: seq<bool>) {
    |outcomes| >= p.minSamples >= 1 &&
    multiset(outcomes[|outcomes| - p.minSamples..])[false] as real / p.minSamples as real >= p.failureRate
  }

  lemma RateReachedMeans(p: Policy, outcomes: seq<bool>)
    requires |outcomes| >= p.minSamples >= 1
    ensures RateReached(p, Last(outcomes, p.minSamples)) <==> FillsAndReaches(p, outcomes)
  {
    var window := Last(outcomes, p.minSamples);
    assert window == outcomes[|outcomes| - p.minSamples..];
    FailuresCount(window);
    ReachesIsQuotient(p.failureRate, Failures(window), |window|);
  }

  lemma RecordTripsIff(p: Policy, b: State, since: seq<bool>, ticket: Ticket, ok: bool, now: nat)
    requires WindowOk(p, b, since) && b.phase.Closed?
    ensures Record(p, b, ticket, ok, now).phase.Open? <==> !ticket.probe && FillsAndReaches(p, since + [ok])
  {
    LastOfLonger(since, ok, p.minSamples);
    if |since + [ok]| >= p.minSamples >= 1 { RateReachedMeans(p, since + [ok]); }
  }

  /** From Closed, a recorded outcome opens the breaker exactly when at least `minSamples` >= 1
      outcomes were recorded since Closed was entered and the failure ratio of the last
      `minSamples` of them reaches the threshold; nothing else opens it. */
  lemma ClosedTripsExactly(p: Policy, events: seq<Event>)
    requires Legal(p, events) && events != [] && After(p, events[..|events| - 1]).breaker.phase.Closed?
    ensures var front, e := events[..|events| - 1], events[|events| - 1];
            After(p, events).breaker.phase.Open? <==>
              && e.Records? && !After(p, front).tickets[e.admit].probe
              && FillsAndReaches(p, SinceClosed(p, front) + [e.ok])
  {
    var front, e := events[..|events| - 1], events[|events| - 1];
    WindowIsRecentOutcomes(p, front);
    if e.Records? {
      var r := After(p, front);
      RecordTripsIff(p, r.breaker, SinceClosed(p, front), r.tickets[e.admit], e.ok, e.now);
    }
  }

  // ---- Shedding, recovering, counting -------------------------------------------------

  ghost predicate EntersOpen(p: Policy, events: seq<Event>)
    requires Legal(p, events)
  {
    events != [] && After(p, events).breaker.phase.Open? && !After(p, events[..|events| - 1]).breaker.phase.Open?
  }

  ghost predicate Rejects(p: Policy, events: seq<Event>)
    requires Legal(p, events)
  {
    events != [] && events[|events| - 1].Admits? &&
    Admit(p, After(p, events[..|events| - 1]).breaker, events[|events| - 1].now).1.Reject?
  }

  ghost function Trips(p: Policy, events: seq<Event>): nat
    requires Legal(p, events)
    decreases |events|
  {
    if events == [] then 0 else Trips(p, events[..|events| - 1]) + if EntersOpen(p, events) then 1 else 0
  }

  ghost function Rejections(p: Policy, events: seq<Event>): nat
    requires Legal(p, events)
    decreases |events|
  {
    if events == [] then 0 else Rejections(p, events[..|events| - 1]) + if Rejects(p, events) then 1 else 0
  }

  /** The counters count exactly the entries to Open and the rejected admissions. */
  lemma {:induction false} CountersCount(p: Policy, events: seq<Event>)
    requires Legal(p, events)
    ensures After(p, events).breaker.trips == Trips(p, events)
    ensures After(p, events).breaker.rejections == Rejections(p, events)
    decreases |events|
  {
    if events != [] { CountersCount(p, events[..|events| - 1]); }
  }

  /** A trip at recorded time t sets the deadline t + cooldown. */
  lemma TripSetsDeadline(p: Policy, events: seq<Event>)
    requires Legal(p, events) && EntersOpen(p, events)
    ensures events[|events| - 1].Records? &&
            After(p, events).breaker.phase == Open(events[|events| - 1].now + p.cooldown)
  {
  }

  /** While no admission has read the deadline, the breaker stays as it was opened. */
  lemma {:induction false} StaysOpen(p: Policy, events: seq<Event>, i: nat)
    requires Legal(p, events) && i < |events| && Legal(p, events[..i + 1])
    requires After(p, events[..i + 1]).breaker.phase.Open?
    requires var until := After(p, events[..i + 1]).breaker.phase.until;
             forall k :: i < k < |events| && events[k].Admits? ==> events[k].now < until
    ensures After(p, events).breaker.phase == After(p, events[..i + 1]).breaker.phase
    decreases |events|
  {
    if i + 1 == |events| {
      assert events[..i + 1] == events;
    } else {
      assert events[..|events| - 1][..i + 1] == events[..i + 1];
      StaysOpen(p, events[..|events| - 1], i);
    }
  }

  /** After a trip at recorded time t, no request is admitted until an admission reads a time of
      at least t + cooldown. */
  lemma ShedsUntilCooldown(p: Policy, events: seq<Event>, i: nat)
    requires Legal(p, events) && i + 1 < |events|
    requires Legal(p, events[..i + 1]) && EntersOpen(p, events[..i + 1])
    requires events[|events| - 1].Admits? && !Rejects(p, events)
    ensures exists k :: i < k < |events| && events[k].Admits? && events[k].now >= events[i].now + p.cooldown
  {
    TripSetsDeadline(p, events[..i + 1]);
    var front := events[..|events| - 1];
    if forall k :: i < k < |events| && events[k].Admits? ==> events[k].now < events[i].now + p.cooldown {
      assert front[..i + 1] == events[..i + 1];
      StaysOpen(p, front, i);
    }
  }

  /** The probe outcomes recorded after event number `start`. */
  ghost function ProbeOutcomes(p: Policy, events: seq<Event>, start: nat): seq<bool>
    requires Legal(p, events)
    decreases |events|
  {
    if |events| <= start + 1 then []
    else
      var front, e := events[..|events| - 1], events[|events| - 1];
      ProbeOutcomes(p, front, start) +
      if e.Records? && After(p, front).tickets[e.admit].probe then [e.ok] else []
  }

  function AllTrue(n: nat): seq<bool> { seq(n, _ => true) }

  ghost predicate HalfOpenAfter(p: Policy, events: seq<Event>) {
    Legal(p, events) && After(p, events).breaker.phase.HalfOpen?
  }

  /** A half-open round began with an admission past the deadline, has stayed half-open, and has
      recorded only successes, as many as it counts. */
  ghost predicate InRound(p: Policy, events: seq<Event>)
    requires Legal(p, events)
  {
    var r := After(p, events);
    && r.breaker.phase.HalfOpen?
    && r.roundStart < |events| && events[r.roundStart].Admits?
    && ProbeOutcomes(p, events, r.roundStart) == AllTrue(r.breaker.phase.successes)
    && r.breaker.phase.successes < Max(1, p.maxProbes)
    && (forall k :: r.roundStart < k <= |events| ==> HalfOpenAfter(p, events[..k]))
    && Legal(p, events[..r.roundStart]) && After(p, events[..r.roundStart]).breaker.phase.Open?
  }

  lemma {:induction false} HalfOpenIsARound(p: Policy, events: seq<Event>)
    requires Legal(p, events) && After(p, events).breaker.phase.HalfOpen?
    ensures InRound(p, events)
    decreases |events|
  {
    var front, e, r := events[..|events| - 1], events[|events| - 1], After(p, events);
    if After(p, front).breaker.phase.HalfOpen? {
      HalfOpenIsARound(p, front);
      assert front[..r.roundStart] == events[..r.roundStart];
      forall k | r.roundStart < k <= |events| ensures HalfOpenAfter(p, events[..k]) {
        if k == |events| { assert events[..k] == events; } else { assert front[..k] == events[..k]; }
      }
    } else {
      assert r.roundStart == |front| && events[..|events|] == events;
    }
  }

  /** Every return to Closed ends a half-open round, opened by an admission from Open, in which
      exactly max(1, maxProbes) probe outcomes were recorded, all successes. */
  lemma ClosesAfterFullRound(p: Policy, events: seq<Event>)
    requires Legal(p, events) && events != []
    requires After(p, events).breaker.phase.Closed? && !After(p, events[..|events| - 1]).breaker.phase.Closed?
    ensures var start := After(p, events).roundStart;
            && start < |events| - 1 && events[start].Admits?
            && Legal(p, events[..start]) && After(p, events[..start]).breaker.phase.Open?
            && (forall k :: start < k < |events| ==> HalfOpenAfter(p, events[..k]))
            && ProbeOutcomes(p, events, start) == AllTrue(Max(1, p.maxProbes))
  {
    var front := events[..|events| - 1];
    HalfOpenIsARound(p, front);
    var start := After(p, events).roundStart;
    assert front[..start] == events[..start];
    forall k | start < k < |events| ensures HalfOpenAfter(p, events[..k]) {
      assert front[..k] == events[..k];
    }
  }

  // ---- Every change of phase ----------------------------------------------------------

  /** Over all runs, the breaker opens exactly when, while Closed, an ordinary outcome fills the window and
      brings its failure ratio to the threshold, or, while half-open, a probe fails. */
  lemma OpensIff(p: Policy, events: seq<Event>)
    requires Legal(p, events) && events != []
    ensures var front, e := events[..|events| - 1], events[|events| - 1];
            var b := After(p, front).breaker;
            EntersOpen(p, events) <==>
              e.Records? && var probe := After(p, front).tickets[e.admit].probe;
              (b.phase.Closed? && !probe && FillsAndReaches(p, SinceClosed(p, front) + [e.ok])) ||
              (b.phase.HalfOpen? && probe && !e.ok)
  {
    var front := events[..|events| - 1];
    if After(p, front).breaker.phase.Closed? { ClosedTripsExactly(p, events); }
  }

  /** Over all runs, a half-open round begins exactly when an admission reads the deadline of an open breaker. */
  lemma HalfOpensIff(p: Policy, events: seq<Event>)
    requires Legal(p, events) && events != []
    ensures var front, e := events[..|events| - 1], events[|events| - 1];
            var b := After(p, front).breaker;
            After(p, events).breaker.phase.HalfOpen? && !b.phase.HalfOpen? <==>
              b.phase.Open? && e.Admits? && e.now >= b.phase.until
  {
    var front, e := events[..|events| - 1], events[|events| - 1];
    assert After(p, events) == Happen(p, After(p, front), |front|, e);
  }

  /** Over all runs, the breaker closes exactly when a probe success makes the successes of its half-open round
      max(1, maxProbes). */
  lemma ClosesIff(p: Policy, events: seq<Event>)
    requires Legal(p, events) && events != []
    ensures var front, e := events[..|events| - 1], events[|events| - 1];
            var r := After(p, front);
            After(p, events).breaker.phase.Closed? && !r.breaker.phase.Closed? <==>
              r.breaker.phase.HalfOpen? && e.Records? && r.tickets[e.admit].probe && e.ok &&
              |ProbeOutcomes(p, front, r.roundStart)| + 1 == Max(1, p.maxProbes)
  {
    var front, e := events[..|events| - 1], events[|events| - 1];
    assert After(p, events) == Happen(p, After(p, front), |front|, e);
    if After(p, front).breaker.phase.HalfOpen? { HalfOpenIsARound(p, front); }
  }

  /** In every state an admission is rejected exactly while the breaker is open and its deadline not read, or
      half-open with its probe budget out; otherwise it gets a ticket, a probe's unless the breaker is closed. */
  lemma AdmissionIs(p: Policy, b: State, now: nat)
    ensures var answer := Admit(p, b, now).1;
            && (answer.Reject? <==> (b.phase.Open? && now < b.phase.until) ||
                                    (b.phase.HalfOpen? && b.phase.inFlight >= p.maxProbes))
            && (answer.Proceed? ==> (answer.ticket.probe <==> !b.phase.Closed?))
  {
  }
}
