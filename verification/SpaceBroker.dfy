/** The write-pressure space broker: signallers add to one of two atomic counters and then notify;
    one broker task waits for a notification, takes both counters and republishes the ceiling. Each
    atomic operation and each notifier operation is one step. */
module SpaceBroker {
  import opened Basics

  const WORD: nat := 0x1_0000_0000_0000_0000
  type U64 = n: nat | n < 0x1_0000_0000_0000_0000

  /** `fetch_add` wraps. */
  function FetchAdd(a: U64, b: U64): U64 { if a + b < WORD then a + b else a + b - WORD }

  datatype Kind = Shortfall | Release

  /** Where the broker task stands in its loop. */
  datatype Phase =
    | Arriving    // about to wait for a notification
    | Parked      // registered as the waiter
    | Woken       // notified, demand not yet taken
    | Reclaiming  // demand taken, releases not yet
    | Restoring   // both taken, ceiling not yet republished

  /** One counter and its history: what was signalled in all, what the broker took, and how often an
      addition wrapped. */
  datatype Counter = Counter(pending: U64, signalled: nat, taken: nat, wraps: nat)

  function Add(c: Counter, amount: U64): Counter {
    Counter(FetchAdd(c.pending, amount), c.signalled + amount, c.taken,
            c.wraps + if c.pending + amount < WORD then 0 else 1)
  }

  function Swap(c: Counter): Counter { c.(pending := 0, taken := c.taken + c.pending) }

  /** `asked` lists the reclaim requests, `restores` counts the cache regrowths, and `stale` says space
      was moved since the ceiling was last published. */
  datatype State = State(
    demand: Counter, released: Counter, permit: bool, midway: map<nat, Kind>, phase: Phase,
    asked: seq<U64>, restores: nat, ceiling: U64, stale: bool)

  function Begin(used: U64, room: U64): State {
    var zero := Counter(0, 0, 0, 0);
    State(zero, zero, false, map[], Arriving, [], 0, SaturatingAdd(used, room), false)
  }

  datatype Step =
    | Signal(id: nat, kind: Kind, amount: U64)  // a handler's fetch_add
    | Notify(id: nat)                           // the same handler's notify_one
    | Wait                                      // the broker polls the notifier
    | TakeDemand | TakeReleased | Publish(used: U64, room: U64)

  predicate Enabled(s: State, x: Step) {
    match x
    case Signal(id, _, _) => id !in s.midway
    case Notify(id) => id in s.midway
    case Wait => s.phase.Arriving?
    case TakeDemand => s.phase.Woken?
    case TakeReleased => s.phase.Reclaiming?
    case Publish(_, _) => s.phase.Restoring?
  }

  /** `notify_one` hands the notification to the waiter, or stores the one permit. */
  function NotifyOne(s: State): State {
    if s.phase.Parked? then s.(phase := Woken) else s.(permit := true)
  }

  function Next(floor: U64, s: State, x: Step): State
    requires Enabled(s, x)
  {
    match x
    case Signal(id, kind, amount) =>
      var t := s.(midway := s.midway[id := kind]);
      if kind.Shortfall? then t.(demand := Add(s.demand, amount)) else t.(released := Add(s.released, amount))
    case Notify(id) => NotifyOne(s.(midway := s.midway - {id}))
    case Wait => if s.permit then s.(permit := false, phase := Woken) else s.(phase := Parked)
    case TakeDemand =>
      var wanted := s.demand.pending;
      var t := s.(demand := Swap(s.demand), phase := Reclaiming);
      if wanted > 0 then t.(asked := s.asked + [SaturatingAdd(wanted, floor)], stale := true) else t
    case TakeReleased =>
      var t := s.(released := Swap(s.released), phase := Restoring);
      if s.released.pending > 0 then t.(restores := s.restores + 1, stale := true) else t
    case Publish(used, room) => s.(phase := Arriving, ceiling := SaturatingAdd(used, room), stale := false)
  }

  /** The broker's configuration and its boot-time reading of the disk. */
  datatype Setup = Setup(floor: U64, used: U64, room: U64)

  predicate Legal(c: Setup, steps: seq<Step>)
    decreases |steps|, 0
  {
    steps == [] || (Legal(c, steps[..|steps| - 1]) && Enabled(After(c, steps[..|steps| - 1]), steps[|steps| - 1]))
  }

  function After(c: Setup, steps: seq<Step>): State
    requires Legal(c, steps)
    decreases |steps|, 1
  {
    if steps == [] then Begin(c.used, c.room)
    else Next(c.floor, After(c, steps[..|steps| - 1]), steps[|steps| - 1])
  }

  // ---- The invariant ------------------------------------------------------------------

  predicate Underway(s: State, k: Kind) { exists id :: id in s.midway && s.midway[id] == k }

  /** Something will still bring the broker to this round's, or a next round's, swap of the counter. */
  predicate Covered(s: State, k: Kind) {
    s.permit || s.phase.Woken? || (k.Release? && s.phase.Reclaiming?) || Underway(s, k)
  }

  predicate Conserved(c: Counter) { c.signalled == c.taken + c.pending + c.wraps * WORD }

  predicate Inv(s: State) {
    && (s.demand.pending > 0 ==> Covered(s, Shortfall))
    && (s.released.pending > 0 ==> Covered(s, Release))
    && Conserved(s.demand) && Conserved(s.released)
    && (s.phase.Parked? ==> !s.permit)
    && (s.stale ==> s.phase.Reclaiming? || s.phase.Restoring?)
    && (s.demand.taken > 0 <==> s.asked != []) && (s.released.taken > 0 <==> s.restores > 0)
  }

  lemma SignalKeepsCover(floor: U64, s: State, x: Step, k: Kind)
    requires Enabled(s, x) && x.Signal? && (x.kind == k || Covered(s, k))
    ensures Covered(Next(floor, s, x), k)
  {
    var t := Next(floor, s, x);
    if x.kind == k {
      assert x.id in t.midway && t.midway[x.id] == k;
    } else if Underway(s, k) {
      var id :| id in s.midway && s.midway[id] == k;
      assert id in t.midway && t.midway[id] == k;
    }
  }

  lemma OthersKeepCover(floor: U64, s: State, x: Step, k: Kind)
    requires Enabled(s, x) && !x.Signal? && Covered(s, k) && (s.phase.Parked? ==> !s.permit)
    requires !(k.Shortfall? && x.TakeDemand?) && !(k.Release? && x.TakeReleased?)
    ensures Covered(Next(floor, s, x), k)
  {
    var t := Next(floor, s, x);
    if !x.Notify? && Underway(s, k) {
      var id :| id in s.midway && s.midway[id] == k;
      assert id in t.midway && t.midway[id] == k;
    }
  }

  lemma AddConserves(c: Counter, amount: U64)
    requires Conserved(c)
    ensures Conserved(Add(c, amount))
  {
    if c.pending + amount >= WORD { assert (c.wraps + 1) * WORD == c.wraps * WORD + WORD; }
  }

  lemma StepKeeps(floor: U64, s: State, x: Step)
    requires Inv(s) && Enabled(s, x)
    ensures Inv(Next(floor, s, x))
  {
    if x.Signal? {
      AddConserves(s.demand, x.amount);
      AddConserves(s.released, x.amount);
      if x.kind.Shortfall? || s.demand.pending > 0 { SignalKeepsCover(floor, s, x, Shortfall); }
      if x.kind.Release? || s.released.pending > 0 { SignalKeepsCover(floor, s, x, Release); }
    } else {
      if s.demand.pending > 0 && !x.TakeDemand? { OthersKeepCover(floor, s, x, Shortfall); }
      if s.released.pending > 0 && !x.TakeReleased? { OthersKeepCover(floor, s, x, Release); }
    }
  }

  lemma {:induction false} RunKeeps(c: Setup, steps: seq<Step>)
    requires Legal(c, steps)
    ensures Inv(After(c, steps))
    decreases |steps|
  {
    if steps != [] {
      RunKeeps(c, steps[..|steps| - 1]);
      StepKeeps(c.floor, After(c, steps[..|steps| - 1]), steps[|steps| - 1]);
    }
  }

  // ---- No signal is lost --------------------------------------------------------------

  /** In every interleaving, a counter that holds something has a wake-up stored, a signaller of its
      own kind that has yet to notify, or a broker that has yet to make this round's swap of it. */
  lemma NoSignalLost(c: Setup, steps: seq<Step>)
    requires Legal(c, steps)
    ensures After(c, steps).demand.pending > 0 ==> Covered(After(c, steps), Shortfall)
    ensures After(c, steps).released.pending > 0 ==> Covered(After(c, steps), Release)
  {
    RunKeeps(c, steps);
  }

  /** What was signalled is what was taken, what is pending and one word per wrapped addition. */
  lemma SignalsAreConserved(c: Setup, steps: seq<Step>)
    requires Legal(c, steps)
    ensures Conserved(After(c, steps).demand) && Conserved(After(c, steps).released)
    ensures After(c, steps).demand.signalled == SignalledBy(steps, Shortfall)
    ensures After(c, steps).released.signalled == SignalledBy(steps, Release)
  {
    RunKeeps(c, steps);
    SignalledIsSum(c, steps, Shortfall);
    SignalledIsSum(c, steps, Release);
  }

  function CounterOf(s: State, k: Kind): Counter { match k case Shortfall => s.demand case Release => s.released }

  /** What a step adds to the counter of a kind. */
  function Added(x: Step, k: Kind): nat { if x.Signal? && x.kind == k then x.amount else 0 }

  /** The step takes the counter of this kind. */
  predicate Takes(x: Step, k: Kind) { match k case Shortfall => x.TakeDemand? case Release => x.TakeReleased? }

  /** The bytes signalled since the counter of this kind was last taken. */
  function SinceTaken(steps: seq<Step>, k: Kind): nat {
    if steps == [] || Takes(steps[|steps| - 1], k) then 0
    else SinceTaken(steps[..|steps| - 1], k) + Added(steps[|steps| - 1], k)
  }

  /** At no moment of the run were 2^64 bytes or more signalled since the counter was last taken. */
  predicate AlwaysFits(steps: seq<Step>, k: Kind) {
    steps == [] || (AlwaysFits(steps[..|steps| - 1], k) && SinceTaken(steps, k) < WORD)
  }

  lemma {:induction false} AlwaysFitsIff(steps: seq<Step>, k: Kind)
    ensures AlwaysFits(steps, k) <==> forall n :: 0 <= n <= |steps| ==> SinceTaken(steps[..n], k) < WORD
    decreases |steps|
  {
    assert steps[..|steps|] == steps;
    if steps != [] {
      var front := steps[..|steps| - 1];
      AlwaysFitsIff(front, k);
      assert forall n :: 0 <= n <= |front| ==> front[..n] == steps[..n];
    }
  }

  /** Everything the steps signalled of a kind. */
  function SignalledBy(steps: seq<Step>, k: Kind): nat {
    if steps == [] then 0 else SignalledBy(steps[..|steps| - 1], k) + Added(steps[|steps| - 1], k)
  }

  lemma {:induction false} SignalledIsSum(c: Setup, steps: seq<Step>, k: Kind)
    requires Legal(c, steps)
    ensures CounterOf(After(c, steps), k).signalled == SignalledBy(steps, k)
    decreases |steps|
  {
    if steps != [] {
      SignalledIsSum(c, steps[..|steps| - 1], k);
      CounterMoves(c.floor, After(c, steps[..|steps| - 1]), steps[|steps| - 1], k);
    }
  }

  /** How a step moves one counter. */
  lemma CounterMoves(floor: U64, s: State, x: Step, k: Kind)
    requires Enabled(s, x)
    ensures CounterOf(Next(floor, s, x), k) ==
            if Takes(x, k) then Swap(CounterOf(s, k))
            else if x.Signal? && x.kind == k then Add(CounterOf(s, k), x.amount)
            else CounterOf(s, k)
  {
  }

  lemma AddModulo(pending: U64, since: nat, amount: U64)
    requires pending == since % WORD
    ensures FetchAdd(pending, amount) == (since + amount) % WORD
  {
    var q := since / WORD;
    assert since == q * WORD + pending;
    if pending + amount < WORD {
      ModuloOf(since + amount, q, pending + amount);
    } else {
      ModuloOf(since + amount, q + 1, pending + amount - WORD);
    }
  }

  lemma ModuloOf(n: nat, q: nat, r: U64)
    requires n == q * WORD + r
    ensures n % WORD == r
  {
  }

  /** In every run the broker finds what was signalled since its last swap, modulo 2^64. */
  lemma {:induction false} PendingIsSinceTaken(c: Setup, steps: seq<Step>, k: Kind)
    requires Legal(c, steps)
    ensures CounterOf(After(c, steps), k).pending == SinceTaken(steps, k) % WORD
    decreases |steps|
  {
    if steps != [] {
      var front, x := steps[..|steps| - 1], steps[|steps| - 1];
      PendingIsSinceTaken(c, front, k);
      CounterMoves(c.floor, After(c, front), x, k);
      if x.Signal? && x.kind == k { AddModulo(CounterOf(After(c, front), k).pending, SinceTaken(front, k), x.amount); }
    }
  }

  lemma {:induction false} NoWrapIff(c: Setup, steps: seq<Step>, k: Kind)
    requires Legal(c, steps)
    ensures CounterOf(After(c, steps), k).wraps == 0 <==> AlwaysFits(steps, k)
    ensures AlwaysFits(steps, k) ==> CounterOf(After(c, steps), k).pending == SinceTaken(steps, k)
    decreases |steps|
  {
    if steps != [] {
      var front, x := steps[..|steps| - 1], steps[|steps| - 1];
      NoWrapIff(c, front, k);
      CounterMoves(c.floor, After(c, front), x, k);
    }
  }

  /** Over every run and for either kind of signal: what was taken and what is pending make up everything
      signalled if and only if 2^64 bytes were never signalled between two swaps of the counter. */
  lemma NothingVanishesIff(c: Setup, steps: seq<Step>, k: Kind)
    requires Legal(c, steps)
    ensures var d := CounterOf(After(c, steps), k);
            SignalledBy(steps, k) == d.taken + d.pending <==> AlwaysFits(steps, k)
  {
    RunKeeps(c, steps);
    SignalledIsSum(c, steps, k);
    NoWrapIff(c, steps, k);
    WrapsCost(CounterOf(After(c, steps), k));
  }

  lemma WrapsCost(c: Counter)
    requires Conserved(c)
    ensures c.wraps > 0 ==> c.signalled >= WORD + c.taken + c.pending
  {
    if c.wraps > 0 { assert c.wraps * WORD == (c.wraps - 1) * WORD + WORD && (c.wraps - 1) * WORD >= 0; }
  }

  lemma OneMore(c: Setup, steps: seq<Step>, x: Step)
    requires Legal(c, steps) && Enabled(After(c, steps), x)
    ensures Legal(c, steps + [x]) && After(c, steps + [x]) == Next(c.floor, After(c, steps), x)
  {
    assert (steps + [x])[..|steps|] == steps;
  }

  /** Two signals that together make a whole word leave nothing pending. */
  lemma WrappedSignalsVanish(c: Setup, k: Kind, a: U64)
    requires a > 0
    ensures var run := [] + [Signal(0, k, a)] + [Signal(1, k, WORD - a)];
            && Legal(c, run) && CounterOf(After(c, run), k).pending == 0
            && CounterOf(After(c, run), k).signalled == WORD && !AlwaysFits(run, k)
  {
    var one := [] + [Signal(0, k, a)];
    OneMore(c, [], Signal(0, k, a));
    OneMore(c, one, Signal(1, k, WORD - a));
    NothingVanishesIff(c, one + [Signal(1, k, WORD - a)], k);
  }

  function Sum(a: seq<U64>): nat { if a == [] then 0 else Sum(a[..|a| - 1]) + a[|a| - 1] }

  lemma SumAppend(a: seq<U64>, x: U64)
    ensures Sum(a + [x]) == Sum(a) + x
  {
    assert (a + [x])[..|a|] == a;
  }

  predicate Asked(s: State, floor: U64) { Sum(s.asked) == s.demand.taken + |s.asked| * floor }

  lemma TakeDemandAsks(floor: U64, s: State)
    requires Enabled(s, TakeDemand) && Asked(s, floor) && s.demand.pending + floor < WORD
    ensures Asked(Next(floor, s, TakeDemand), floor)
  {
    if s.demand.pending > 0 {
      SumAppend(s.asked, SaturatingAdd(s.demand.pending, floor));
      assert (|s.asked| + 1) * floor == |s.asked| * floor + floor;
    }
  }

  lemma OtherStepsAsk(floor: U64, s: State, x: Step)
    requires Enabled(s, x) && Asked(s, floor) && (x.TakeDemand? ==> s.demand.pending + floor < WORD)
    ensures Asked(Next(floor, s, x), floor)
  {
    if x.TakeDemand? { TakeDemandAsks(floor, s); }
  }

  lemma SignalledGrows(floor: U64, s: State, x: Step)
    requires Enabled(s, x)
    ensures s.demand.signalled <= Next(floor, s, x).demand.signalled
  {
    CounterMoves(floor, s, x, Shortfall);
  }

  /** Unless the word is too small for all of it, the cache is asked for exactly the demand taken and
      one floor for every round that found demand. */
  lemma {:induction false} ReclaimsCoverDemand(c: Setup, steps: seq<Step>)
    requires Legal(c, steps) && After(c, steps).demand.signalled + c.floor < WORD
    ensures Asked(After(c, steps), c.floor)
    decreases |steps|
  {
    if steps != [] {
      var front, x := steps[..|steps| - 1], steps[|steps| - 1];
      var s := After(c, front);
      SignalledGrows(c.floor, s, x);
      ReclaimsCoverDemand(c, front);
      SignalsAreConserved(c, front);
      WrapsCost(s.demand);
      OtherStepsAsk(c.floor, s, x);
    }
  }

  // ---- Progress -----------------------------------------------------------------------

  function PhaseWork(p: Phase): nat {
    match p case Parked => 0 case Arriving => 1 case Restoring => 2 case Reclaiming => 3 case Woken => 4
  }

  function Work(s: State): nat { 6 * |s.midway| + (if s.permit then 5 else 0) + PhaseWork(s.phase) }

  /** Every step but a new signal uses work up, so between signals the broker comes to rest. */
  lemma StepsUseWork(floor: U64, s: State, x: Step)
    requires Inv(s) && Enabled(s, x) && !x.Signal?
    ensures Work(Next(floor, s, x)) < Work(s)
  {
    if x.Notify? {
      var rest := s.midway - {x.id};
      assert rest.Keys == s.midway.Keys - {x.id};
      assert |rest.Keys| == |s.midway.Keys| - 1;
      assert |rest| == |rest.Keys| && |s.midway| == |s.midway.Keys|;
    }
  }

  /** No step but a new signal is possible. */
  predicate AtRest(s: State) { s.phase.Parked? && s.midway == map[] }

  /** Until it rests, the system has a step of its own to make. */
  lemma NeverStuck(s: State) returns (x: Step)
    requires !AtRest(s)
    ensures Enabled(s, x) && !x.Signal?
  {
    match s.phase
    case Parked =>
      assert s.midway.Keys != {};
      var id :| id in s.midway;
      x := Notify(id);
    case Arriving => x := Wait;
    case Woken => x := TakeDemand;
    case Reclaiming => x := TakeReleased;
    case Restoring => x := Publish(0, 0);
  }

  lemma {:induction false} PrefixLegal(c: Setup, run: seq<Step>, k: nat)
    requires Legal(c, run) && k <= |run|
    ensures Legal(c, run[..k])
    decreases |run|
  {
    if k == |run| {
      assert run[..k] == run;
    } else {
      PrefixLegal(c, run[..|run| - 1], k);
      assert run[..|run| - 1][..k] == run[..k];
    }
  }

  lemma LastUsesWork(c: Setup, run: seq<Step>)
    requires Legal(c, run) && run != [] && !run[|run| - 1].Signal?
    ensures Legal(c, run[..|run| - 1]) && Work(After(c, run)) < Work(After(c, run[..|run| - 1]))
  {
    RunKeeps(c, run[..|run| - 1]);
    StepsUseWork(c.floor, After(c, run[..|run| - 1]), run[|run| - 1]);
  }

  /** However the steps are ordered, a stretch without new signals is no longer than the work at its start. */
  lemma {:induction false} StretchesWithoutSignalsEnd(c: Setup, run: seq<Step>, k: nat)
    requires Legal(c, run) && k <= |run| && (forall i :: k <= i < |run| ==> !run[i].Signal?)
    ensures Legal(c, run[..k]) && |run| - k + Work(After(c, run)) <= Work(After(c, run[..k]))
    decreases |run|
  {
    PrefixLegal(c, run, k);
    if k == |run| {
      assert run[..k] == run;
    } else {
      LastUsesWork(c, run);
      StretchesWithoutSignalsEnd(c, run[..|run| - 1], k);
      assert run[..|run| - 1][..k] == run[..k];
    }
  }

  /** At rest, both counters are empty, every signalled byte was taken (but for wrapped words) and the
      published ceiling is newer than the last space that moved. */
  lemma RestIsDrained(c: Setup, steps: seq<Step>)
    requires Legal(c, steps) && AtRest(After(c, steps))
    ensures var s := After(c, steps);
            s.demand.pending == 0 && s.released.pending == 0 && !s.stale &&
            (s.demand.taken > 0 <==> s.asked != []) && (s.released.taken > 0 <==> s.restores > 0) &&
            s.demand.signalled == s.demand.taken + s.demand.wraps * WORD &&
            s.released.signalled == s.released.taken + s.released.wraps * WORD
  {
    RunKeeps(c, steps);
  }

  /** The disk readings behind the ceiling: those of the last publication, or those at boot. */
  function LastReading(c: Setup, steps: seq<Step>): (U64, U64) {
    if steps == [] then (c.used, c.room)
    else match steps[|steps| - 1]
      case Publish(used, room) => (used, room)
      case _ => LastReading(c, steps[..|steps| - 1])
  }

  /** Nothing but a publication moves the ceiling, and it publishes what it read. */
  lemma {:induction false} CeilingIsLatest(c: Setup, steps: seq<Step>)
    requires Legal(c, steps)
    ensures var (used, room) := LastReading(c, steps);
            After(c, steps).ceiling == if used + room < WORD then used + room else WORD - 1
    decreases |steps|
  {
    if steps != [] { CeilingIsLatest(c, steps[..|steps| - 1]); }
  }

  // ---- The handlers and the loop body -------------------------------------------------

  /** The shared cells of the broker, and where its task stands. Each method makes the steps of the same
      name; `s` is the state of the run they are made in. */
  class Cells {
    var demand: U64
    var released: U64
    var permit: bool
    var phase: Phase
    var ceiling: U64

    ghost predicate Shows(s: State)
      reads this
    {
      demand == s.demand.pending && released == s.released.pending && permit == s.permit && phase == s.phase &&
      ceiling == s.ceiling
    }

    /** The cells at boot, with a ceiling already published. */
    constructor (used: U64, room: U64)
      ensures Shows(Begin(used, room))
    {
      demand, released, permit, phase, ceiling := 0, 0, false, Arriving, SaturatingAdd(used, room);
    }

    method WakeOne(ghost s: State)
      requires Shows(s)
      modifies this`permit, this`phase
      ensures Shows(NotifyOne(s))
    {
      if phase.Parked? { phase := Woken; } else { permit := true; }
    }

    method OnShortfall(deficit: U64, ghost s: State, ghost id: nat, ghost floor: U64) returns (ghost t: State)
      requires Shows(s) && id !in s.midway
      modifies this
      ensures t == Next(floor, Next(floor, s, Signal(id, Shortfall, deficit)), Notify(id)) && Shows(t)
    {
      demand := FetchAdd(demand, deficit);
      t := Next(floor, s, Signal(id, Shortfall, deficit));
      WakeOne(t.(midway := t.midway - {id}));
      t := Next(floor, t, Notify(id));
    }

    method OnRelease(bytes: U64, ghost s: State, ghost id: nat, ghost floor: U64) returns (ghost t: State)
      requires Shows(s) && id !in s.midway
      modifies this
      ensures t == Next(floor, Next(floor, s, Signal(id, Release, bytes)), Notify(id)) && Shows(t)
    {
      released := FetchAdd(released, bytes);
      t := Next(floor, s, Signal(id, Release, bytes));
      WakeOne(t.(midway := t.midway - {id}));
      t := Next(floor, t, Notify(id));
    }

    /** The broker polls the notifier: it takes the permit, or waits. */
    method Notified(ghost s: State, ghost floor: U64) returns (awake: bool)
      requires Shows(s) && s.phase.Arriving?
      modifies this`permit, this`phase
      ensures Shows(Next(floor, s, Wait)) && (awake <==> phase.Woken?) && (awake <==> s.permit)
    {
      awake := permit;
      if permit { permit, phase := false, Woken; } else { phase := Parked; }
    }

    /** The rest of one round, with no signal in between: what is asked of the cache (0 for nothing), and the
        new ceiling. `reserved` is what fragments use when space is given back; `used` and `room` are read
        once the cache has moved. */
    method Round(floor: U64, reserved: U64, used: U64, room: U64, ghost s: State)
      returns (reclaim: U64, restore: bool, reserve: U64, ghost t: State)
      requires Shows(s) && s.phase.Woken?
      modifies this
      ensures t == Next(floor, Next(floor, Next(floor, s, TakeDemand), TakeReleased), Publish(used, room)) && Shows(t)
      ensures t.asked == if reclaim > 0 then s.asked + [reclaim] else s.asked
      ensures restore <==> t.restores == s.restores + 1
      ensures reserve >= reserved && reserve >= floor && (reserved + floor < WORD ==> reserve == reserved + floor)
    {
      t := Next(floor, Next(floor, Next(floor, s, TakeDemand), TakeReleased), Publish(used, room));
      var wanted := demand;
      demand, reclaim, phase := 0, 0, Reclaiming;
      if wanted > 0 { reclaim := SaturatingAdd(wanted, floor); }
      restore, released, phase := released > 0, 0, Restoring;
      reserve := SaturatingAdd(reserved, floor);
      ceiling, phase := SaturatingAdd(used, room), Arriving;
    }
  }
}
