/** Group commit: object commits that queue for a consensus group behind an entry in flight share the
    entry after it, so batches form without any waiting of their own.

    The two lock-protected sections of the protocol are functions on a group's queue.
    `ObjectCommitBatcher` runs them on its own fields; the step system below interleaves
    them for any number of callers, groups and drain tasks. */
module GroupCommit {
  import opened Basics

  type Group = string

  datatype StagedObject = StagedObject(objectId: string)

  datatype Outcome = Committed(index: nat) | Refused(error: string)

  /** One queued commit. `reply` names the caller's reply channel: its arrival number
      within the group. */
  datatype Pending = Pending(staged: StagedObject, reply: nat)

  datatype GroupBatch = GroupBatch(items: seq<Pending>, draining: bool)

  const IdleBatch: GroupBatch := GroupBatch([], false)

  // ---- The two critical sections -------------------------------------------------

  /** The locked section of `commit`: push, and take the group if it is idle. */
  function Enqueue(b: GroupBatch, p: Pending): GroupBatch {
    GroupBatch(b.items + [p], true)
  }

  /** How many items one pass of `drain_group` takes. */
  function TakeCount(b: GroupBatch, maxBatch: nat): nat { Min(|b.items|, maxBatch) }

  /** The locked section of `drain_group`: clear the flag on an empty queue, otherwise
      take the longest allowed prefix. */
  function TakeBatch(b: GroupBatch, maxBatch: nat): GroupBatch {
    if b.items == [] then b.(draining := false) else b.(items := b.items[TakeCount(b, maxBatch)..])
  }

  // ---- One group's tasks and history ---------------------------------------------

  /** A caller of `commit`. `Spawning`: it found the group idle and is between releasing
      the lock and spawning the drain. `Abandoned`: its future was dropped. */
  datatype Caller = Spawning | Waiting | Done(outcome: Outcome) | Abandoned

  /** Where a drain task stands in its loop. */
  datatype Drain =
    | Locking
    | Submitting(batch: seq<Pending>)
    | Replying(batch: seq<Pending>, outcome: Outcome, sent: nat)

  /** A log entry the submitter has answered. */
  datatype Entry = Entry(batch: seq<Pending>, outcome: Outcome)

  /** Callers are numbered by arrival; a drain task is named by the caller that spawned it.
      `arrivals` and `entries` are history. */
  datatype Lane = Lane(batch: GroupBatch, callers: seq<Caller>, drains: map<nat, Drain>,
                       arrivals: seq<Pending>, entries: seq<Entry>)

  const EmptyLane: Lane := Lane(IdleBatch, [], map[], [], [])

  datatype Action =
    | Commit(staged: StagedObject)        // locked section of commit
    | Spawn(caller: nat)                  // tokio::spawn(drain_group)
    | Take(task: nat)                     // locked section of drain_group
    | Return(task: nat, outcome: Outcome) // submit_batch answers
    | Send(task: nat)                     // one reply.send
    | Loop(task: nat)                     // all replies are sent
    | Abandon(caller: nat)                // a caller's future is dropped

  predicate Enabled(l: Lane, a: Action) {
    match a
    case Commit(_) => true
    case Spawn(c) => c < |l.callers| && l.callers[c].Spawning?
    case Take(t) => t in l.drains && l.drains[t].Locking?
    case Return(t, _) => t in l.drains && l.drains[t].Submitting?
    case Send(t) => t in l.drains && l.drains[t].Replying? && l.drains[t].sent < |l.drains[t].batch|
    case Loop(t) => t in l.drains && l.drains[t].Replying? && l.drains[t].sent >= |l.drains[t].batch|
    case Abandon(c) => c < |l.callers| && l.callers[c].Waiting?
  }

  /** Delivers an outcome; a dropped receiver makes the send a no-op. */
  function Deliver(callers: seq<Caller>, reply: nat, o: Outcome): seq<Caller> {
    if reply < |callers| && callers[reply].Waiting? then callers[reply := Done(o)] else callers
  }

  function Act(l: Lane, a: Action, maxBatch: nat): Lane
    requires Enabled(l, a)
  {
    match a
    case Commit(staged) =>
      var p := Pending(staged, |l.callers|);
      l.(batch := Enqueue(l.batch, p), arrivals := l.arrivals + [p],
         callers := l.callers + [if l.batch.draining then Waiting else Spawning])
    case Spawn(c) =>
      l.(callers := l.callers[c := Waiting], drains := l.drains[c := Locking])
    case Take(t) =>
      l.(batch := TakeBatch(l.batch, maxBatch),
         drains := if l.batch.items == [] then l.drains - {t}
                   else l.drains[t := Submitting(l.batch.items[..TakeCount(l.batch, maxBatch)])])
    case Return(t, o) =>
      var b := l.drains[t].batch;
      l.(drains := l.drains[t := Replying(b, o, 0)], entries := l.entries + [Entry(b, o)])
    case Send(t) =>
      var d := l.drains[t];
      l.(drains := l.drains[t := d.(sent := d.sent + 1)],
         callers := Deliver(l.callers, d.batch[d.sent].reply, d.outcome))
    case Loop(t) => l.(drains := l.drains[t := Locking])
    case Abandon(c) => l.(callers := l.callers[c := Abandoned])
  }

  // ---- All groups, and runs ---------------------------------------------------------

  type State = map<Group, Lane>

  datatype Step = Step(group: Group, action: Action)

  function LaneOf(s: State, g: Group): Lane {
    if g in s then s[g] else EmptyLane
  }

  function Next(s: State, step: Step, maxBatch: nat): State
    requires Enabled(LaneOf(s, step.group), step.action)
  {
    s[step.group := Act(LaneOf(s, step.group), step.action, maxBatch)]
  }

  /** `steps` can be taken one after another from `s`. */
  predicate Legal(s: State, steps: seq<Step>, maxBatch: nat)
    decreases |steps|, 0
  {
    steps == [] ||
    (var (front, last) := (steps[..|steps| - 1], steps[|steps| - 1]);
     Legal(s, front, maxBatch) && Enabled(LaneOf(After(s, front, maxBatch), last.group), last.action))
  }

  function After(s: State, steps: seq<Step>, maxBatch: nat): State
    requires Legal(s, steps, maxBatch)
    decreases |steps|, 1
  {
    if steps == [] then s
    else Next(After(s, steps[..|steps| - 1], maxBatch), steps[|steps| - 1], maxBatch)
  }

  // ---- What a lane owes its callers ----------------------------------------------

  /** Everything the submitter has answered for, in submission order. */
  function Submitted(entries: seq<Entry>): seq<Pending> {
    if entries == [] then [] else Submitted(entries[..|entries| - 1]) + entries[|entries| - 1].batch
  }

  /** The outcome that decided the i-th submitted commit: that of the entry carrying it. */
  function Outcomes(entries: seq<Entry>): (r: seq<Outcome>)
    ensures |r| == |Submitted(entries)|
  {
    if entries == [] then []
    else
      var e := entries[|entries| - 1];
      Outcomes(entries[..|entries| - 1]) + seq(|e.batch|, _ => e.outcome)
  }

  /** `t` holds the group's right to drain: a drain task, or a caller about to spawn one. */
  predicate Owns(l: Lane, t: nat) {
    t in l.drains || (t < |l.callers| && l.callers[t].Spawning?)
  }

  ghost predicate AtMostOneOwner(l: Lane) {
    forall t, u :: Owns(l, t) && Owns(l, u) ==> t == u
  }

  /** The `draining` flag is set exactly while one task owns the group. */
  ghost predicate SoleOwner(l: Lane) {
    && AtMostOneOwner(l)
    && (l.batch.draining <==> exists t :: Owns(l, t))
    && (forall t :: t in l.drains ==> t < |l.callers| && !l.callers[t].Spawning?)
  }

  /** Where the lane's drain stands; a lane without a started drain counts as `Locking`. */
  ghost function DrainOf(l: Lane): Drain {
    if l.drains == map[] then Locking
    else var t :| t in l.drains; l.drains[t]
  }

  /** Taken from the queue, not yet answered by the submitter. */
  function InFlight(d: Drain): seq<Pending> {
    if d.Submitting? then d.batch else []
  }

  /** Answered by the submitter, reply not yet sent. */
  function Unsent(d: Drain): nat {
    if d.Replying? && d.sent <= |d.batch| then |d.batch| - d.sent else 0
  }

  ghost predicate WellBatched(entries: seq<Entry>, d: Drain, maxBatch: nat) {
    && (forall k :: 0 <= k < |entries| ==> 1 <= |entries[k].batch| <= maxBatch)
    && (d.Submitting? ==> 1 <= |d.batch| <= maxBatch)
    && (d.Replying? ==> d.sent <= |d.batch| && entries != [] && Entry(d.batch, d.outcome) == entries[|entries| - 1])
  }

  /** Arrival order is kept: answered, then in flight, then queued. */
  ghost predicate InOrder(entries: seq<Entry>, d: Drain, items: seq<Pending>, arrivals: seq<Pending>) {
    && (forall i :: 0 <= i < |arrivals| ==> arrivals[i].reply == i)
    && Submitted(entries) + InFlight(d) + items == arrivals
  }

  /** A caller is answered exactly when its commit is decided and its reply was sent,
      and then with the outcome of the entry that carried it. */
  ghost predicate Answered(entries: seq<Entry>, d: Drain, callers: seq<Caller>) {
    forall i :: 0 <= i < |callers| ==>
      if i < |Outcomes(entries)| - Unsent(d)
      then callers[i].Abandoned? || callers[i] == Done(Outcomes(entries)[i])
      else !callers[i].Done?
  }

  ghost predicate Content(l: Lane, d: Drain, maxBatch: nat) {
    && |l.callers| == |l.arrivals|
    && WellBatched(l.entries, d, maxBatch)
    && InOrder(l.entries, d, l.batch.items, l.arrivals)
    && Answered(l.entries, d, l.callers)
  }

  ghost predicate LaneInv(l: Lane, maxBatch: nat) {
    && SoleOwner(l)
    && (l.batch.items != [] ==> l.batch.draining)
    && Content(l, DrainOf(l), maxBatch)
  }

  ghost predicate Inv(s: State, maxBatch: nat) {
    forall g :: LaneInv(LaneOf(s, g), maxBatch)
  }

  // ---- Ownership of the drain -------------------------------------------------------

  lemma DrainIs(l: Lane, t: nat)
    requires AtMostOneOwner(l) && t in l.drains
    ensures DrainOf(l) == l.drains[t]
  {
    var u :| u in l.drains && DrainOf(l) == l.drains[u];
    assert Owns(l, t) && Owns(l, u);
  }

  /** While a caller is about to spawn the drain, no drain runs. */
  lemma NoDrainYet(l: Lane, c: nat)
    requires SoleOwner(l) && c < |l.callers| && l.callers[c].Spawning?
    ensures l.drains == map[]
  {
    assert Owns(l, c);
    if t :| t in l.drains { assert Owns(l, t); }
  }

  lemma OwnershipKept(l: Lane, a: Action, maxBatch: nat)
    requires SoleOwner(l) && Enabled(l, a)
    ensures SoleOwner(Act(l, a, maxBatch))
  {
    var l' := Act(l, a, maxBatch);
    match a {
      case Commit(_) =>
        assert forall t :: Owns(l', t) <==> Owns(l, t) || (t == |l.callers| && !l.batch.draining);
        assert l.batch.draining || Owns(l', |l.callers|);
      case Spawn(c) =>
        NoDrainYet(l, c);
        assert Owns(l, c) && forall t :: Owns(l', t) <==> Owns(l, t);
      case Take(t) =>
        assert Owns(l, t);
        forall u ensures Owns(l', u) <==> Owns(l, u) && l.batch.items != [] {
          if Owns(l, u) { assert u == t; }
        }
      case _ => assert forall u :: Owns(l', u) <==> Owns(l, u);
    }
  }

  // ---- Order, batch sizes and replies -----------------------------------------------

  lemma QueueOnlyWhileDraining(l: Lane, a: Action, maxBatch: nat)
    requires LaneInv(l, maxBatch) && Enabled(l, a)
    ensures var l' := Act(l, a, maxBatch); l'.batch.items != [] ==> l'.batch.draining
  {
  }

  /** A caller's push extends the arrivals and leaves the drain where it was. */
  lemma CommitKeeps(l: Lane, staged: StagedObject, d: Drain, maxBatch: nat)
    requires Content(l, d, maxBatch)
    ensures Content(Act(l, Commit(staged), maxBatch), d, maxBatch)
  {
    var p := Pending(staged, |l.callers|);
    assert Submitted(l.entries) + InFlight(d) + (l.batch.items + [p]) == l.arrivals + [p];
    assert |Submitted(l.entries)| <= |l.arrivals|;
  }

  lemma TakeKeeps(l: Lane, t: nat, maxBatch: nat)
    requires maxBatch >= 1 && Enabled(l, Take(t)) && l.batch.items != []
    requires Content(l, l.drains[t], maxBatch)
    ensures var l' := Act(l, Take(t), maxBatch); Content(l', l'.drains[t], maxBatch)
  {
    var items, n := l.batch.items, TakeCount(l.batch, maxBatch);
    assert items[..n] + items[n..] == items;
    assert Submitted(l.entries) + items[..n] + items[n..] == Submitted(l.entries) + [] + items;
  }

  lemma EntryAppends(entries: seq<Entry>, e: Entry)
    ensures Submitted(entries + [e]) == Submitted(entries) + e.batch
    ensures Outcomes(entries + [e]) == Outcomes(entries) + seq(|e.batch|, _ => e.outcome)
  {
    assert (entries + [e])[..|entries|] == entries;
  }

  /** An answered entry changes nobody's reply until its replies are sent. */
  lemma ReturnAnswersNobody(entries: seq<Entry>, callers: seq<Caller>, b: seq<Pending>, o: Outcome)
    requires Answered(entries, Submitting(b), callers)
    ensures Answered(entries + [Entry(b, o)], Replying(b, o, 0), callers)
  {
    EntryAppends(entries, Entry(b, o));
    var now := Outcomes(entries + [Entry(b, o)]);
    assert |now| - |b| == |Outcomes(entries)| && now[..|Outcomes(entries)|] == Outcomes(entries);
  }

  lemma ReturnKeepsOrder(entries: seq<Entry>, b: seq<Pending>, o: Outcome, items: seq<Pending>, arrivals: seq<Pending>)
    requires InOrder(entries, Submitting(b), items, arrivals)
    ensures InOrder(entries + [Entry(b, o)], Replying(b, o, 0), items, arrivals)
  {
    EntryAppends(entries, Entry(b, o));
    assert (Submitted(entries) + b) + [] + items == Submitted(entries) + b + items;
  }

  lemma ReturnKeeps(l: Lane, t: nat, o: Outcome, maxBatch: nat)
    requires Enabled(l, Return(t, o)) && Content(l, l.drains[t], maxBatch)
    ensures var l' := Act(l, Return(t, o), maxBatch); Content(l', l'.drains[t], maxBatch)
  {
    var b := l.drains[t].batch;
    ReturnKeepsOrder(l.entries, b, o, l.batch.items, l.arrivals);
    ReturnAnswersNobody(l.entries, l.callers, b, o);
  }

  /** The next reply to send is the oldest unanswered caller's, and its outcome is that of
      the entry which carried it. */
  lemma NextReply(l: Lane, t: nat, maxBatch: nat)
    requires Enabled(l, Send(t)) && Content(l, l.drains[t], maxBatch)
    ensures var d := l.drains[t];
            var i := |Outcomes(l.entries)| - Unsent(d);
            0 <= i < |l.callers| && d.batch[d.sent].reply == i && Outcomes(l.entries)[i] == d.outcome
  {
    var d, n := l.drains[t], |l.entries| - 1;
    var i := |Submitted(l.entries[..n])| + d.sent;
    assert Submitted(l.entries)[i] == d.batch[d.sent] == l.arrivals[i];
  }

  lemma SendKeeps(l: Lane, t: nat, maxBatch: nat)
    requires SoleOwner(l) && Enabled(l, Send(t)) && Content(l, l.drains[t], maxBatch)
    ensures var l' := Act(l, Send(t), maxBatch); Content(l', l'.drains[t], maxBatch)
  {
    NextReply(l, t, maxBatch);
    var c := l.drains[t].batch[l.drains[t].sent].reply;
    if l.callers[c].Spawning? { NoDrainYet(l, c); }
  }

  /** A caller that comes or goes leaves the drain where it was. */
  lemma DrainUnmoved(l: Lane, l': Lane)
    requires SoleOwner(l) && SoleOwner(l') && l'.drains == l.drains
    ensures DrainOf(l') == DrainOf(l)
  {
    if t :| t in l.drains { DrainIs(l, t); DrainIs(l', t); }
  }

  /** A caller without an answer has none afterwards, and one that left stays away. */
  predicate StillOwed(c: Caller, c': Caller) {
    c' == c || (!c.Done? && !c'.Done? && (c.Abandoned? ==> c'.Abandoned?))
  }

  lemma SameAnswers(entries: seq<Entry>, d: Drain, d': Drain, callers: seq<Caller>, callers': seq<Caller>)
    requires Answered(entries, d, callers) && Unsent(d') == Unsent(d) && |callers'| == |callers|
    requires forall i :: 0 <= i < |callers| ==> StillOwed(callers[i], callers'[i])
    ensures Answered(entries, d', callers')
  {
  }

  lemma AbandonContent(l: Lane, c: nat, maxBatch: nat)
    requires LaneInv(l, maxBatch) && Enabled(l, Abandon(c)) && SoleOwner(Act(l, Abandon(c), maxBatch))
    ensures var l' := Act(l, Abandon(c), maxBatch); Content(l', DrainOf(l'), maxBatch)
  {
    var l' := Act(l, Abandon(c), maxBatch);
    DrainUnmoved(l, l');
    SameAnswers(l.entries, DrainOf(l), DrainOf(l), l.callers, l'.callers);
  }

  lemma SpawnContent(l: Lane, c: nat, maxBatch: nat)
    requires LaneInv(l, maxBatch) && Enabled(l, Spawn(c)) && SoleOwner(Act(l, Spawn(c), maxBatch))
    ensures var l' := Act(l, Spawn(c), maxBatch); Content(l', DrainOf(l'), maxBatch)
  {
    var l' := Act(l, Spawn(c), maxBatch);
    NoDrainYet(l, c);
    DrainIs(l', c);
    SameAnswers(l.entries, DrainOf(l), Locking, l.callers, l'.callers);
  }

  lemma CommitContent(l: Lane, staged: StagedObject, maxBatch: nat)
    requires LaneInv(l, maxBatch) && SoleOwner(Act(l, Commit(staged), maxBatch))
    ensures var l' := Act(l, Commit(staged), maxBatch); Content(l', DrainOf(l'), maxBatch)
  {
    DrainUnmoved(l, Act(l, Commit(staged), maxBatch));
    CommitKeeps(l, staged, DrainOf(l), maxBatch);
  }

  lemma TakeContent(l: Lane, t: nat, maxBatch: nat)
    requires maxBatch >= 1 && LaneInv(l, maxBatch) && Enabled(l, Take(t)) && SoleOwner(Act(l, Take(t), maxBatch))
    ensures var l' := Act(l, Take(t), maxBatch); Content(l', DrainOf(l'), maxBatch)
  {
    var l' := Act(l, Take(t), maxBatch);
    DrainIs(l, t);
    if l.batch.items == [] {
      if u :| u in l'.drains { assert Owns(l, u) && Owns(l, t); }
    } else {
      TakeKeeps(l, t, maxBatch);
      DrainIs(l', t);
    }
  }

  lemma LoopContent(l: Lane, t: nat, maxBatch: nat)
    requires LaneInv(l, maxBatch) && Enabled(l, Loop(t)) && SoleOwner(Act(l, Loop(t), maxBatch))
    ensures var l' := Act(l, Loop(t), maxBatch); Content(l', DrainOf(l'), maxBatch)
  {
    DrainIs(l, t);
    DrainIs(Act(l, Loop(t), maxBatch), t);
  }

  lemma ReturnContent(l: Lane, t: nat, o: Outcome, maxBatch: nat)
    requires LaneInv(l, maxBatch) && Enabled(l, Return(t, o)) && SoleOwner(Act(l, Return(t, o), maxBatch))
    ensures var l' := Act(l, Return(t, o), maxBatch); Content(l', DrainOf(l'), maxBatch)
  {
    DrainIs(l, t);
    ReturnKeeps(l, t, o, maxBatch);
    DrainIs(Act(l, Return(t, o), maxBatch), t);
  }

  lemma SendContent(l: Lane, t: nat, maxBatch: nat)
    requires LaneInv(l, maxBatch) && Enabled(l, Send(t)) && SoleOwner(Act(l, Send(t), maxBatch))
    ensures var l' := Act(l, Send(t), maxBatch); Content(l', DrainOf(l'), maxBatch)
  {
    DrainIs(l, t);
    SendKeeps(l, t, maxBatch);
    DrainIs(Act(l, Send(t), maxBatch), t);
  }

  lemma ContentKept(l: Lane, a: Action, maxBatch: nat)
    requires maxBatch >= 1 && LaneInv(l, maxBatch) && Enabled(l, a)
    ensures var l' := Act(l, a, maxBatch); Content(l', DrainOf(l'), maxBatch)
  {
    OwnershipKept(l, a, maxBatch);
    match a {
      case Commit(staged) => CommitContent(l, staged, maxBatch);
      case Spawn(c) => SpawnContent(l, c, maxBatch);
      case Abandon(c) => AbandonContent(l, c, maxBatch);
      case Take(t) => TakeContent(l, t, maxBatch);
      case Return(t, o) => ReturnContent(l, t, o, maxBatch);
      case Send(t) => SendContent(l, t, maxBatch);
      case Loop(t) => LoopContent(l, t, maxBatch);
    }
  }

  /** One step of any group keeps every group's invariant. */
  lemma StepKeeps(s: State, step: Step, maxBatch: nat)
    requires maxBatch >= 1 && Inv(s, maxBatch) && Enabled(LaneOf(s, step.group), step.action)
    ensures Inv(Next(s, step, maxBatch), maxBatch)
  {
    var l, a, s' := LaneOf(s, step.group), step.action, Next(s, step, maxBatch);
    assert LaneInv(l, maxBatch);
    OwnershipKept(l, a, maxBatch);
    QueueOnlyWhileDraining(l, a, maxBatch);
    ContentKept(l, a, maxBatch);
    forall h ensures LaneInv(LaneOf(s', h), maxBatch) {
      if h != step.group { assert LaneOf(s', h) == LaneOf(s, h); }
    }
  }

  lemma {:induction false} RunKeeps(s: State, steps: seq<Step>, maxBatch: nat)
    requires maxBatch >= 1 && Inv(s, maxBatch) && Legal(s, steps, maxBatch)
    ensures Inv(After(s, steps, maxBatch), maxBatch)
  {
    if steps != [] {
      RunKeeps(s, steps[..|steps| - 1], maxBatch);
      StepKeeps(After(s, steps[..|steps| - 1], maxBatch), steps[|steps| - 1], maxBatch);
    }
  }

  /** The lane of any group after any run from start-up. */
  ghost predicate Reachable(l: Lane, g: Group, maxBatch: nat) {
    exists steps :: Legal(map[], steps, maxBatch) && l == LaneOf(After(map[], steps, maxBatch), g)
  }

  lemma ReachableInv(l: Lane, g: Group, maxBatch: nat)
    requires maxBatch >= 1 && Reachable(l, g, maxBatch)
    ensures LaneInv(l, maxBatch)
  {
    var steps :| Legal(map[], steps, maxBatch) && l == LaneOf(After(map[], steps, maxBatch), g);
    assert LaneInv(EmptyLane, maxBatch);
    RunKeeps(map[], steps, maxBatch);
  }

  // ---- Main results -----------------------------------------------------------------

  /** Over every run: the flag is set exactly while one drain (running, or about to be
      spawned) owns the group, so two entries of a group are never in flight together. */
  lemma OneDrainPerGroup(l: Lane, g: Group, maxBatch: nat)
    requires maxBatch >= 1 && Reachable(l, g, maxBatch)
    ensures l.batch.draining <==> exists t :: Owns(l, t)
    ensures forall t, u :: Owns(l, t) && Owns(l, u) ==> t == u
    ensures forall t, u :: t in l.drains && u in l.drains ==> t == u
    ensures l.batch.items != [] ==> exists t :: Owns(l, t)
  {
    ReachableInv(l, g, maxBatch);
    forall t, u | t in l.drains && u in l.drains ensures t == u { assert Owns(l, t) && Owns(l, u); }
  }

  /** The objects committed to a group, in order, read off the steps alone. */
  function CommitsBy(steps: seq<Step>, g: Group): seq<StagedObject> {
    if steps == [] then []
    else
      var last := steps[|steps| - 1];
      CommitsBy(steps[..|steps| - 1], g) +
      if last.group == g && last.action.Commit? then [last.action.staged] else []
  }

  /** The arrivals are the commits, each under its own number. */
  predicate Numbered(arrivals: seq<Pending>, staged: seq<StagedObject>) {
    |arrivals| == |staged| && forall i :: 0 <= i < |staged| ==> arrivals[i] == Pending(staged[i], i)
  }

  /** Over every run, the arrivals of a group are exactly the objects committed to it, in order. */
  lemma {:induction false} ArrivalsAreCommits(steps: seq<Step>, g: Group, maxBatch: nat)
    requires maxBatch >= 1 && Legal(map[], steps, maxBatch)
    ensures Numbered(LaneOf(After(map[], steps, maxBatch), g).arrivals, CommitsBy(steps, g))
    decreases |steps|
  {
    if steps != [] {
      var front, last := steps[..|steps| - 1], steps[|steps| - 1];
      ArrivalsAreCommits(front, g, maxBatch);
      var l := LaneOf(After(map[], front, maxBatch), g);
      assert Reachable(l, g, maxBatch);
      ReachableInv(l, g, maxBatch);
      if last.group == g { ActionArrives(l, last.action, maxBatch, CommitsBy(front, g)); }
    }
  }

  lemma ActionArrives(l: Lane, a: Action, maxBatch: nat, staged: seq<StagedObject>)
    requires Enabled(l, a) && |l.callers| == |l.arrivals| && Numbered(l.arrivals, staged)
    ensures Numbered(Act(l, a, maxBatch).arrivals, staged + if a.Commit? then [a.staged] else [])
  {
  }

  /** Over every run: answered entries in order, then the entry in flight, then the queue,
      are exactly the arrivals; every entry carries 1 to `maxBatch` commits. */
  lemma EntriesPartitionArrivals(l: Lane, g: Group, maxBatch: nat)
    requires maxBatch >= 1 && Reachable(l, g, maxBatch)
    ensures Submitted(l.entries) + InFlight(DrainOf(l)) + l.batch.items == l.arrivals
    ensures forall k :: 0 <= k < |l.entries| ==> 1 <= |l.entries[k].batch| <= maxBatch
    ensures forall t :: t in l.drains && l.drains[t].Submitting? ==> 1 <= |l.drains[t].batch| <= maxBatch
  {
    ReachableInv(l, g, maxBatch);
    forall t | t in l.drains ensures DrainOf(l) == l.drains[t] { DrainIs(l, t); }
  }

  /** The entry and offset that carried the i-th submitted commit. */
  lemma {:induction false} Carrier(entries: seq<Entry>, i: nat) returns (k: nat, j: nat)
    requires i < |Submitted(entries)|
    ensures k < |entries| && j < |entries[k].batch|
    ensures entries[k].batch[j] == Submitted(entries)[i] && entries[k].outcome == Outcomes(entries)[i]
  {
    var n := |entries| - 1;
    if i < |Submitted(entries[..n])| {
      k, j := Carrier(entries[..n], i);
    } else {
      k, j := n, i - |Submitted(entries[..n])|;
    }
  }

  lemma {:induction false} CarrierUnique(entries: seq<Entry>, k: nat, j: nat) returns (i: nat)
    requires k < |entries| && j < |entries[k].batch|
    ensures i < |Submitted(entries)| && Submitted(entries)[i] == entries[k].batch[j]
    ensures Outcomes(entries)[i] == entries[k].outcome
  {
    var n := |entries| - 1;
    if k == n { i := |Submitted(entries[..n])| + j; } else { i := CarrierUnique(entries[..n], k, j); }
  }

  /** Over every run: a caller's answer is the outcome of an entry that carried its object,
      and of every entry that did. */
  lemma ReplyIsItsEntrys(l: Lane, g: Group, maxBatch: nat, c: nat)
    requires maxBatch >= 1 && Reachable(l, g, maxBatch)
    requires c < |l.callers| && l.callers[c].Done?
    ensures c < |l.arrivals|
    ensures exists k, j :: 0 <= k < |l.entries| && 0 <= j < |l.entries[k].batch| &&
              l.entries[k].batch[j] == l.arrivals[c] && l.entries[k].outcome == l.callers[c].outcome
    ensures forall k, j :: (0 <= k < |l.entries| && 0 <= j < |l.entries[k].batch| &&
                            l.entries[k].batch[j] == l.arrivals[c]) ==> l.entries[k].outcome == l.callers[c].outcome
  {
    ReachableInv(l, g, maxBatch);
    assert forall i :: 0 <= i < |Submitted(l.entries)| ==> Submitted(l.entries)[i] == l.arrivals[i];
    var k0, j0 := Carrier(l.entries, c);
    forall k, j | 0 <= k < |l.entries| && 0 <= j < |l.entries[k].batch| && l.entries[k].batch[j] == l.arrivals[c]
      ensures l.entries[k].outcome == l.callers[c].outcome
    {
      var i := CarrierUnique(l.entries, k, j);
      assert l.arrivals[i].reply == i;
    }
  }

  // ---- Nobody is stranded -------------------------------------------------------------

  predicate DrainAction(a: Action) { !a.Commit? && !a.Abandon? }

  /** The drain actions a lane still has to take if nothing more arrives. */
  ghost function WorkLeft(l: Lane): nat {
    4 * |l.batch.items| +
    if !l.batch.draining then 0
    else if l.drains == map[] then 2
    else match DrainOf(l)
      case Locking => 1
      case Submitting(b) => |b| + 3
      case Replying(_, _, _) => Unsent(DrainOf(l)) + 2
  }

  /** Whoever waits, some drain action of its group is enabled; when none is, every caller
      that is still there has its answer and the group is idle. */
  lemma NeverStranded(l: Lane, maxBatch: nat)
    requires maxBatch >= 1 && LaneInv(l, maxBatch)
    ensures (exists a :: DrainAction(a) && Enabled(l, a)) ||
            (l.batch == IdleBatch && forall c :: 0 <= c < |l.callers| ==> l.callers[c].Done? || l.callers[c].Abandoned?)
  {
    if t :| Owns(l, t) {
      if t in l.drains {
        match l.drains[t] {
          case Locking => assert Enabled(l, Take(t));
          case Submitting(_) => assert Enabled(l, Return(t, Committed(0)));
          case Replying(b, _, sent) => assert if sent < |b| then Enabled(l, Send(t)) else Enabled(l, Loop(t));
        }
      } else {
        assert Enabled(l, Spawn(t));
      }
    } else {
      if t :| t in l.drains { assert Owns(l, t); }
      assert |Outcomes(l.entries)| == |l.callers|;
    }
  }

  lemma WorkDecreases(l: Lane, a: Action, maxBatch: nat)
    requires maxBatch >= 1 && LaneInv(l, maxBatch) && Enabled(l, a) && !a.Commit?
    ensures var l' := Act(l, a, maxBatch);
            if a.Abandon? then WorkLeft(l') == WorkLeft(l) else WorkLeft(l') < WorkLeft(l)
  {
    var l' := Act(l, a, maxBatch);
    OwnershipKept(l, a, maxBatch);
    match a {
      case Spawn(c) => NoDrainYet(l, c); assert Owns(l, c); DrainIs(l', c);
      case Abandon(_) => if t :| t in l.drains { DrainIs(l, t); DrainIs(l', t); }
      case Take(t) => assert Owns(l, t); DrainIs(l, t); if l.batch.items != [] { DrainIs(l', t); }
      case Return(t, _) => assert Owns(l, t); DrainIs(l, t); DrainIs(l', t);
      case Send(t) => assert Owns(l, t); DrainIs(l, t); DrainIs(l', t);
      case Loop(t) => assert Owns(l, t); DrainIs(l, t); DrainIs(l', t);
    }
  }

  function DrainSteps(steps: seq<Step>, g: Group): nat {
    if steps == [] then 0
    else DrainSteps(steps[..|steps| - 1], g) +
         var last := steps[|steps| - 1]; if last.group == g && DrainAction(last.action) then 1 else 0
  }

  /** If nothing more arrives for `g`, its drain finishes within `WorkLeft` of its own steps,
      whatever the other groups do in between. */
  lemma {:induction false} DrainFinishes(s: State, steps: seq<Step>, g: Group, maxBatch: nat)
    requires maxBatch >= 1 && Inv(s, maxBatch) && Legal(s, steps, maxBatch)
    requires forall k :: 0 <= k < |steps| && steps[k].group == g ==> !steps[k].action.Commit?
    ensures DrainSteps(steps, g) + WorkLeft(LaneOf(After(s, steps, maxBatch), g)) <= WorkLeft(LaneOf(s, g))
  {
    if steps != [] {
      var front, last := steps[..|steps| - 1], steps[|steps| - 1];
      DrainFinishes(s, front, g, maxBatch);
      RunKeeps(s, front, maxBatch);
      var mid := After(s, front, maxBatch);
      assert LaneInv(LaneOf(mid, g), maxBatch);
      if last.group == g { WorkDecreases(LaneOf(mid, g), last.action, maxBatch); }
    }
  }

  // ---- Bounded waiting ----------------------------------------------------------------

  function Takes(steps: seq<Step>, g: Group): nat {
    if steps == [] then 0
    else Takes(steps[..|steps| - 1], g) +
         var last := steps[|steps| - 1]; if last.group == g && last.action.Take? then 1 else 0
  }

  /** One action moves a queued commit up by `maxBatch` if it is a take of the commits
      before it, and not at all otherwise. */
  lemma MovesUpOnce(l: Lane, a: Action, at: nat, maxBatch: nat)
    requires Enabled(l, a) && at < |l.batch.items|
    requires a.Take? ==> maxBatch <= at
    ensures var at' := if a.Take? then at - maxBatch else at;
            var items := Act(l, a, maxBatch).batch.items;
            at' < |items| && items[at'] == l.batch.items[at]
  {
  }

  /** The room that the takes of `g` made: `maxBatch` places each. */
  function Room(steps: seq<Step>, g: Group, maxBatch: nat): nat {
    if steps == [] then 0
    else Room(steps[..|steps| - 1], g, maxBatch) +
         var last := steps[|steps| - 1]; if last.group == g && last.action.Take? then maxBatch else 0
  }

  lemma {:induction false} RoomPerTake(steps: seq<Step>, g: Group, maxBatch: nat)
    ensures Room(steps, g, maxBatch) == Takes(steps, g) * maxBatch
  {
    if steps != [] { RoomPerTake(steps[..|steps| - 1], g, maxBatch); }
  }

  lemma TakesFit(n: nat, ahead: nat, maxBatch: nat)
    requires maxBatch >= 1 && n <= ahead / maxBatch
    ensures n * maxBatch <= ahead
    ensures n == ahead / maxBatch ==> ahead - n * maxBatch == ahead % maxBatch
  {
    assert ahead == (ahead / maxBatch) * maxBatch + ahead % maxBatch;
    assert n * maxBatch <= (ahead / maxBatch) * maxBatch;
  }

  lemma {:induction false} MovesUpByRoom(s: State, steps: seq<Step>, g: Group, ahead: nat, maxBatch: nat)
    requires Legal(s, steps, maxBatch)
    requires ahead < |LaneOf(s, g).batch.items| && Room(steps, g, maxBatch) <= ahead
    ensures var items := LaneOf(After(s, steps, maxBatch), g).batch.items;
            var at := ahead - Room(steps, g, maxBatch);
            at < |items| && items[at] == LaneOf(s, g).batch.items[ahead]
  {
    if steps != [] {
      var front, last := steps[..|steps| - 1], steps[|steps| - 1];
      MovesUpByRoom(s, front, g, ahead, maxBatch);
      var mid, at := After(s, front, maxBatch), ahead - Room(front, g, maxBatch);
      if last.group == g {
        MovesUpOnce(LaneOf(mid, g), last.action, at, maxBatch);
      } else {
        assert LaneOf(Next(mid, last, maxBatch), g) == LaneOf(mid, g);
      }
    }
  }

  /** A commit with `ahead` commits before it stays queued, moving up by `maxBatch` per take,
      for the first `ahead / maxBatch` takes of its group. */
  lemma MovesUp(s: State, steps: seq<Step>, g: Group, ahead: nat, maxBatch: nat)
    requires maxBatch >= 1 && Legal(s, steps, maxBatch)
    requires ahead < |LaneOf(s, g).batch.items| && Takes(steps, g) <= ahead / maxBatch
    ensures var items := LaneOf(After(s, steps, maxBatch), g).batch.items;
            var at := ahead - Takes(steps, g) * maxBatch;
            0 <= at < |items| && items[at] == LaneOf(s, g).batch.items[ahead]
  {
    TakesFit(Takes(steps, g), ahead, maxBatch);
    RoomPerTake(steps, g, maxBatch);
    MovesUpByRoom(s, steps, g, ahead, maxBatch);
  }

  /** It leaves in exactly the (ahead / maxBatch + 1)-th take, at offset ahead % maxBatch,
      whatever arrives later and whatever other groups do. */
  lemma LeavesInItsTake(s: State, steps: seq<Step>, g: Group, task: nat, ahead: nat, maxBatch: nat)
    requires maxBatch >= 1 && Legal(s, steps + [Step(g, Take(task))], maxBatch)
    requires ahead < |LaneOf(s, g).batch.items| && Takes(steps, g) == ahead / maxBatch
    ensures var d := LaneOf(After(s, steps + [Step(g, Take(task))], maxBatch), g).drains;
            task in d && d[task].Submitting? && ahead % maxBatch < |d[task].batch| &&
            d[task].batch[ahead % maxBatch] == LaneOf(s, g).batch.items[ahead]
  {
    var all := steps + [Step(g, Take(task))];
    assert all[..|all| - 1] == steps;
    MovesUp(s, steps, g, ahead, maxBatch);
    TakesFit(Takes(steps, g), ahead, maxBatch);
    TakesAtOffset(LaneOf(After(s, steps, maxBatch), g), task, ahead % maxBatch, maxBatch);
  }

  lemma TakesAtOffset(l: Lane, task: nat, at: nat, maxBatch: nat)
    requires Enabled(l, Take(task)) && at < maxBatch && at < |l.batch.items|
    ensures var d := Act(l, Take(task), maxBatch).drains;
            task in d && d[task].Submitting? && at < |d[task].batch| && d[task].batch[at] == l.batch.items[at]
  {
  }
}
