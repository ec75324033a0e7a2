/** The batcher refines the simplest service with the same interface: one that gives every object a log
    entry of its own, in arrival order. */
module GroupCommitRefinement {
  import opened GroupCommit

  datatype Client = Unanswered | Answer(outcome: Outcome) | Left

  /** One group of the unbatched service: `decided[i]` is the outcome of the entry that carried the
      i-th arrival. */
  datatype Service = Service(arrived: seq<Pending>, decided: seq<Outcome>, clients: seq<Client>)

  const NewService: Service := Service([], [], [])

  datatype Event =
    | Arrive(p: Pending)
    | Decide(outcome: Outcome) // the next object's own entry is answered
    | Reply(client: nat)
    | Leave(client: nat)

  predicate Can(v: Service, e: Event) {
    match e
    case Arrive(p) => p.reply == |v.clients|
    case Decide(_) => |v.decided| < |v.arrived|
    case Reply(c) => c < |v.clients| && c < |v.decided| && v.clients[c].Unanswered?
    case Leave(c) => c < |v.clients| && v.clients[c].Unanswered?
  }

  function Do(v: Service, e: Event): Service
    requires Can(v, e)
  {
    match e
    case Arrive(p) => v.(arrived := v.arrived + [p], clients := v.clients + [Unanswered])
    case Decide(o) => v.(decided := v.decided + [o])
    case Reply(c) => v.(clients := v.clients[c := Answer(v.decided[c])])
    case Leave(c) => v.(clients := v.clients[c := Left])
  }

  /** `v` can reach `w` through `events`. */
  ghost predicate Serves(v: Service, events: seq<Event>, w: Service)
    decreases |events|
  {
    if events == [] then v == w
    else Can(v, events[0]) && Serves(Do(v, events[0]), events[1..], w)
  }

  function ClientOf(c: Caller): Client {
    match c
    case Done(o) => Answer(o)
    case Abandoned => Left
    case _ => Unanswered
  }

  /** What the unbatched service would look like after the same arrivals, decisions and replies. */
  ghost function Unbatched(l: Lane): Service {
    Service(l.arrivals, Outcomes(l.entries),
            seq(|l.callers|, i requires 0 <= i < |l.callers| => ClientOf(l.callers[i])))
  }

  lemma {:induction false} ServesThen(v: Service, xs: seq<Event>, w: Service, ys: seq<Event>, u: Service)
    requires Serves(v, xs, w) && Serves(w, ys, u)
    ensures Serves(v, xs + ys, u)
    decreases |xs|
  {
    if xs == [] {
      assert xs + ys == ys;
    } else {
      assert (xs + ys)[1..] == xs[1..] + ys;
      ServesThen(Do(v, xs[0]), xs[1..], w, ys, u);
    }
  }

  /** Answering one batched entry decides each of its objects, one by one and in order. */
  lemma {:induction false} DecideBatch(v: Service, n: nat, o: Outcome)
    requires |v.decided| + n <= |v.arrived|
    ensures Serves(v, seq(n, _ => Decide(o)), v.(decided := v.decided + seq(n, _ => o)))
    decreases n
  {
    var events := seq(n, _ => Decide(o));
    if n == 0 {
      assert v.decided + seq(0, _ => o) == v.decided;
    } else {
      var v1 := Do(v, Decide(o));
      DecideBatch(v1, n - 1, o);
      assert events[1..] == seq(n - 1, _ => Decide(o));
      assert v1.decided + seq(n - 1, _ => o) == v.decided + seq(n, _ => o);
    }
  }

  /** The unbatched events one action of the batcher stands for. */
  ghost function EventsOf(l: Lane, a: Action): seq<Event>
    requires Enabled(l, a)
  {
    match a
    case Commit(staged) => [Arrive(Pending(staged, |l.callers|))]
    case Return(t, o) => seq(|l.drains[t].batch|, _ => Decide(o))
    case Send(t) =>
      var c := l.drains[t].batch[l.drains[t].sent].reply;
      if c < |l.callers| && l.callers[c].Waiting? then [Reply(c)] else []
    case Abandon(c) => [Leave(c)]
    case _ => []
  }

  lemma One(v: Service, e: Event)
    requires Can(v, e)
    ensures Serves(v, [e], Do(v, e))
  {
    assert Serves(Do(v, e), [e][1..], Do(v, e));
  }

  lemma CommitRefines(l: Lane, staged: StagedObject, maxBatch: nat)
    ensures Serves(Unbatched(l), EventsOf(l, Commit(staged)), Unbatched(Act(l, Commit(staged), maxBatch)))
  {
    var v, w := Unbatched(l), Unbatched(Act(l, Commit(staged), maxBatch));
    assert w.clients == v.clients + [Unanswered];
    One(v, Arrive(Pending(staged, |l.callers|)));
  }

  lemma ReturnRefines(l: Lane, t: nat, o: Outcome, maxBatch: nat)
    requires LaneInv(l, maxBatch) && Enabled(l, Return(t, o))
    ensures Serves(Unbatched(l), EventsOf(l, Return(t, o)), Unbatched(Act(l, Return(t, o), maxBatch)))
  {
    var b := l.drains[t].batch;
    DrainIs(l, t);
    EntryAppends(l.entries, Entry(b, o));
    assert |Submitted(l.entries)| + |b| <= |l.arrivals|;
    DecideBatch(Unbatched(l), |b|, o);
  }

  lemma SendRefines(l: Lane, t: nat, maxBatch: nat)
    requires LaneInv(l, maxBatch) && Enabled(l, Send(t))
    ensures Serves(Unbatched(l), EventsOf(l, Send(t)), Unbatched(Act(l, Send(t), maxBatch)))
  {
    var v, w := Unbatched(l), Unbatched(Act(l, Send(t), maxBatch));
    var c := l.drains[t].batch[l.drains[t].sent].reply;
    DrainIs(l, t);
    NextReply(l, t, maxBatch);
    if l.callers[c].Waiting? {
      assert w.clients == v.clients[c := Answer(v.decided[c])];
      One(v, Reply(c));
    } else {
      assert w == v;
    }
  }

  lemma ActionRefines(l: Lane, a: Action, maxBatch: nat)
    requires LaneInv(l, maxBatch) && Enabled(l, a)
    ensures Serves(Unbatched(l), EventsOf(l, a), Unbatched(Act(l, a, maxBatch)))
  {
    match a {
      case Commit(staged) => CommitRefines(l, staged, maxBatch);
      case Return(t, o) => ReturnRefines(l, t, o, maxBatch);
      case Send(t) => SendRefines(l, t, maxBatch);
      case Abandon(c) =>
        assert Unbatched(Act(l, a, maxBatch)).clients == Unbatched(l).clients[c := Left];
        One(Unbatched(l), Leave(c));
      case _ => assert Unbatched(Act(l, a, maxBatch)).clients == Unbatched(l).clients;
    }
  }

  /** The unbatched events a run of the batcher stands for, in the order of the run. */
  ghost function EventsAlong(steps: seq<Step>, g: Group, maxBatch: nat): seq<Event>
    requires Legal(map[], steps, maxBatch)
    decreases |steps|
  {
    if steps == [] then []
    else
      var front, last := steps[..|steps| - 1], steps[|steps| - 1];
      EventsAlong(front, g, maxBatch) +
      if last.group == g then EventsOf(LaneOf(After(map[], front, maxBatch), g), last.action) else []
  }

  /** Every run of the batcher over any groups is, for each group, a run of the unbatched service: the
      arrivals, decisions, replies and departures of the run, in their order, lead the service to the same
      arrivals, the same decisions and the same answers. */
  lemma {:induction false} RunRefines(steps: seq<Step>, g: Group, maxBatch: nat)
    requires maxBatch >= 1 && Legal(map[], steps, maxBatch)
    ensures Serves(NewService, EventsAlong(steps, g, maxBatch), Unbatched(LaneOf(After(map[], steps, maxBatch), g)))
    decreases |steps|
  {
    if steps == [] {
      assert Unbatched(EmptyLane) == NewService;
    } else {
      var front, last := steps[..|steps| - 1], steps[|steps| - 1];
      RunRefines(front, g, maxBatch);
      var l, events := LaneOf(After(map[], front, maxBatch), g), EventsAlong(front, g, maxBatch);
      if last.group == g {
        assert Reachable(l, g, maxBatch);
        ReachableInv(l, g, maxBatch);
        ActionRefines(l, last.action, maxBatch);
        var l' := Act(l, last.action, maxBatch);
        ServesThen(NewService, events, Unbatched(l), EventsOf(l, last.action), Unbatched(l'));
      } else {
        assert events + [] == events;
      }
    }
  }
}
