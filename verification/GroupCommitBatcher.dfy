/** The batcher object: the shared map of queues and the two methods that touch it. */
module GroupCommitBatcher {
  import opened Basics
  import opened GroupCommit

  datatype Taken = Gone | Idle | Batch(items: seq<Pending>)

  function BatchOf(groups: map<Group, GroupBatch>, g: Group): GroupBatch {
    if g in groups then groups[g] else IdleBatch
  }

  function Concat(rounds: seq<seq<Pending>>): seq<Pending> {
    if rounds == [] then [] else Concat(rounds[..|rounds| - 1]) + rounds[|rounds| - 1]
  }

  /** The reply sent for each commit of an entry, in order. */
  function RepliesOf(entries: seq<Entry>): seq<(nat, Outcome)> {
    if entries == [] then []
    else
      var e := entries[|entries| - 1];
      RepliesOf(entries[..|entries| - 1]) +
      seq(|e.batch|, i requires 0 <= i < |e.batch| => (e.batch[i].reply, e.outcome))
  }

  /** What has left and what is queued are what was there and what came. */
  ghost predicate Accounted(entries: seq<Entry>, items: seq<Pending>, before: seq<Pending>, rounds: seq<seq<Pending>>) {
    Submitted(entries) + items == before + Concat(rounds[..Min(|entries|, |rounds|)])
  }

  function Round(rounds: seq<seq<Pending>>, n: nat): seq<Pending> {
    if n < |rounds| then rounds[n] else []
  }

  lemma PassAccounts(entries: seq<Entry>, items: seq<Pending>, before: seq<Pending>, rounds: seq<seq<Pending>>,
                     take: nat, outcome: Outcome)
    requires Accounted(entries, items, before, rounds) && take <= |items|
    ensures Accounted(entries + [Entry(items[..take], outcome)], items[take..] + Round(rounds, |entries|), before,
                      rounds)
  {
    var n, r := |entries|, Round(rounds, |entries|);
    EntryAppends(entries, Entry(items[..take], outcome));
    assert items[..take] + items[take..] == items;
    assert (Submitted(entries) + items[..take]) + (items[take..] + r) == (Submitted(entries) + items) + r;
    if n < |rounds| { assert rounds[..n + 1][..n] == rounds[..n]; }
    assert (before + Concat(rounds[..Min(n, |rounds|)])) + r == before + (Concat(rounds[..Min(n, |rounds|)]) + r);
  }

  lemma RepliesAppend(entries: seq<Entry>, e: Entry)
    ensures RepliesOf(entries + [e]) ==
            RepliesOf(entries) + seq(|e.batch|, i requires 0 <= i < |e.batch| => (e.batch[i].reply, e.outcome))
  {
    assert (entries + [e])[..|entries|] == entries;
  }

  /** Entries of legal size, the n-th answered with `submit(n)`, and their replies. */
  ghost predicate Recorded(entries: seq<Entry>, replies: seq<(nat, Outcome)>, submit: nat -> Outcome, maxBatch: nat) {
    && replies == RepliesOf(entries)
    && forall k :: 0 <= k < |entries| ==> 1 <= |entries[k].batch| <= maxBatch && entries[k].outcome == submit(k)
  }

  lemma OneMoreEntry(entries: seq<Entry>, replies: seq<(nat, Outcome)>, submit: nat -> Outcome, maxBatch: nat,
                     batch: seq<Pending>, sent: seq<(nat, Outcome)>)
    requires Recorded(entries, replies, submit, maxBatch) && 1 <= |batch| <= maxBatch
    requires sent == seq(|batch|, i requires 0 <= i < |batch| => (batch[i].reply, submit(|entries|)))
    ensures Recorded(entries + [Entry(batch, submit(|entries|))], replies + sent, submit, maxBatch)
  {
    RepliesAppend(entries, Entry(batch, submit(|entries|)));
  }

  class ObjectCommitBatcher {
    const maxBatch: nat
    var groups: map<Group, GroupBatch>

    constructor (maxBatch: nat)
      ensures this.maxBatch >= 1 && (maxBatch >= 1 ==> this.maxBatch == maxBatch)
      ensures groups == map[]
    {
      this.maxBatch := if maxBatch >= 1 then maxBatch else 1;
      groups := map[];
    }

    /** The locked section of `commit`: true when this caller must spawn the drain. */
    method Push(g: Group, p: Pending) returns (startDrain: bool)
      modifies this
      ensures groups == old(groups)[g := Enqueue(old(BatchOf(groups, g)), p)]
      ensures startDrain == !old(BatchOf(groups, g)).draining
    {
      var batch := BatchOf(groups, g);
      batch := batch.(items := batch.items + [p]);
      startDrain := !batch.draining;
      batch := batch.(draining := true);
      groups := groups[g := batch];
    }

    /** The locked section of one pass of `drain_group`. */
    method Pull(g: Group) returns (taken: Taken)
      modifies this
      ensures g !in old(groups) ==> taken == Gone && groups == old(groups)
      ensures g in old(groups) ==>
                var b := old(groups)[g];
                groups == old(groups)[g := TakeBatch(b, maxBatch)] &&
                taken == if b.items == [] then Idle else Batch(b.items[..TakeCount(b, maxBatch)])
    {
      if g !in groups { return Gone; }
      var batch := groups[g];
      if |batch.items| == 0 {
        groups := groups[g := batch.(draining := false)];
        return Idle;
      }
      var take := if |batch.items| <= maxBatch then |batch.items| else maxBatch;
      groups := groups[g := batch.(items := batch.items[take..])];
      return Batch(batch.items[..take]);
    }

    /** One pass of the loop: take, submit while `arriving` reaches the queue, reply. */
    method Pass(g: Group, outcome: Outcome, arriving: seq<Pending>)
      returns (idle: bool, batch: seq<Pending>, sent: seq<(nat, Outcome)>)
      requires g in groups && groups[g].draining
      modifies this
      ensures g in old(groups) && idle == (old(groups[g].items) == [])
      ensures idle ==> groups == old(groups)[g := IdleBatch] && batch == []
      ensures !idle ==>
                var items := old(groups[g].items);
                var take := TakeCount(old(groups[g]), maxBatch);
                batch == items[..take] && groups == old(groups)[g := GroupBatch(items[take..] + arriving, true)]
      ensures sent == seq(|batch|, i requires 0 <= i < |batch| => (batch[i].reply, outcome))
    {
      var taken := Pull(g);
      if !taken.Batch? { return true, [], []; }
      PushAll(g, arriving);
      sent := SendAll(taken.items, outcome);
      return false, taken.items, sent;
    }

    /** The whole of `drain_group` against a submitter that answers the n-th entry with
        `submit(n)`, while the commits of `rounds[n]` reach the queue during the n-th entry
        and none after the last round. Every commit queued before or during the drain
        leaves in arrival order, in entries of 1 to `maxBatch`, is answered with its own
        entry's outcome, and the group ends idle; no other group's queue is touched. */
    method DrainGroup(g: Group, submit: nat -> Outcome, rounds: seq<seq<Pending>>)
      returns (entries: seq<Entry>, replies: seq<(nat, Outcome)>)
      requires maxBatch >= 1 && g in groups && groups[g].draining
      modifies this
      ensures Submitted(entries) == old(groups[g].items) + Concat(rounds[..Min(|entries|, |rounds|)])
      ensures Recorded(entries, replies, submit, maxBatch)
      ensures groups == old(groups)[g := IdleBatch]
    {
      entries, replies := [], [];
      ghost var before := groups[g].items;
      while true
        invariant g in groups && groups == old(groups)[g := groups[g]] && groups[g].draining
        invariant Accounted(entries, groups[g].items, before, rounds) && Recorded(entries, replies, submit, maxBatch)
        decreases |rounds| - Min(|entries|, |rounds|), |groups[g].items|
      {
        ghost var items := groups[g].items;
        var n := |entries|;
        var idle, batch, sent := Pass(g, submit(n), Round(rounds, n));
        if idle { return; }
        PassAccounts(entries, items, before, rounds, |batch|, submit(n));
        OneMoreEntry(entries, replies, submit, maxBatch, batch, sent);
        entries, replies := entries + [Entry(batch, submit(n))], replies + sent;
      }
    }

    /** Arrivals while an entry is in flight find the flag set: none starts a second drain. */
    method PushAll(g: Group, arriving: seq<Pending>)
      requires g in groups && groups[g].draining
      modifies this
      ensures g in old(groups)
      ensures groups == old(groups)[g := GroupBatch(old(groups[g].items) + arriving, true)]
    {
      ghost var before := groups[g].items;
      for i := 0 to |arriving|
        invariant g in groups && groups == old(groups)[g := groups[g]]
        invariant groups[g] == GroupBatch(before + arriving[..i], true)
      {
        var start := Push(g, arriving[i]);
        assert !start;
        assert before + arriving[..i + 1] == before + arriving[..i] + [arriving[i]];
      }
      assert arriving[..|arriving|] == arriving;
    }
  }

  /** Sends one entry's outcome to each of its callers, in order. */
  method SendAll(items: seq<Pending>, outcome: Outcome) returns (sent: seq<(nat, Outcome)>)
    ensures sent == seq(|items|, i requires 0 <= i < |items| => (items[i].reply, outcome))
  {
    sent := [];
    for i := 0 to |items|
      invariant |sent| == i && forall k :: 0 <= k < i ==> sent[k] == (items[k].reply, outcome)
    {
      sent := sent + [(items[i].reply, outcome)];
    }
  }
}
