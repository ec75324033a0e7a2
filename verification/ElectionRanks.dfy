/** Ranked elections and payload slots. Every node sorts the same voter ids; a voter's rank sets
    both its election window and the slot its payload fragments are coded for. */
module ElectionRanks {
  import opened Basics

  type VoterId = nat

  datatype Result<+T> = Ok(value: T) | Err(error: string)

  const HEARTBEAT_MS: nat := 250
  const FIRST_TIMEOUT_MS: nat := 1_000
  const RANK_STEP_MS: nat := 750
  const WINDOW_MS: nat := 250

  // ---- Sorting ------------------------------------------------------------------------

  predicate Ascending(s: seq<VoterId>) {
    forall i, j :: 0 <= i < j < |s| ==> s[i] <= s[j]
  }

  predicate StrictlyAscending(s: seq<VoterId>) {
    forall i, j :: 0 <= i < j < |s| ==> s[i] < s[j]
  }

  predicate Distinct(s: seq<VoterId>) {
    forall i, j :: 0 <= i < j < |s| ==> s[i] != s[j]
  }

  function Insert(x: VoterId, s: seq<VoterId>): seq<VoterId> {
    if s == [] || x <= s[0] then [x] + s else [s[0]] + Insert(x, s[1..])
  }

  lemma {:induction false} InsertKeepsOrder(x: VoterId, s: seq<VoterId>)
    requires Ascending(s)
    ensures Ascending(Insert(x, s)) && multiset(Insert(x, s)) == multiset(s) + multiset{x}
    ensures forall y :: y in Insert(x, s) <==> y == x || y in s
    decreases |s|
  {
    if s != [] {
      assert s == [s[0]] + s[1..];
      if x > s[0] {
        InsertKeepsOrder(x, s[1..]);
        LeastFirst(s[0], Insert(x, s[1..]));
      } else {
        LeastFirst(x, s);
      }
    }
  }

  lemma LeastFirst(x: VoterId, s: seq<VoterId>)
    requires Ascending(s) && forall y :: y in s ==> x <= y
    ensures Ascending([x] + s)
  {
    var t := [x] + s;
    forall i, j | 0 <= i < j < |t| ensures t[i] <= t[j] { assert t[j] == s[j - 1] && t[j] in s; }
  }

  function Sort(s: seq<VoterId>): (r: seq<VoterId>)
    ensures Ascending(r) && multiset(r) == multiset(s)
  {
    if s == [] then []
    else
      assert s == [s[0]] + s[1..];
      InsertKeepsOrder(s[0], Sort(s[1..]));
      Insert(s[0], Sort(s[1..]))
  }

  lemma SortKeepsMembers(s: seq<VoterId>)
    ensures |Sort(s)| == |s| && forall v :: v in Sort(s) <==> v in s
  {
    assert |multiset(Sort(s))| == |multiset(s)|;
    forall v ensures v in Sort(s) <==> v in s { assert v in multiset(Sort(s)) <==> v in multiset(s); }
  }

  /** Removes repeats of an element right after it. */
  function Dedup(s: seq<VoterId>): (r: seq<VoterId>)
    ensures |r| <= |s|
  {
    if |s| <= 1 then s
    else if s[0] == s[1] then Dedup(s[1..])
    else [s[0]] + Dedup(s[1..])
  }

  /** A sorted sequence loses nothing to `Dedup` exactly when it has no repeats. */
  lemma {:induction false} DedupKeepsLengthIff(s: seq<VoterId>)
    requires Ascending(s)
    ensures |Dedup(s)| == |s| <==> StrictlyAscending(s)
    ensures StrictlyAscending(s) ==> Dedup(s) == s
  {
    if |s| > 1 {
      DedupKeepsLengthIff(s[1..]);
      if StrictlyAscending(s[1..]) && s[0] < s[1] {
        forall i, j | 0 <= i < j < |s| ensures s[i] < s[j] {
          if i > 0 {
            assert s[1..][i - 1] < s[1..][j - 1];
          } else if j > 1 {
            assert s[1..][0] < s[1..][j - 1];
          }
        }
      }
    }
  }

  lemma SortedDistinct(s: seq<VoterId>)
    ensures StrictlyAscending(Sort(s)) <==> Distinct(s)
  {
    var r := Sort(s);
    if Distinct(s) {
      forall i, j | 0 <= i < j < |r| ensures r[i] < r[j] {
        CountsOnce(s, r[i]);
        if r[i] == r[j] { CountsTwice(r, i, j); }
      }
    } else {
      var i, j :| 0 <= i < j < |s| && s[i] == s[j];
      CountsTwice(s, i, j);
      if StrictlyAscending(r) {
        CountsOnce(r, s[i]);
      }
    }
  }

  lemma {:induction false} CountsOnce(s: seq<VoterId>, v: VoterId)
    requires Distinct(s)
    ensures multiset(s)[v] <= 1
    decreases |s|
  {
    if s != [] {
      var n := |s| - 1;
      assert s == s[..n] + [s[n]];
      CountsOnce(s[..n], v);
      if s[n] == v { assert v !in s[..n]; assert v !in multiset(s[..n]); }
    }
  }

  lemma CountsTwice(s: seq<VoterId>, i: nat, j: nat)
    requires i < j < |s| && s[i] == s[j]
    ensures multiset(s)[s[i]] >= 2
  {
    assert s == s[..j] + [s[j]] + s[j + 1..];
    assert s[i] in s[..j];
    assert s[i] in multiset(s[..j]);
  }

  // ---- Rank ---------------------------------------------------------------------------

  /** The voters with a smaller id. */
  function Below(voters: seq<VoterId>, v: VoterId): set<VoterId> {
    set u | u in voters && u < v
  }

  /** A voter's rank: how many voters have a smaller id. */
  function Rank(voters: seq<VoterId>, v: VoterId): nat { |Below(voters, v)| }

  lemma OrderIsPosition(s: seq<VoterId>, k: nat, i: nat)
    requires StrictlyAscending(s) && k < |s| && i < |s|
    ensures s[k] < s[i] <==> k < i
  {
    assert k > i ==> s[i] < s[k];
  }

  /** In strictly ascending order a voter stands at its rank. */
  lemma {:induction false} PositionIsRank(s: seq<VoterId>, i: nat)
    requires StrictlyAscending(s) && i < |s|
    ensures Rank(s, s[i]) == i
    decreases i
  {
    if i == 0 {
      assert Below(s, s[0]) == {};
    } else {
      PositionIsRank(s, i - 1);
      assert Below(s, s[i]) == Below(s, s[i - 1]) + {s[i - 1]} by {
        forall u | u in s && u < s[i] ensures u < s[i - 1] || u == s[i - 1] {
          var k :| 0 <= k < |s| && s[k] == u;
          OrderIsPosition(s, k, i);
          OrderIsPosition(s, i - 1, k);
        }
      }
    }
  }

  lemma RankIgnoresOrder(s: seq<VoterId>, t: seq<VoterId>, v: VoterId)
    requires forall u :: u in s <==> u in t
    ensures Rank(s, v) == Rank(t, v)
  {
    assert Below(s, v) == Below(t, v);
  }

  lemma RanksFollowIds(voters: seq<VoterId>, u: VoterId, v: VoterId)
    requires u in voters && u < v
    ensures Rank(voters, u) < Rank(voters, v)
  {
    assert u !in Below(voters, u) && Below(voters, u) + {u} <= Below(voters, v);
    Smaller(Below(voters, u) + {u}, Below(voters, v));
  }

  lemma {:induction false} Smaller(a: set<VoterId>, b: set<VoterId>)
    requires a <= b
    ensures |a| <= |b|
  {
    if a != {} {
      var x :| x in a;
      Smaller(a - {x}, b - {x});
    }
  }

  // ---- Election timing ----------------------------------------------------------------

  datatype Timing = Timing(heartbeat: nat, min: nat, max: nat)

  /** The configured times, in milliseconds. */
  lemma TimesAre(rank: nat)
    ensures WindowOf(rank) == Timing(250, 1000 + 750 * rank, 1250 + 750 * rank)
  {
  }

  /** The window a rank campaigns in. */
  function WindowOf(rank: nat): Timing {
    Timing(HEARTBEAT_MS, FIRST_TIMEOUT_MS + rank * RANK_STEP_MS, FIRST_TIMEOUT_MS + rank * RANK_STEP_MS + WINDOW_MS)
  }

  method BinarySearch(s: seq<VoterId>, v: VoterId) returns (found: bool, at: nat)
    requires StrictlyAscending(s)
    ensures found <==> v in s
    ensures found ==> at < |s| && s[at] == v
  {
    var lo, hi := 0, |s|;
    while lo < hi
      invariant 0 <= lo <= hi <= |s|
      invariant forall i :: 0 <= i < lo ==> s[i] < v
      invariant forall i :: hi <= i < |s| ==> v < s[i]
    {
      var mid := (lo + hi) / 2;
      if s[mid] < v { lo := mid + 1; } else if v < s[mid] { hi := mid; } else { return true, mid; }
    }
    return false, 0;
  }

  /** `raft_config`: refused exactly for repeated voters, a local node that is no voter, or timing
      beyond 64 bits; otherwise the local node gets the window of its rank. */
  method RaftConfig(voters: seq<VoterId>, local: VoterId) returns (r: Result<Timing>)
    ensures r.Ok? <==> Distinct(voters) && local in voters && WindowOf(Rank(voters, local)).max <= U64_MAX
    ensures r.Ok? ==> r.value == WindowOf(Rank(voters, local)) && r.value.heartbeat < r.value.min < r.value.max
  {
    var ranks := Sort(voters);
    SortKeepsMembers(voters);
    SortedDistinct(voters);
    DedupKeepsLengthIff(ranks);
    ranks := Dedup(ranks);
    if |ranks| != |voters| { return Err("consensus voter configuration contains duplicate identities"); }
    var found, rank := BinarySearch(ranks, local);
    if !found { return Err("local cache node is not a configured consensus voter"); }
    PositionIsRank(ranks, rank);
    RankIgnoresOrder(ranks, voters, local);
    if rank > U64_MAX { return Err("consensus voter rank exceeds u64"); }
    var offset := rank * RANK_STEP_MS;
    if offset > U64_MAX { return Err("consensus voter rank overflows election timing"); }
    var minimum := FIRST_TIMEOUT_MS + offset;
    if minimum > U64_MAX { return Err("consensus election timing overflows"); }
    var maximum := minimum + WINDOW_MS;
    if maximum > U64_MAX { return Err("consensus election timing overflows"); }
    return Ok(Timing(HEARTBEAT_MS, minimum, maximum));
  }

  /** For voters in any order: windows follow the ids and are at least 500 ms apart. */
  lemma WindowsAreStaggered(voters: seq<VoterId>, u: VoterId, v: VoterId)
    requires u in voters && v in voters && u < v
    ensures WindowOf(Rank(voters, u)).max + 500 <= WindowOf(Rank(voters, v)).min
  {
    RanksFollowIds(voters, u, v);
  }

  lemma {:induction false} Least(s: set<VoterId>) returns (m: VoterId)
    requires s != {}
    ensures m in s && forall v :: v in s ==> m <= v
    decreases s
  {
    var x :| x in s;
    m := x;
    if s - {x} != {} {
      var k := Least(s - {x});
      if k < x { m := k; }
    }
    forall v | v in s ensures m <= v { assert v == x || v in s - {x}; }
  }

  /** After any f lost voters the earliest survivor campaigns first, alone, and its window ends by
      1250 + 750 f milliseconds. */
  lemma EarliestSurvivor(voters: seq<VoterId>, lost: set<VoterId>) returns (v: VoterId)
    requires exists u :: u in voters && u !in lost
    ensures v in voters && v !in lost
    ensures WindowOf(Rank(voters, v)).max <= 1250 + 750 * |lost|
    ensures forall u :: u in voters && u !in lost && u != v ==>
              WindowOf(Rank(voters, v)).max + 500 <= WindowOf(Rank(voters, u)).min
  {
    var survivors := set u | u in voters && u !in lost;
    assert survivors != {} by { var u :| u in voters && u !in lost; assert u in survivors; }
    v := Least(survivors);
    forall u | u in voters && u < v ensures u in lost { assert u in survivors <==> u !in lost; }
    Smaller(Below(voters, v), lost);
    forall u | u in voters && u !in lost && u != v
      ensures WindowOf(Rank(voters, v)).max + 500 <= WindowOf(Rank(voters, u)).min
    {
      assert u in survivors;
      WindowsAreStaggered(voters, v, u);
    }
  }

  // ---- Payload slots ------------------------------------------------------------------

  /** `enumerate` collected into a map: a repeated voter keeps its last position. */
  function Enumerate(voters: seq<VoterId>): (r: map<VoterId, nat>)
    ensures forall v :: v in r <==> v in voters
    ensures forall v :: v in r ==> r[v] < |voters| && voters[r[v]] == v && v !in voters[r[v] + 1..]
  {
    if voters == [] then map[]
    else
      var n := |voters| - 1;
      assert voters == voters[..n] + [voters[n]];
      Enumerate(voters[..n])[voters[n] := n]
  }

  /** Every listed voter's slot is its rank. */
  predicate SlotsAreRanks(slots: map<VoterId, nat>, voters: seq<VoterId>) {
    forall v :: v in voters ==> v in slots && slots[v] == Rank(voters, v)
  }

  /** For distinct voters, enumerating a list gives every voter its rank exactly when the list is
      in ascending order. */
  lemma EnumerateRanksIff(voters: seq<VoterId>)
    requires Distinct(voters)
    ensures SlotsAreRanks(Enumerate(voters), voters) <==> StrictlyAscending(voters)
  {
    var slots := Enumerate(voters);
    forall i | 0 <= i < |voters| ensures slots[voters[i]] == i { assert voters[i] in voters; }
    if StrictlyAscending(voters) {
      forall v | v in voters ensures slots[v] == Rank(voters, v) { PositionIsRank(voters, slots[v]); }
    }
    if SlotsAreRanks(slots, voters) {
      forall i, j | 0 <= i < j < |voters| ensures voters[i] < voters[j] {
        assert voters[i] in voters && voters[j] in voters;
        if voters[j] < voters[i] { RanksFollowIds(voters, voters[j], voters[i]); }
      }
    }
  }

  /** The peer map of the payload transport. */
  class PayloadPeers {
    var nodes: map<VoterId, string>
    var slots: map<VoterId, nat>

    /** `canonical_payload_peers`: distinct peers in any order all get their rank as slot. */
    constructor (peers: seq<(VoterId, string)>)
      ensures forall v :: v in nodes <==> v in Ids(peers)
      ensures NodesAreLast(nodes, peers)
      ensures Distinct(Ids(peers)) ==> OwnNodes(nodes, peers)
      ensures slots == Enumerate(Sort(Ids(peers)))
      ensures Distinct(Ids(peers)) ==> SlotsAreRanks(slots, Ids(peers))
    {
      nodes, slots := NodesOf(peers), Enumerate(Sort(Ids(peers)));
      LastNodeWins(peers);
      if Distinct(Ids(peers)) { DistinctOwnNodes(peers); }
      CanonicalSlotsAreRanks(Ids(peers));
    }

    /** `set_payload_voters`: refused, with nothing changed, when a voter has no node; otherwise the
        slots follow the list, and are ranks exactly when the list of distinct voters ascends. */
    method SetPayloadVoters(voters: seq<VoterId>) returns (r: Result<()>)
      modifies this`slots
      ensures r.Ok? <==> forall i :: 0 <= i < |voters| ==> voters[i] in nodes
      ensures nodes == old(nodes) && (r.Err? ==> slots == old(slots))
      ensures r.Ok? ==> slots == Enumerate(voters)
      ensures r.Ok? && Distinct(voters) ==> (SlotsAreRanks(slots, voters) <==> StrictlyAscending(voters))
    {
      for i := 0 to |voters|
        invariant forall k :: 0 <= k < i ==> voters[k] in nodes
      {
        if voters[i] !in nodes { return Err("payload voter lacks node identity"); }
      }
      slots := Enumerate(voters);
      if Distinct(voters) { EnumerateRanksIff(voters); }
      return Ok(());
    }
  }

  /** The node named for each voter id. */
  function NodesOf(peers: seq<(VoterId, string)>): (r: map<VoterId, string>)
    ensures forall v :: v in r <==> v in Ids(peers)
  {
    if peers == [] then map[]
    else
      var n := |peers| - 1;
      assert Ids(peers) == Ids(peers[..n]) + [peers[n].0];
      NodesOf(peers[..n])[peers[n].0 := peers[n].1]
  }

  /** Peer `i` is the last one listed under its id. */
  predicate LastNamed(peers: seq<(VoterId, string)>, i: nat)
    requires i < |peers|
  {
    forall j :: i < j < |peers| ==> peers[j].0 != peers[i].0
  }

  /** Every voter has the node named last for it. */
  predicate NodesAreLast(nodes: map<VoterId, string>, peers: seq<(VoterId, string)>) {
    forall i :: 0 <= i < |peers| && LastNamed(peers, i) ==> peers[i].0 in nodes && nodes[peers[i].0] == peers[i].1
  }

  lemma LastInFront(peers: seq<(VoterId, string)>, i: nat)
    requires i + 1 < |peers| && LastNamed(peers, i)
    ensures LastNamed(peers[..|peers| - 1], i) && peers[|peers| - 1].0 != peers[i].0
  {
    var front := peers[..|peers| - 1];
    forall j | i < j < |front| ensures front[j].0 != front[i].0 { assert peers[j].0 != peers[i].0; }
  }

  lemma {:induction false} LastNodeAt(peers: seq<(VoterId, string)>, i: nat)
    requires i < |peers| && LastNamed(peers, i)
    ensures peers[i].0 in NodesOf(peers) && NodesOf(peers)[peers[i].0] == peers[i].1
    decreases |peers|
  {
    if i + 1 < |peers| {
      LastInFront(peers, i);
      LastNodeAt(peers[..|peers| - 1], i);
    }
  }

  lemma LastNodeWins(peers: seq<(VoterId, string)>)
    ensures NodesAreLast(NodesOf(peers), peers)
  {
    forall i | 0 <= i < |peers| && LastNamed(peers, i)
      ensures peers[i].0 in NodesOf(peers) && NodesOf(peers)[peers[i].0] == peers[i].1
    {
      LastNodeAt(peers, i);
    }
  }

  /** With distinct ids every peer has its own node. */
  predicate OwnNodes(nodes: map<VoterId, string>, peers: seq<(VoterId, string)>) {
    forall i :: 0 <= i < |peers| ==> peers[i].0 in nodes && nodes[peers[i].0] == peers[i].1
  }

  lemma DistinctOwnNodes(peers: seq<(VoterId, string)>)
    requires Distinct(Ids(peers))
    ensures OwnNodes(NodesOf(peers), peers)
  {
    forall i | 0 <= i < |peers| ensures peers[i].0 in NodesOf(peers) && NodesOf(peers)[peers[i].0] == peers[i].1 {
      DistinctAreLast(peers, i);
      LastNodeAt(peers, i);
    }
  }

  /** With distinct ids every peer is the last under its own. */
  lemma DistinctAreLast(peers: seq<(VoterId, string)>, i: nat)
    requires Distinct(Ids(peers)) && i < |peers|
    ensures LastNamed(peers, i)
  {
    forall j | i < j < |peers| ensures peers[j].0 != peers[i].0 { assert Ids(peers)[i] != Ids(peers)[j]; }
  }

  function Ids(peers: seq<(VoterId, string)>): (r: seq<VoterId>)
    ensures |r| == |peers| && forall i :: 0 <= i < |r| ==> r[i] == peers[i].0
  {
    seq(|peers|, i requires 0 <= i < |peers| => peers[i].0)
  }

  /** Sorting first makes every voter's slot its rank, whatever order the peers came in. */
  lemma CanonicalSlotsAreRanks(ids: seq<VoterId>)
    ensures Distinct(ids) ==> SlotsAreRanks(Enumerate(Sort(ids)), ids)
  {
    if Distinct(ids) {
      SortedDistinct(ids);
      SortKeepsMembers(ids);
      EnumerateRanksIff(Sort(ids));
      forall v | v in ids ensures Rank(Sort(ids), v) == Rank(ids, v) { RankIgnoresOrder(Sort(ids), ids, v); }
    }
  }
}
