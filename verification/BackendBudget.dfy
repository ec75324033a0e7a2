/** One concurrency budget per bucket: racing callers memoize one set of clients per bucket, and
    every typed, raw and listing request through them draws on that bucket's one semaphore, for
    the life of its body stream but never across a backoff sleep. */
module BackendBudget {
  import opened Basics

  type Bucket = string

  /** The handles built for one bucket. Semaphores and breakers are named by numbers. */
  datatype BucketClients = BucketClients(bucket: Bucket, store: nat, raw: Option<nat>, breaker: nat)

  /** `build_clients`: one fresh semaphore and breaker, shared by the typed and raw surfaces. */
  function BuildClients(id: nat, bucket: Bucket, hasRaw: bool): BucketClients {
    var semaphore, breaker := id, id;
    BucketClients(bucket, semaphore, if hasRaw then Some(semaphore) else None, breaker)
  }

  /** A call of `get_or_build`. */
  datatype Lookup =
    | Looking
    | Building
    | Holding(built: nat) // built outside the lock, about to insert
    | Got(clients: nat)
    | Failed

  datatype Caller = Caller(bucket: Bucket, lookup: Lookup)

  datatype Surface = Typed | Raw | Listing

  datatype Point = Admitting | Waiting | InFlight | Streaming | BackingOff | Finished

  /** A request and the permit it holds, named by its semaphore. */
  datatype Request = Request(bucket: Bucket, semaphore: nat, surface: Surface, point: Point, permit: Option<nat>)

  datatype State = State(nextId: nat, built: map<nat, BucketClients>, memo: map<Bucket, nat>,
                         free: map<nat, nat>, callers: map<nat, Caller>, requests: map<nat, Request>)

  const Init: State := State(0, map[], map[], map[], map[], map[])

  /** How the origin answered one attempt. */
  datatype Answer = Done | Body | Retry

  datatype Move = Admitted | Shed | Acquire | Answered(answer: Answer) | Wake | Drained | Dropped

  datatype Step =
    | Call(caller: nat, bucket: Bucket, served: bool)
    | Look(caller: nat)
    | Build(caller: nat, ok: bool, hasRaw: bool)
    | Insert(caller: nat)
    | Start(request: nat, caller: nat, surface: Surface)
    | Moves(request: nat, move: Move)

  /** The semaphore a surface of these clients draws on, if it exists. */
  function SemaphoreOf(c: BucketClients, surface: Surface): Option<nat> {
    match surface
    case Raw => c.raw
    case _ => Some(c.store)
  }

  predicate CanMove(free: map<nat, nat>, r: Request, move: Move) {
    match move
    case Admitted => r.point.Admitting?
    case Shed => r.point.Admitting?
    case Acquire => r.point.Waiting? && r.semaphore in free && free[r.semaphore] > 0
    case Answered(answer) => r.point.InFlight? && (answer.Retry? ==> !r.surface.Listing?)
    case Wake => r.point.BackingOff?
    case Drained => r.point.Streaming?
    case Dropped => !r.point.Finished?
  }

  /** Where a move leads, and whether the request still holds a permit there. */
  function Moved(r: Request, move: Move): Request {
    match move
    case Admitted => r.(point := Waiting)
    case Shed => r.(point := Finished)
    case Acquire => r.(point := if r.surface.Listing? then Streaming else InFlight, permit := Some(r.semaphore))
    case Answered(Body) => r.(point := Streaming)                      // the permit moves into the stream
    case Answered(Retry) => r.(point := BackingOff, permit := None)
    case Answered(Done) => r.(point := Finished, permit := None)
    case Wake => r.(point := Waiting)
    case Drained => r.(point := Finished, permit := None)
    case Dropped => r.(point := Finished, permit := None)
  }

  predicate Enabled(s: State, step: Step) {
    match step
    case Call(c, _, _) => c !in s.callers
    case Look(c) => c in s.callers && s.callers[c].lookup.Looking?
    case Build(c, _, _) => c in s.callers && s.callers[c].lookup.Building?
    case Insert(c) => c in s.callers && s.callers[c].lookup.Holding?
    case Start(r, c, surface) =>
      r !in s.requests && c in s.callers && s.callers[c].lookup.Got? && s.callers[c].lookup.clients in s.built &&
      SemaphoreOf(s.built[s.callers[c].lookup.clients], surface).Some?
    case Moves(r, move) => r in s.requests && CanMove(s.free, s.requests[r], move)
  }

  /** Free permits after a request's permit changed. */
  function Settle(free: map<nat, nat>, before: Option<nat>, after: Option<nat>): map<nat, nat> {
    if before.None? && after.Some? && after.value in free && free[after.value] > 0 then
      free[after.value := free[after.value] - 1]
    else if before.Some? && after.None? && before.value in free then free[before.value := free[before.value] + 1]
    else free
  }

  function Next(s: State, step: Step, limit: nat): State
    requires Enabled(s, step)
  {
    match step
    case Call(c, bucket, served) =>
      s.(callers := s.callers[c := Caller(bucket, if served then Looking else Failed)])
    case Look(c) =>
      var bucket := s.callers[c].bucket;
      s.(callers := s.callers[c := Caller(bucket, if bucket in s.memo then Got(s.memo[bucket]) else Building)])
    case Build(c, ok, hasRaw) =>
      if !ok then s.(callers := s.callers[c := s.callers[c].(lookup := Failed)])
      else s.(callers := s.callers[c := s.callers[c].(lookup := Holding(s.nextId))],
              built := s.built[s.nextId := BuildClients(s.nextId, s.callers[c].bucket, hasRaw)],
              free := s.free[s.nextId := limit],
              nextId := s.nextId + 1)
    case Insert(c) =>
      var bucket := s.callers[c].bucket;
      var memo := if bucket in s.memo then s.memo else s.memo[bucket := s.callers[c].lookup.built];
      s.(memo := memo, callers := s.callers[c := Caller(bucket, Got(memo[bucket]))])
    case Start(r, c, surface) =>
      var semaphore := SemaphoreOf(s.built[s.callers[c].lookup.clients], surface).value;
      // A listing streams straight through the limiter; the rest pass the breaker first.
      s.(requests := s.requests[r := Request(s.callers[c].bucket, semaphore, surface,
                                             if surface.Listing? then Waiting else Admitting, None)])
    case Moves(r, move) =>
      var before := s.requests[r];
      var after := Moved(before, move);
      s.(requests := s.requests[r := after], free := Settle(s.free, before.permit, after.permit))
  }

  predicate Legal(steps: seq<Step>, limit: nat)
    decreases |steps|, 0
  {
    steps == [] ||
    (Legal(steps[..|steps| - 1], limit) && Enabled(After(steps[..|steps| - 1], limit), steps[|steps| - 1]))
  }

  function After(steps: seq<Step>, limit: nat): State
    requires Legal(steps, limit)
    decreases |steps|, 1
  {
    if steps == [] then Init else Next(After(steps[..|steps| - 1], limit), steps[|steps| - 1], limit)
  }

  // ---- What every run keeps -----------------------------------------------------------

  /** Requests holding a permit of a semaphore. */
  function Holders(requests: map<nat, Request>, semaphore: nat): set<nat> {
    set r | r in requests && requests[r].permit == Some(semaphore)
  }

  /** Every set of clients has one semaphore and one breaker of its own. */
  ghost predicate ClientsOk(nextId: nat, built: map<nat, BucketClients>, semaphores: set<nat>) {
    && (forall i :: i in built ==> i < nextId && built[i].store == i && built[i].breaker == i)
    && (forall i :: i in built && built[i].raw.Some? ==> built[i].raw.value == i)
    && semaphores == built.Keys
  }

  ghost predicate MemoOk(memo: map<Bucket, nat>, built: map<nat, BucketClients>) {
    forall b :: b in memo ==> memo[b] in built && built[memo[b]].bucket == b
  }

  /** Whoever got clients for a bucket got the memoized ones, built for that bucket. */
  ghost predicate CallerOk(memo: map<Bucket, nat>, built: map<nat, BucketClients>, c: Caller) {
    match c.lookup
    case Got(id) => c.bucket in memo && memo[c.bucket] == id
    case Holding(id) => id in built && built[id].bucket == c.bucket
    case _ => true
  }

  ghost predicate CallersOk(memo: map<Bucket, nat>, built: map<nat, BucketClients>, callers: map<nat, Caller>) {
    forall c :: c in callers ==> CallerOk(memo, built, callers[c])
  }

  /** A request holds a permit exactly while an attempt or its body is in flight. */
  predicate PermitOk(r: Request) {
    r.permit == if r.point.InFlight? || r.point.Streaming? then Some(r.semaphore) else None
  }

  /** It is one of its own bucket's permits. */
  ghost predicate RequestOk(memo: map<Bucket, nat>, r: Request) {
    r.bucket in memo && memo[r.bucket] == r.semaphore && PermitOk(r)
  }

  ghost predicate RequestsOk(memo: map<Bucket, nat>, requests: map<nat, Request>) {
    forall r :: r in requests ==> RequestOk(memo, requests[r])
  }

  ghost predicate Conserved(free: map<nat, nat>, requests: map<nat, Request>, limit: nat) {
    forall k :: k in free ==> free[k] + |Holders(requests, k)| == limit
  }

  ghost predicate LookupInv(s: State) {
    ClientsOk(s.nextId, s.built, s.free.Keys) && MemoOk(s.memo, s.built) && CallersOk(s.memo, s.built, s.callers)
  }

  ghost predicate Inv(s: State, limit: nat) {
    LookupInv(s) && RequestsOk(s.memo, s.requests) && Conserved(s.free, s.requests, limit)
  }

  lemma HoldersUpdate(requests: map<nat, Request>, r: nat, after: Request, k: nat)
    ensures Holders(requests[r := after], k) ==
              if after.permit == Some(k) then Holders(requests, k) + {r} else Holders(requests, k) - {r}
    ensures (r in Holders(requests, k)) == (r in requests && requests[r].permit == Some(k))
  {
  }

  /** A permit is kept, taken from a semaphore that has one free, or given back. */
  predicate Exchange(free: map<nat, nat>, before: Option<nat>, after: Option<nat>) {
    before == after || (before.None? && after.Some? && after.value in free && free[after.value] > 0) ||
    (before.Some? && after.None?)
  }

  /** Taking or returning one permit keeps the sum, for every semaphore. */
  lemma SettleConserves(free: map<nat, nat>, requests: map<nat, Request>, r: nat, after: Request, k: nat, limit: nat)
    requires r in requests && k in free && free[k] + |Holders(requests, k)| == limit
    requires Exchange(free, requests[r].permit, after.permit)
    ensures var free' := Settle(free, requests[r].permit, after.permit);
            free'.Keys == free.Keys && free'[k] + |Holders(requests[r := after], k)| == limit
  {
    HoldersUpdate(requests, r, after, k);
  }

  /** A move gains or loses a permit only as the limiter does. */
  lemma PermitOfMove(free: map<nat, nat>, r: Request, move: Move)
    requires CanMove(free, r, move) && PermitOk(r)
    ensures PermitOk(Moved(r, move)) && Exchange(free, r.permit, Moved(r, move).permit)
    ensures Moved(r, move).bucket == r.bucket && Moved(r, move).semaphore == r.semaphore
  {
  }

  lemma MoveConserves(free: map<nat, nat>, requests: map<nat, Request>, r: nat, move: Move, limit: nat)
    requires r in requests && CanMove(free, requests[r], move) && PermitOk(requests[r])
    requires Conserved(free, requests, limit)
    ensures var after := Moved(requests[r], move);
            var free' := Settle(free, requests[r].permit, after.permit);
            free'.Keys == free.Keys && Conserved(free', requests[r := after], limit)
  {
    var after := Moved(requests[r], move);
    PermitOfMove(free, requests[r], move);
    forall k | k in free
      ensures var free' := Settle(free, requests[r].permit, after.permit);
              k in free' && free'[k] + |Holders(requests[r := after], k)| == limit
    {
      SettleConserves(free, requests, r, after, k, limit);
    }
  }

  lemma MoveKeeps(s: State, r: nat, move: Move, limit: nat)
    requires Inv(s, limit) && Enabled(s, Moves(r, move))
    ensures Inv(Next(s, Moves(r, move), limit), limit)
  {
    assert RequestOk(s.memo, s.requests[r]);
    PermitOfMove(s.free, s.requests[r], move);
    MoveConserves(s.free, s.requests, r, move, limit);
  }

  /** A request that starts without a permit changes no sum. */
  lemma StartConserves(free: map<nat, nat>, requests: map<nat, Request>, r: nat, started: Request, limit: nat)
    requires r !in requests && started.permit.None? && Conserved(free, requests, limit)
    ensures Conserved(free, requests[r := started], limit)
  {
    forall k | k in free ensures free[k] + |Holders(requests[r := started], k)| == limit {
      HoldersUpdate(requests, r, started, k);
      assert Holders(requests[r := started], k) == Holders(requests, k);
    }
  }

  lemma StartKeeps(s: State, r: nat, c: nat, surface: Surface, limit: nat)
    requires Inv(s, limit) && Enabled(s, Start(r, c, surface))
    ensures Inv(Next(s, Start(r, c, surface), limit), limit)
  {
    var s' := Next(s, Start(r, c, surface), limit);
    assert CallerOk(s.memo, s.built, s.callers[c]);
    StartConserves(s.free, s.requests, r, s'.requests[r], limit);
  }

  /** The tables of `t` extend those of `s`; a new semaphore starts with all its permits. */
  ghost predicate Extends(s: State, t: State, limit: nat) {
    && t.requests == s.requests
    && (forall b :: b in s.memo ==> b in t.memo && t.memo[b] == s.memo[b])
    && (forall k :: k in t.free ==> if k in s.free then t.free[k] == s.free[k] else k == s.nextId && t.free[k] == limit)
  }

  lemma BuildKeeps(s: State, c: nat, ok: bool, hasRaw: bool, limit: nat)
    requires LookupInv(s) && Enabled(s, Build(c, ok, hasRaw))
    ensures var t := Next(s, Build(c, ok, hasRaw), limit); LookupInv(t) && Extends(s, t, limit)
  {
    var t := Next(s, Build(c, ok, hasRaw), limit);
    forall d | d in t.callers ensures CallerOk(t.memo, t.built, t.callers[d]) {
      assert CallerOk(s.memo, s.built, s.callers[d]);
    }
  }

  lemma InsertKeeps(s: State, c: nat, limit: nat)
    requires LookupInv(s) && Enabled(s, Insert(c))
    ensures var t := Next(s, Insert(c), limit); LookupInv(t) && Extends(s, t, limit)
  {
    var t := Next(s, Insert(c), limit);
    forall d | d in t.callers ensures CallerOk(t.memo, t.built, t.callers[d]) {
      assert CallerOk(s.memo, s.built, s.callers[d]);
    }
  }

  lemma LookupKeeps(s: State, step: Step, limit: nat)
    requires LookupInv(s) && Enabled(s, step) && !step.Start? && !step.Moves?
    ensures var t := Next(s, step, limit); LookupInv(t) && Extends(s, t, limit)
  {
    if step.Build? {
      BuildKeeps(s, step.caller, step.ok, step.hasRaw, limit);
    } else if step.Insert? {
      InsertKeeps(s, step.caller, limit);
    }
  }

  lemma FreshSemaphoreUnheld(s: State, limit: nat)
    requires Inv(s, limit)
    ensures Holders(s.requests, s.nextId) == {}
  {
    forall r | r in s.requests ensures s.requests[r].permit != Some(s.nextId) {
      assert RequestOk(s.memo, s.requests[r]);
    }
  }

  /** Growing tables disturb no request and no sum of permits. */
  lemma ExtensionKeeps(s: State, t: State, limit: nat)
    requires Inv(s, limit) && LookupInv(t) && Extends(s, t, limit)
    ensures Inv(t, limit)
  {
    FreshSemaphoreUnheld(s, limit);
    forall r | r in t.requests ensures RequestOk(t.memo, t.requests[r]) { assert RequestOk(s.memo, s.requests[r]); }
  }

  lemma StepKeeps(s: State, step: Step, limit: nat)
    requires Inv(s, limit) && Enabled(s, step)
    ensures Inv(Next(s, step, limit), limit)
  {
    if step.Start? {
      StartKeeps(s, step.request, step.caller, step.surface, limit);
    } else if step.Moves? {
      MoveKeeps(s, step.request, step.move, limit);
    } else {
      LookupKeeps(s, step, limit);
      ExtensionKeeps(s, Next(s, step, limit), limit);
    }
  }

  lemma {:induction false} RunKeeps(steps: seq<Step>, limit: nat)
    requires Legal(steps, limit)
    ensures Inv(After(steps, limit), limit)
  {
    if steps != [] {
      RunKeeps(steps[..|steps| - 1], limit);
      StepKeeps(After(steps[..|steps| - 1], limit), steps[|steps| - 1], limit);
    }
  }

  // ---- Main results -------------------------------------------------------------------

  /** However callers race, all that succeed for one bucket share one set of clients: one typed
      and raw semaphore and one breaker; and no two buckets share any. */
  lemma OneBudgetPerBucket(steps: seq<Step>, limit: nat, c: nat, d: nat)
    requires Legal(steps, limit)
    requires var callers := After(steps, limit).callers;
             c in callers && d in callers && callers[c].lookup.Got? && callers[d].lookup.Got?
    ensures var s := After(steps, limit);
            var (x, y) := (s.callers[c].lookup.clients, s.callers[d].lookup.clients);
            && x in s.built && y in s.built
            && (s.callers[c].bucket == s.callers[d].bucket <==> x == y)
            && (x == y <==> s.built[x].breaker == s.built[y].breaker)
            && (x == y <==> s.built[x].store == s.built[y].store)
            && (s.built[x].raw.Some? ==> s.built[x].raw.value == s.built[x].store)
  {
    RunKeeps(steps, limit);
    var s := After(steps, limit);
    assert CallerOk(s.memo, s.built, s.callers[c]) && CallerOk(s.memo, s.built, s.callers[d]);
  }

  /** A bucket's requests with an attempt or a body in flight, on any surface. */
  function Busy(s: State, b: Bucket): set<nat> {
    set r | r in s.requests && s.requests[r].bucket == b &&
            (s.requests[r].point.InFlight? || s.requests[r].point.Streaming?)
  }

  /** At every moment of every run: a served bucket's free permits plus its typed, raw and listing
      requests in flight or streaming equal the limit. */
  lemma PermitsAreConserved(steps: seq<Step>, limit: nat, b: Bucket)
    requires Legal(steps, limit) && b in After(steps, limit).memo
    ensures var s := After(steps, limit);
            s.memo[b] in s.free && s.free[s.memo[b]] + |Busy(s, b)| == limit
  {
    RunKeeps(steps, limit);
    var s := After(steps, limit);
    assert Busy(s, b) == Holders(s.requests, s.memo[b]) by {
      forall r | r in s.requests ensures r in Busy(s, b) <==> s.requests[r].permit == Some(s.memo[b]) {
        assert RequestOk(s.memo, s.requests[r]);
      }
    }
    assert s.free[s.memo[b]] + |Holders(s.requests, s.memo[b])| == limit;
  }

  /** How a holder gives its permit back in the ordinary course: an answer, or the end of its body. */
  function Completion(r: Request): Move { if r.point.InFlight? then Answered(Done) else Drained }

  /** Request `q` holds the permit `r` waits for, and its completion lets `r` go ahead. */
  ghost predicate Unblocks(s: State, q: nat, r: nat, limit: nat)
    requires r in s.requests
  {
    q in s.requests && s.requests[q].permit == Some(s.requests[r].semaphore) &&
    var give := Moves(q, Completion(s.requests[q]));
    Enabled(s, give) && Enabled(Next(s, give, limit), Moves(r, Acquire))
  }

  lemma HolderUnblocks(s: State, q: nat, r: nat, limit: nat)
    requires q in s.requests && r in s.requests && RequestOk(s.memo, s.requests[q]) && RequestOk(s.memo, s.requests[r])
    requires s.requests[q].permit == Some(s.requests[r].semaphore) && s.requests[r].point.Waiting?
    requires s.requests[r].semaphore in s.free
    ensures Unblocks(s, q, r, limit)
  {
    var a := Moved(s.requests[q], Completion(s.requests[q]));
    assert a.permit.None? && q != r;
  }

  /** A request that waits for a permit, or sleeps in backoff, holds none; so a waiting request either
      can take one at once or waits for a holder whose ordinary completion frees one it can take. */
  lemma WaitersHoldNothing(steps: seq<Step>, limit: nat, r: nat)
    requires Legal(steps, limit) && limit >= 1
    requires var requests := After(steps, limit).requests;
             r in requests && (requests[r].point.Waiting? || requests[r].point.BackingOff?)
    ensures var s := After(steps, limit);
            && s.requests[r].permit == None
            && (s.requests[r].point.Waiting? ==> Enabled(s, Moves(r, Acquire)) || exists q :: Unblocks(s, q, r, limit))
  {
    RunKeeps(steps, limit);
    var s := After(steps, limit);
    assert RequestOk(s.memo, s.requests[r]);
    if s.requests[r].point.Waiting? { SomeoneUnblocks(s, r, limit); }
  }

  /** A semaphore with no permit free has a holder. */
  lemma SomeHolder(free: map<nat, nat>, requests: map<nat, Request>, k: nat, limit: nat) returns (q: nat)
    requires Conserved(free, requests, limit) && limit >= 1 && k in free && free[k] == 0
    ensures q in requests && requests[q].permit == Some(k)
  {
    assert |Holders(requests, k)| == limit;
    q :| q in Holders(requests, k);
  }

  lemma SomeoneUnblocks(s: State, r: nat, limit: nat)
    requires Inv(s, limit) && limit >= 1 && r in s.requests && s.requests[r].point.Waiting?
    ensures Enabled(s, Moves(r, Acquire)) || exists q :: Unblocks(s, q, r, limit)
  {
    assert RequestOk(s.memo, s.requests[r]);
    var k := s.requests[r].semaphore;
    if s.free[k] == 0 {
      var q := SomeHolder(s.free, s.requests, k, limit);
      assert RequestOk(s.memo, s.requests[q]);
      HolderUnblocks(s, q, r, limit);
    }
  }

  /** Only the semaphore of the permit that changed hands is touched. */
  lemma SettleTouchesOne(free: map<nat, nat>, before: Option<nat>, after: Option<nat>, k: nat)
    requires k in free && before != Some(k) && after != Some(k)
    ensures k in Settle(free, before, after) && Settle(free, before, after)[k] == free[k]
  {
  }

  /** A request of one bucket never moves another bucket's permits. */
  lemma BucketsAreIsolated(steps: seq<Step>, limit: nat, r: nat, move: Move, b: Bucket)
    requires Legal(steps, limit) && Enabled(After(steps, limit), Moves(r, move)) && b in After(steps, limit).memo
    requires After(steps, limit).requests[r].bucket != b
    ensures var s := After(steps, limit);
            var t := Next(s, Moves(r, move), limit);
            s.memo[b] in s.free && s.memo[b] in t.free && t.free[s.memo[b]] == s.free[s.memo[b]]
  {
    RunKeeps(steps, limit);
    OthersUntouched(After(steps, limit), limit, r, move, b);
  }

  lemma OthersUntouched(s: State, limit: nat, r: nat, move: Move, b: Bucket)
    requires Inv(s, limit) && Enabled(s, Moves(r, move)) && b in s.memo && s.requests[r].bucket != b
    ensures var t := Next(s, Moves(r, move), limit);
            s.memo[b] in s.free && s.memo[b] in t.free && t.free[s.memo[b]] == s.free[s.memo[b]]
  {
    var before, k := s.requests[r], s.memo[b];
    assert RequestOk(s.memo, before);
    assert before.semaphore != k;
    PermitOfMove(s.free, before, move);
    SettleTouchesOne(s.free, before.permit, Moved(before, move).permit, k);
  }

  // ---- What the moves of a request say about its permit --------------------------------

  /** The request holds a permit, read off the steps alone: it acquired one and has neither been answered for
      good or for a retry, nor drained its body, nor been dropped since. */
  predicate HoldsBy(steps: seq<Step>, r: nat) {
    steps != [] &&
    match steps[|steps| - 1]
    case Moves(q, move) =>
      if q != r then HoldsBy(steps[..|steps| - 1], r)
      else (match move
            case Acquire => true
            case Answered(Retry) => false
            case Answered(Done) => false
            case Drained => false
            case Dropped => false
            case _ => HoldsBy(steps[..|steps| - 1], r))
    case _ => HoldsBy(steps[..|steps| - 1], r)
  }

  /** Over every run, a request holds a permit exactly when its own moves say so; so a retried request holds
      one again only after acquiring it again. */
  lemma {:induction false} PermitFollowsMoves(steps: seq<Step>, limit: nat, r: nat)
    requires Legal(steps, limit)
    ensures var requests := After(steps, limit).requests;
            (r in requests && requests[r].permit.Some?) <==> HoldsBy(steps, r)
    decreases |steps|
  {
    if steps != [] {
      var front, last := steps[..|steps| - 1], steps[|steps| - 1];
      PermitFollowsMoves(front, limit, r);
      StepPermit(After(front, limit), last, limit, r);
    }
  }

  lemma StepPermit(s: State, step: Step, limit: nat, r: nat)
    requires Enabled(s, step)
    ensures var before := if r in s.requests then s.requests[r].permit else None;
            var t := Next(s, step, limit).requests;
            var after := if r in t then t[r].permit else None;
            if step.Moves? && step.request == r then
              r in s.requests && r in t && after == Moved(s.requests[r], step.move).permit
            else after == before
  {
  }

  /** Once finished, a request stays finished. */
  lemma FinishedStays(s: State, step: Step, limit: nat, r: nat)
    requires Enabled(s, step) && r in s.requests && s.requests[r].point.Finished?
    ensures var t := Next(s, step, limit).requests; r in t && t[r] == s.requests[r]
  {
  }

  /** A request the breaker shed never holds a permit, from then to the end of any run. */
  lemma {:induction false} ShedNeverHolds(steps: seq<Step>, limit: nat, k: nat, r: nat)
    requires Legal(steps, limit) && k < |steps| && steps[k] == Moves(r, Shed)
    ensures var requests := After(steps, limit).requests;
            r in requests && requests[r].point.Finished? && requests[r].permit.None?
    decreases |steps|
  {
    var front := steps[..|steps| - 1];
    if k < |front| {
      ShedNeverHolds(front, limit, k, r);
      FinishedStays(After(front, limit), steps[|steps| - 1], limit, r);
    } else {
      RunKeeps(front, limit);
      assert RequestOk(After(front, limit).memo, After(front, limit).requests[r]);
    }
  }

  /** A request in backoff comes back: it wakes, and with a permit free it is in flight again holding one. */
  lemma BackoffReturns(s: State, limit: nat, r: nat)
    requires Inv(s, limit) && r in s.requests && s.requests[r].point.BackingOff? && !s.requests[r].surface.Listing?
    requires s.free[s.requests[r].semaphore] > 0
    ensures Enabled(s, Moves(r, Wake)) && Enabled(Next(s, Moves(r, Wake), limit), Moves(r, Acquire))
    ensures var t := Next(Next(s, Moves(r, Wake), limit), Moves(r, Acquire), limit);
            t.requests[r].point.InFlight? && t.requests[r].permit == Some(s.requests[r].semaphore)
  {
    assert RequestOk(s.memo, s.requests[r]);
  }

  // ---- The memo in place --------------------------------------------------------------

  datatype Result<+T> = Ok(value: T) | NotServed | BuildFailed

  /** The memo behind its lock, and what a racing caller may add to it while the lock is free. */
  class BackendStore {
    const served: set<Bucket>
    var clients: map<Bucket, BucketClients>

    constructor (served: set<Bucket>)
      ensures this.served == served && clients == map[]
    {
      this.served := served;
      clients := map[];
    }

    /** `get_or_build`. Between the look-up and the insertion other callers add `racers`; `candidate` is
        what this caller's own build gives, or none if it fails. A memoized entry is never replaced,
        and a success returns the memoized one. */
    method GetOrBuild(bucket: Bucket, racers: map<Bucket, BucketClients>, candidate: Option<BucketClients>)
      returns (r: Result<BucketClients>)
      modifies this
      ensures bucket !in served ==> r == NotServed && clients == old(clients)
      ensures r.Ok? ==> bucket in clients && r.value == clients[bucket]
      ensures forall b :: b in old(clients) ==> b in clients && clients[b] == old(clients[b])
      ensures forall b :: b in clients ==>
                b in old(clients) || (b in racers && clients[b] == racers[b]) ||
                (b == bucket && r.Ok? && candidate == Some(clients[b]))
      ensures r == BuildFailed <==> bucket in served && bucket !in old(clients) && candidate.None?
      ensures r == BuildFailed && bucket !in racers ==> bucket !in clients
      ensures bucket in old(clients) && r.Ok? ==> clients == old(clients)
    {
      if bucket !in served { return NotServed; }
      if bucket in clients { return Ok(clients[bucket]); }
      clients := racers + clients;
      if candidate.None? { return BuildFailed; }
      if bucket !in clients { clients := clients[bucket := candidate.value]; }
      r := Ok(clients[bucket]);
    }
  }
}
