/** Fragment uploads: a relay task pulls shards from a request body and sends them through a bounded
    channel to a blocking worker, which owns the temporary file and renames it into place. Any number
    of uploads run at once against one store. */
module UploadRelay {
  import opened Basics
  import opened FragmentCodec

  type Key = string

  const CHANNEL_CAPACITY: nat := 4

  datatype Message = Shard(bytes: Bytes) | Complete | Abort(error: nat)

  /** The request body so far: still running, ended, or failed. */
  datatype Body = Running | Ended | Broken(error: nat)

  datatype Failure =
    | StreamFailed(error: nat)  // the body failed and the worker was told so
    | WriterStopped             // a send found the receiver gone
    | RelayStopped              // the worker saw the channel close early
    | StoreFailed               // open, append, trailer, fsync or rename failed
    | DirectorySyncFailed       // the rename happened, its barrier failed
    | WorkerDied(at: Worker)    // a panic or a cancelled worker, and where it struck

  datatype Outcome = Stored | Failed(failure: Failure)

  datatype Relay = Pulling | Sending(message: Message) | Joining | Returned(outcome: Outcome) | Cancelled

  datatype Worker = Opening | Receiving | Committing | Syncing | Finished(outcome: Outcome)

  /** One upload. `pulled` is the history of shards the body delivered; `temp` is the temporary file's
      payload; `renamed` records that the file was moved into place. */
  datatype Upload = Upload(
    key: Key, body: Body, pulled: seq<Bytes>, relay: Relay, channel: seq<Message>, worker: Worker, temp: Bytes,
    renamed: bool)

  function Begin(key: Key): Upload { Upload(key, Running, [], Pulling, [], Opening, [], false) }

  datatype Move =
    | PullShard(bytes: Bytes) | PullEnd | PullError(error: nat) | Send | SendRefused | Join | Cancel
    | Open(ok: bool) | Take(ok: bool) | HangUp | Rename | CommitFails | SyncDirectory(ok: bool) | Die

  /** The receiver is dropped, and the channel closed, when the worker returns. */
  predicate ReceiverOpen(u: Upload) { !u.worker.Finished? }

  /** The sender is dropped when the relay returns or is dropped itself. */
  predicate SenderOpen(u: Upload) { u.relay.Pulling? || u.relay.Sending? || u.relay.Joining? }

  predicate Enabled(u: Upload, m: Move) {
    match m
    case PullShard(_) => u.relay.Pulling?
    case PullEnd => u.relay.Pulling?
    case PullError(_) => u.relay.Pulling?
    case Send => u.relay.Sending? && ReceiverOpen(u) && |u.channel| < CHANNEL_CAPACITY
    case SendRefused => u.relay.Sending? && !ReceiverOpen(u)
    case Join => u.relay.Joining? && u.worker.Finished?
    case Cancel => SenderOpen(u)
    case Open(_) => u.worker.Opening?
    case Take(_) => u.worker.Receiving? && u.channel != []
    case HangUp => u.worker.Receiving? && u.channel == [] && !SenderOpen(u)
    case Rename => u.worker.Committing?
    case CommitFails => u.worker.Committing?
    case SyncDirectory(_) => u.worker.Syncing?
    case Die => ReceiverOpen(u)
  }

  /** The worker returns: the receiver goes and with it whatever it had not read. */
  function Finish(u: Upload, o: Outcome): Upload { u.(worker := Finished(o), channel := []) }

  function Receive(u: Upload, ok: bool): Upload
    requires u.channel != []
  {
    var rest := u.(channel := u.channel[1..]);
    match u.channel[0]
    case Shard(b) => if ok then rest.(temp := u.temp + b) else Finish(u, Failed(StoreFailed))
    case Complete => rest.(worker := Committing)
    case Abort(e) => Finish(u, Failed(StreamFailed(e)))
  }

  function Act(u: Upload, m: Move): Upload
    requires Enabled(u, m)
  {
    match m
    case PullShard(b) => u.(pulled := u.pulled + [b], relay := Sending(Shard(b)))
    case PullEnd => u.(body := Ended, relay := Sending(Message.Complete))
    case PullError(e) => u.(body := Broken(e), relay := Sending(Abort(e)))
    case Send =>
      u.(channel := u.channel + [u.relay.message], relay := if u.relay.message.Shard? then Pulling else Joining)
    case SendRefused => u.(relay := Returned(Failed(WriterStopped)))
    case Join => u.(relay := Returned(u.worker.outcome))
    case Cancel => u.(relay := Cancelled)
    case Open(ok) => if ok then u.(worker := Receiving) else Finish(u, Failed(StoreFailed))
    case Take(ok) => Receive(u, ok)
    case HangUp => Finish(u, Failed(RelayStopped))
    case Rename => u.(worker := Syncing, renamed := true)
    case CommitFails => Finish(u, Failed(StoreFailed))
    case SyncDirectory(ok) => Finish(u, if ok then Stored else Failed(DirectorySyncFailed))
    case Die => Finish(u, Failed(WorkerDied(u.worker)))
  }

  // ---- What the channel carries -------------------------------------------------------

  function BytesOf(m: Message): Bytes { if m.Shard? then m.bytes else [] }

  function Carried(ms: seq<Message>): Bytes { if ms == [] then [] else BytesOf(ms[0]) + Carried(ms[1..]) }

  lemma CarriedCons(m: Message, ms: seq<Message>)
    ensures Carried([m] + ms) == BytesOf(m) + Carried(ms)
  {
    assert ([m] + ms)[1..] == ms;
  }

  lemma Regroup(a: Bytes, b: Bytes, c: Bytes)
    ensures a + (b + c) == (a + b) + c
  {
  }

  lemma {:induction false} CarriedAppend(ms: seq<Message>, m: Message)
    ensures Carried(ms + [m]) == Carried(ms) + BytesOf(m)
    decreases |ms|
  {
    if ms == [] {
      assert ms + [m] == [m] + [];
      CarriedCons(m, []);
    } else {
      var first, rest := ms[0], ms[1..];
      CarriedAppend(rest, m);
      assert ms == [first] + rest && ms + [m] == [first] + (rest + [m]);
      CarriedCons(first, rest);
      CarriedCons(first, rest + [m]);
      Regroup(BytesOf(first), Carried(rest), BytesOf(m));
    }
  }

  predicate AllShards(ms: seq<Message>) { forall i :: 0 <= i < |ms| ==> ms[i].Shard? }

  /** The last word of a relay, given how its body ended. */
  predicate LastWord(m: Message, body: Body) {
    match body case Running => false case Ended => m == Message.Complete case Broken(e) => m == Abort(e)
  }

  /** Shards, then the last word. */
  predicate Closed(ms: seq<Message>, body: Body) {
    ms != [] && AllShards(ms[..|ms| - 1]) && LastWord(ms[|ms| - 1], body)
  }

  /** Everything pulled is in the file, in the channel or in `held`. */
  predicate Accounted(u: Upload, held: Bytes) { u.temp + Carried(u.channel) + held == Concat(u.pulled) }

  // ---- The invariant ------------------------------------------------------------------

  /** While the worker reads, no shard is lost and the last word stands last. */
  predicate FlowInv(u: Upload) {
    match u.relay
    case Pulling => u.body.Running? && AllShards(u.channel) && Accounted(u, [])
    case Sending(m) => (m.Shard? <==> u.body.Running?) && (!m.Shard? ==> LastWord(m, u.body)) &&
                       AllShards(u.channel) && Accounted(u, BytesOf(m))
    case Joining => Closed(u.channel, u.body) && Accounted(u, [])
    case Returned(_) => false
    case Cancelled => AllShards(u.channel) || (Closed(u.channel, u.body) && Accounted(u, []))
  }

  predicate Whole(u: Upload) { u.body.Ended? && u.temp == Concat(u.pulled) }

  predicate RelayInv(u: Upload) {
    match u.relay
    case Pulling => u.body.Running?
    case Sending(m) => (m.Shard? <==> u.body.Running?) && (!m.Shard? ==> LastWord(m, u.body))
    case Joining => !u.body.Running?
    case Returned(o) => u.worker.Finished? && (o != u.worker.outcome ==> o == Failed(WriterStopped) && !u.renamed)
    case Cancelled => true
  }

  predicate WorkerInv(u: Upload) {
    match u.worker
    case Opening => FlowInv(u) && u.temp == [] && !u.renamed
    case Receiving => FlowInv(u) && !u.renamed
    case Committing => Whole(u) && !u.renamed && (u.relay.Joining? || u.relay.Cancelled?)
    case Syncing => Whole(u) && u.renamed && (u.relay.Joining? || u.relay.Cancelled?)
    case Finished(o) => OutcomeInv(u, o)
  }

  /** The failure struck at or after the rename. */
  predicate AfterRename(f: Failure) { f == DirectorySyncFailed || f == WorkerDied(Syncing) }

  predicate OutcomeInv(u: Upload, o: Outcome) {
    && (u.renamed ==> Whole(u) && !u.relay.Pulling? && !u.relay.Sending?)
    && (u.renamed <==> o == Stored || (o.Failed? && AfterRename(o.failure)))
    && (o.Failed? && o.failure.StreamFailed? ==> u.body == Broken(o.failure.error))
  }

  predicate Inv(u: Upload) { |u.channel| <= CHANNEL_CAPACITY && RelayInv(u) && WorkerInv(u) }

  lemma PullKeeps(u: Upload, m: Move)
    requires Inv(u) && Enabled(u, m) && (m.PullShard? || m.PullEnd? || m.PullError?)
    ensures Inv(Act(u, m))
  {
    if m.PullShard? {
      Appended(u.pulled, m.bytes);
      assert u.temp + Carried(u.channel) + [] == u.temp + Carried(u.channel);
    }
  }

  lemma SendKeeps(u: Upload)
    requires Inv(u) && Enabled(u, Send)
    ensures Inv(Act(u, Send))
  {
    var m, v := u.relay.message, Act(u, Send);
    CarriedAppend(u.channel, m);
    assert u.temp + (Carried(u.channel) + BytesOf(m)) + [] == u.temp + Carried(u.channel) + BytesOf(m);
    assert v.channel[..|u.channel|] == u.channel;
  }

  lemma TakeShardKeeps(u: Upload)
    requires Inv(u) && Enabled(u, Take(true)) && u.channel[0].Shard?
    ensures Inv(Act(u, Take(true)))
  {
    var m, rest := u.channel[0], u.channel[1..];
    assert u.temp + (m.bytes + Carried(rest)) == u.temp + m.bytes + Carried(rest);
    if |rest| > 0 {
      assert rest[..|rest| - 1] == u.channel[..|u.channel| - 1][1..];
      assert rest[|rest| - 1] == u.channel[|u.channel| - 1];
    }
  }

  /** Only the last word is not a shard, so once it is read the channel is empty. */
  lemma TakeLastKeeps(u: Upload, ok: bool)
    requires Inv(u) && Enabled(u, Take(ok)) && !u.channel[0].Shard?
    ensures Inv(Act(u, Take(ok)))
  {
    var m := u.channel[0];
    assert u.channel == [m];
    assert Carried(u.channel) == [] by { assert Carried(u.channel[1..]) == [] && BytesOf(m) == []; }
    assert u.temp + [] + [] == u.temp;
  }

  lemma TakeKeeps(u: Upload, ok: bool)
    requires Inv(u) && Enabled(u, Take(ok))
    ensures Inv(Act(u, Take(ok)))
  {
    if !u.channel[0].Shard? {
      TakeLastKeeps(u, ok);
    } else if ok {
      TakeShardKeeps(u);
    }
  }

  /** Every move of either side keeps an upload's invariant. */
  lemma MoveKeeps(u: Upload, m: Move)
    requires Inv(u) && Enabled(u, m)
    ensures Inv(Act(u, m))
    ensures u.renamed ==> Act(u, m).renamed && Act(u, m).temp == u.temp
  {
    match m
    case PullShard(_) => PullKeeps(u, m);
    case PullEnd => PullKeeps(u, m);
    case PullError(_) => PullKeeps(u, m);
    case Send => SendKeeps(u);
    case Take(ok) => TakeKeeps(u, ok);
    case SendRefused =>
    case Join =>
    case Cancel =>
    case Open(_) =>
    case HangUp =>
    case Rename =>
    case CommitFails =>
    case SyncDirectory(_) =>
    case Die =>
  }

  // ---- Many uploads, one store --------------------------------------------------------

  /** A live fragment: the upload that placed it and the payload it placed. */
  datatype Fragment = Fragment(owner: nat, payload: Bytes)

  datatype State = State(uploads: map<nat, Upload>, live: map<Key, Fragment>)

  datatype Step = Start(id: nat, key: Key) | Advance(id: nat, move: Move) | Remove(key: Key)

  predicate CanStep(s: State, x: Step) {
    match x
    case Start(id, _) => id !in s.uploads
    case Advance(id, m) => id in s.uploads && Enabled(s.uploads[id], m)
    case Remove(_) => true
  }

  function Next(s: State, x: Step): State
    requires CanStep(s, x)
  {
    match x
    case Start(id, key) => s.(uploads := s.uploads[id := Begin(key)])
    case Advance(id, m) =>
      var u := s.uploads[id];
      State(s.uploads[id := Act(u, m)], if m.Rename? then s.live[u.key := Fragment(id, u.temp)] else s.live)
    case Remove(key) => s.(live := s.live - {key})
  }

  predicate Legal(steps: seq<Step>)
    decreases |steps|, 0
  {
    steps == [] || (Legal(steps[..|steps| - 1]) && CanStep(After(steps[..|steps| - 1]), steps[|steps| - 1]))
  }

  function After(steps: seq<Step>): State
    requires Legal(steps)
    decreases |steps|, 1
  {
    if steps == [] then State(map[], map[]) else Next(After(steps[..|steps| - 1]), steps[|steps| - 1])
  }

  predicate LiveInv(s: State, key: Key)
    requires key in s.live
  {
    var f := s.live[key];
    f.owner in s.uploads &&
    var u := s.uploads[f.owner]; u.key == key && u.renamed && u.temp == f.payload
  }

  predicate StoreInv(s: State) {
    && (forall id :: id in s.uploads ==> Inv(s.uploads[id]))
    && (forall key :: key in s.live ==> LiveInv(s, key))
  }

  lemma AdvanceKeeps(s: State, id: nat, m: Move)
    requires StoreInv(s) && CanStep(s, Advance(id, m))
    ensures StoreInv(Next(s, Advance(id, m)))
  {
    var t := Next(s, Advance(id, m));
    MoveKeeps(s.uploads[id], m);
    forall key | key in t.live ensures LiveInv(t, key) {
      if !(m.Rename? && key == s.uploads[id].key) { assert LiveInv(s, key); }
    }
  }

  lemma StepKeeps(s: State, x: Step)
    requires StoreInv(s) && CanStep(s, x)
    ensures StoreInv(Next(s, x))
  {
    match x
    case Start(id, key) =>
      assert Concat([]) == [] && Carried([]) == [];
      var t := Next(s, x);
      forall k | k in t.live ensures LiveInv(t, k) { assert LiveInv(s, k); }
    case Advance(id, m) => AdvanceKeeps(s, id, m);
    case Remove(key) =>
      var t := Next(s, x);
      forall k | k in t.live ensures LiveInv(t, k) { assert LiveInv(s, k); }
  }

  lemma {:induction false} RunKeeps(steps: seq<Step>)
    requires Legal(steps)
    ensures StoreInv(After(steps))
    decreases |steps|
  {
    if steps != [] {
      RunKeeps(steps[..|steps| - 1]);
      StepKeeps(After(steps[..|steps| - 1]), steps[|steps| - 1]);
    }
  }

  // ---- What the bodies delivered ------------------------------------------------------

  /** The shards the body of upload `id` delivered, read off the steps alone. */
  function Delivered(steps: seq<Step>, id: nat): seq<Bytes> {
    if steps == [] then []
    else
      Delivered(steps[..|steps| - 1], id) +
      match steps[|steps| - 1]
      case Advance(i, PullShard(b)) => if i == id then [b] else []
      case _ => []
  }

  /** How the body of upload `id` ended, if it did. */
  function EndOf(steps: seq<Step>, id: nat): Body {
    if steps == [] then Running
    else match steps[|steps| - 1]
      case Advance(i, PullEnd) => if i == id then Ended else EndOf(steps[..|steps| - 1], id)
      case Advance(i, PullError(e)) => if i == id then Broken(e) else EndOf(steps[..|steps| - 1], id)
      case _ => EndOf(steps[..|steps| - 1], id)
  }

  lemma StepDelivers(s: State, x: Step, id: nat, pulled: seq<Bytes>, body: Body)
    requires CanStep(s, x) && (if id in s.uploads then s.uploads[id].pulled == pulled && s.uploads[id].body == body
                               else pulled == [] && body == Running)
    ensures var more := if x.Advance? && x.id == id && x.move.PullShard? then [x.move.bytes] else [];
            var end := if !x.Advance? || x.id != id then body else match x.move
              case PullEnd => Ended case PullError(e) => Broken(e) case _ => body;
            if id in Next(s, x).uploads then
              Next(s, x).uploads[id].pulled == pulled + more && Next(s, x).uploads[id].body == end
            else pulled + more == [] && end == Running
  {
  }

  /** After every run an upload has pulled exactly what its body delivered, and knows how it ended. */
  lemma {:induction false} PulledIsDelivered(steps: seq<Step>, id: nat)
    requires Legal(steps)
    ensures if id in After(steps).uploads then
              && After(steps).uploads[id].pulled == Delivered(steps, id)
              && After(steps).uploads[id].body == EndOf(steps, id)
            else Delivered(steps, id) == [] && EndOf(steps, id) == Running
    decreases |steps|
  {
    if steps != [] {
      var front, x := steps[..|steps| - 1], steps[|steps| - 1];
      PulledIsDelivered(front, id);
      StepDelivers(After(front), x, id, Delivered(front, id), EndOf(front, id));
    }
  }

  // ---- Safety over every run ----------------------------------------------------------

  /** Whatever is live was placed by one upload of that key whose body ended without error, and holds
      exactly the shards that body delivered, in order. */
  lemma LiveIsACompleteUpload(steps: seq<Step>, key: Key)
    requires Legal(steps) && key in After(steps).live
    ensures var f := After(steps).live[key];
            f.owner in After(steps).uploads &&
            var u := After(steps).uploads[f.owner];
            u.key == key && EndOf(steps, f.owner).Ended? && f.payload == Concat(Delivered(steps, f.owner))
  {
    RunKeeps(steps);
    PulledIsDelivered(steps, After(steps).live[key].owner);
    assert LiveInv(After(steps), key);
    assert Inv(After(steps).uploads[After(steps).live[key].owner]);
  }

  /** Step `j` takes whatever is live under `key` away: a removal, or another rename onto it. */
  ghost predicate Displaces(steps: seq<Step>, j: nat, key: Key)
    requires j < |steps| && Legal(steps[..j]) && CanStep(After(steps[..j]), steps[j])
  {
    match steps[j]
    case Remove(k) => k == key
    case Advance(id, m) => m.Rename? && After(steps[..j]).uploads[id].key == key
    case Start(_, _) => false
  }

  /** Nothing displaced `key` after step `i`. */
  ghost predicate Undisturbed(steps: seq<Step>, i: nat, key: Key)
    requires Legal(steps)
  {
    forall j :: i < j < |steps| ==>
      Legal(steps[..j]) && CanStep(After(steps[..j]), steps[j]) && !Displaces(steps, j, key)
  }

  /** An upload keeps its key, and its file once renamed. */
  lemma UploadStays(s: State, x: Step, id: nat)
    requires StoreInv(s) && CanStep(s, x) && id in s.uploads
    ensures id in Next(s, x).uploads && Next(s, x).uploads[id].key == s.uploads[id].key
    ensures s.uploads[id].renamed ==>
              Next(s, x).uploads[id].renamed && Next(s, x).uploads[id].temp == s.uploads[id].temp
  {
    if x.Advance? && x.id == id { MoveKeeps(s.uploads[id], x.move); }
  }

  lemma UndisturbedBefore(steps: seq<Step>, i: nat, key: Key)
    requires Legal(steps) && steps != [] && Undisturbed(steps, i, key)
    ensures Undisturbed(steps[..|steps| - 1], i, key)
  {
    var front := steps[..|steps| - 1];
    forall j | i < j < |front|
      ensures Legal(front[..j]) && CanStep(After(front[..j]), front[j]) && !Displaces(front, j, key)
    {
      assert front[..j] == steps[..j] && front[j] == steps[j];
      assert !Displaces(steps, j, key);
    }
  }

  /** Upload `id` placed what is live under its key. */
  predicate Placed(s: State, id: nat) {
    id in s.uploads &&
    var u := s.uploads[id]; u.renamed && u.key in s.live && s.live[u.key] == Fragment(id, u.temp)
  }

  lemma StaysPlaced(s: State, x: Step, id: nat)
    requires StoreInv(s) && CanStep(s, x) && Placed(s, id)
    requires x != Remove(s.uploads[id].key)
    requires x.Advance? && x.move.Rename? ==> s.uploads[x.id].key != s.uploads[id].key
    ensures Placed(Next(s, x), id)
  {
    UploadStays(s, x, id);
  }

  /** What upload `id` renamed at step `i` is live until it is displaced. */
  lemma {:induction false} PlacedStaysLive(steps: seq<Step>, i: nat, id: nat)
    requires Legal(steps) && i < |steps| && steps[i] == Advance(id, Rename) && id in After(steps).uploads
    requires Undisturbed(steps, i, After(steps).uploads[id].key)
    ensures Placed(After(steps), id)
    decreases |steps|
  {
    var front, last := steps[..|steps| - 1], steps[|steps| - 1];
    if i < |front| {
      var s, key := After(front), After(steps).uploads[id].key;
      RunKeeps(front);
      StartedBy(front, i, id);
      UploadStays(s, last, id);
      UndisturbedBefore(steps, i, key);
      PlacedStaysLive(front, i, id);
      assert !Displaces(steps, |front|, key);
      StaysPlaced(s, last, id);
    }
  }

  /** An upload that made a move at step `i` was there, and still is. */
  lemma {:induction false} StartedBy(steps: seq<Step>, i: nat, id: nat)
    requires Legal(steps) && i < |steps| && steps[i].Advance? && steps[i].id == id
    ensures id in After(steps).uploads
    decreases |steps|
  {
    if i < |steps| - 1 { StartedBy(steps[..|steps| - 1], i, id); }
  }

  /** A renamed upload has a step that renamed it. */
  lemma {:induction false} RenamedAt(steps: seq<Step>, id: nat) returns (i: nat)
    requires Legal(steps) && id in After(steps).uploads && After(steps).uploads[id].renamed
    ensures i < |steps| && steps[i] == Advance(id, Rename)
    decreases |steps|
  {
    var front, last := steps[..|steps| - 1], steps[|steps| - 1];
    if last == Advance(id, Rename) {
      i := |front|;
    } else {
      i := RenamedAt(front, id);
    }
  }

  /** A handler that reports success did so after the rename (step `i`) and its barrier, and the fragment it
      placed holds the whole body and is live until it is removed or replaced. */
  lemma SuccessIsDurable(steps: seq<Step>, id: nat) returns (i: nat)
    requires Legal(steps) && id in After(steps).uploads && After(steps).uploads[id].relay == Returned(Stored)
    ensures var u := After(steps).uploads[id];
            && u.worker == Finished(Stored) && EndOf(steps, id).Ended? && i < |steps| && steps[i] == Advance(id, Rename)
            && (Undisturbed(steps, i, u.key) ==>
                  u.key in After(steps).live && After(steps).live[u.key] == Fragment(id, Concat(Delivered(steps, id))))
  {
    RunKeeps(steps);
    PulledIsDelivered(steps, id);
    assert Inv(After(steps).uploads[id]);
    i := RenamedAt(steps, id);
    if Undisturbed(steps, i, After(steps).uploads[id].key) { PlacedStaysLive(steps, i, id); }
  }

  /** A body that has not ended, or that failed, never places anything, and is never reported stored. */
  lemma UnfinishedNeverLive(steps: seq<Step>, id: nat)
    requires Legal(steps) && id in After(steps).uploads && !EndOf(steps, id).Ended?
    ensures !After(steps).uploads[id].renamed && After(steps).uploads[id].relay != Returned(Stored)
    ensures forall key :: key in After(steps).live ==> After(steps).live[key].owner != id
  {
    RunKeeps(steps);
    PulledIsDelivered(steps, id);
    assert Inv(After(steps).uploads[id]);
    forall key | key in After(steps).live ensures After(steps).live[key].owner != id {
      assert LiveInv(After(steps), key);
    }
  }

  /** A reported failure leaves the upload's fragment placed if and only if it struck at or after the rename:
      the directory barrier failed, or the worker died before it was done. */
  lemma FailureAndPlacement(steps: seq<Step>, id: nat, f: Failure)
    requires Legal(steps) && id in After(steps).uploads && After(steps).uploads[id].relay == Returned(Failed(f))
    ensures After(steps).uploads[id].renamed <==> AfterRename(f)
    ensures !AfterRename(f) ==> forall key :: key in After(steps).live ==> After(steps).live[key].owner != id
    ensures f.StreamFailed? ==> EndOf(steps, id) == Broken(f.error)
  {
    RunKeeps(steps);
    PulledIsDelivered(steps, id);
    assert Inv(After(steps).uploads[id]);
    if !AfterRename(f) {
      forall key | key in After(steps).live ensures After(steps).live[key].owner != id {
        assert LiveInv(After(steps), key);
      }
    }
  }

  lemma OneMore(steps: seq<Step>, x: Step)
    requires Legal(steps) && CanStep(After(steps), x)
    ensures Legal(steps + [x]) && After(steps + [x]) == Next(After(steps), x)
  {
    assert (steps + [x])[..|steps|] == steps;
  }

  lemma OneMoreTo(steps: seq<Step>, s: State, x: Step, t: State)
    requires Legal(steps) && After(steps) == s && CanStep(s, x) && Next(s, x) == t
    ensures Legal(steps + [x]) && After(steps + [x]) == t
  {
    OneMore(steps, x);
  }

  /** A run of one upload, alone in the store with what it placed, makes one more move. */
  lemma OneMoreMove(steps: seq<Step>, u: Upload, live: map<Key, Fragment>, m: Move, v: Upload)
    requires Legal(steps) && After(steps) == State(map[0 := u], live) && Enabled(u, m) && Act(u, m) == v && !m.Rename?
    ensures Legal(steps + [Advance(0, m)]) && After(steps + [Advance(0, m)]) == State(map[0 := v], live)
  {
    assert map[0 := u][0 := v] == map[0 := v];
    OneMoreTo(steps, State(map[0 := u], live), Advance(0, m), State(map[0 := v], live));
  }

  /** An upload with an empty body that has ended. */
  function EmptyBody(key: Key, relay: Relay, channel: seq<Message>, worker: Worker): Upload {
    Upload(key, Ended, [], relay, channel, worker, [], false)
  }

  /** An empty body that has ended, with the worker ready to hear of it. */
  lemma EmptyBodyEnded(key: Key) returns (run: seq<Step>)
    ensures Legal(run)
    ensures After(run) == State(map[0 := EmptyBody(key, Sending(Message.Complete), [], Receiving)], map[])
  {
    var u := Begin(key);
    OneMoreTo([], State(map[], map[]), Start(0, key), State(map[0 := u], map[]));
    var r0 := [] + [Start(0, key)];
    var v := EmptyBody(key, Sending(Message.Complete), [], Opening);
    OneMoreMove(r0, u, map[], PullEnd, v);
    var r1 := r0 + [Advance(0, PullEnd)];
    OneMoreMove(r1, v, map[], Open(true), v.(worker := Receiving));
    run := r1 + [Advance(0, Open(true))];
  }

  lemma SendsLastWord(key: Key)
    ensures var u := EmptyBody(key, Sending(Message.Complete), [], Receiving);
            Enabled(u, Send) && Act(u, Send) == EmptyBody(key, Joining, [Message.Complete], Receiving)
  {
    assert [] + [Message.Complete] == [Message.Complete];
  }

  lemma TakesLastWord(key: Key)
    ensures var u := EmptyBody(key, Joining, [Message.Complete], Receiving);
            Enabled(u, Take(true)) && Act(u, Take(true)) == EmptyBody(key, Joining, [], Committing)
  {
    assert [Message.Complete][1..] == [];
  }

  /** The same, received, up to its commit. */
  lemma EmptyBodyReceived(key: Key) returns (run: seq<Step>)
    ensures Legal(run) && After(run) == State(map[0 := EmptyBody(key, Joining, [], Committing)], map[])
  {
    var r0 := EmptyBodyEnded(key);
    var u := EmptyBody(key, Sending(Message.Complete), [], Receiving);
    var v := EmptyBody(key, Joining, [Message.Complete], Receiving);
    SendsLastWord(key);
    OneMoreMove(r0, u, map[], Send, v);
    TakesLastWord(key);
    OneMoreMove(r0 + [Advance(0, Send)], v, map[], Take(true), EmptyBody(key, Joining, [], Committing));
    run := r0 + [Advance(0, Send)] + [Advance(0, Take(true))];
  }

  /** Such a failure exists: the handler reports an error for a fragment that is live. */
  lemma FailedButLive(key: Key) returns (run: seq<Step>)
    ensures Legal(run) && 0 in After(run).uploads
    ensures After(run).uploads[0].relay == Returned(Failed(DirectorySyncFailed))
    ensures key in After(run).live && After(run).live[key].owner == 0
  {
    var r0 := EmptyBodyReceived(key);
    var u := EmptyBody(key, Joining, [], Committing);
    var v, live := u.(worker := Syncing, renamed := true), map[key := Fragment(0, [])];
    assert map[0 := u][0 := v] == map[0 := v] && (map[])[key := Fragment(0, [])] == live;
    OneMoreTo(r0, State(map[0 := u], map[]), Advance(0, Rename), State(map[0 := v], live));
    var r1 := r0 + [Advance(0, Rename)];
    var failed := Failed(DirectorySyncFailed);
    OneMoreMove(r1, v, live, SyncDirectory(false), v.(worker := Finished(failed)));
    var r2 := r1 + [Advance(0, SyncDirectory(false))];
    var w := v.(worker := Finished(failed));
    OneMoreMove(r2, w, live, Join, w.(relay := Returned(failed)));
    run := r2 + [Advance(0, Join)];
  }

  /** The upload never buffers more than the channel's four messages. */
  lemma ChannelIsBounded(steps: seq<Step>, id: nat)
    requires Legal(steps) && id in After(steps).uploads
    ensures |After(steps).uploads[id].channel| <= 4
  {
    RunKeeps(steps);
    assert Inv(After(steps).uploads[id]);
  }

  // ---- Progress -----------------------------------------------------------------------

  /** The moves a running upload makes by itself, without the body, a failure or a cancellation. */
  predicate Own(m: Move) {
    m.Send? || m.SendRefused? || m.Join? || m == Open(true) || m == Take(true) || m.HangUp? || m.Rename? ||
    m == SyncDirectory(true)
  }

  function OwnMove(u: Upload): Move {
    if u.worker.Opening? then Open(true)
    else if u.worker.Receiving? && u.channel != [] then Take(true)
    else if u.worker.Receiving? && u.relay.Sending? then Send
    else if u.worker.Receiving? then HangUp
    else if u.worker.Committing? then Rename
    else if u.worker.Syncing? then SyncDirectory(true)
    else if u.relay.Sending? then SendRefused
    else Join
  }

  /** Nothing to do but wait for the body, or nothing at all. */
  predicate AtRest(u: Upload) {
    if u.worker.Finished? then !u.relay.Sending? && !u.relay.Joining?
    else u.worker.Receiving? && u.relay.Pulling? && u.channel == []
  }

  /** No deadlock: an upload that is not at rest has a move of its own to make. */
  lemma NeverStuck(u: Upload)
    requires Inv(u) && !AtRest(u)
    ensures Own(OwnMove(u)) && Enabled(u, OwnMove(u))
  {
  }

  function RelayWork(r: Relay): nat {
    match r case Sending(_) => 5 case Pulling => 1 case Joining => 1 case Returned(_) => 0 case Cancelled => 0
  }

  function WorkerWork(w: Worker): nat {
    match w case Opening => 4 case Receiving => 3 case Committing => 2 case Syncing => 1 case Finished(_) => 0
  }

  function Work(u: Upload): nat { 3 * |u.channel| + RelayWork(u.relay) + WorkerWork(u.worker) }

  /** Every move but one that delivers from the body uses work up, so an upload whose body stops
      delivering comes to rest, cancelled or not. */
  lemma MovesUseWork(u: Upload, m: Move)
    requires Inv(u) && Enabled(u, m) && !m.PullShard? && !m.PullEnd? && !m.PullError?
    ensures Work(Act(u, m)) < Work(u)
  {
  }

  /** The upload left to itself: no more of the body, no failure, no cancellation. */
  function Settle(u: Upload): (v: Upload)
    requires Inv(u)
    ensures AtRest(v) && Inv(v) && v.pulled == u.pulled && v.body == u.body
    decreases Work(u)
  {
    if AtRest(u) then u
    else
      NeverStuck(u);
      MovesUseWork(u, OwnMove(u));
      MoveKeeps(u, OwnMove(u));
      Settle(Act(u, OwnMove(u)))
  }

  /** The body ended and nothing has failed yet. */
  predicate Promised(u: Upload) {
    match u.relay
    case Sending(m) => m.Complete? && !u.worker.Finished?
    case Joining => u.body.Ended? && (u.worker.Finished? ==> u.worker.outcome.Stored?)
    case Returned(o) => o.Stored?
    case Pulling => false
    case Cancelled => false
  }

  lemma PromiseKept(u: Upload)
    requires Inv(u) && !AtRest(u) && Promised(u)
    ensures Enabled(u, OwnMove(u)) && Promised(Act(u, OwnMove(u)))
  {
    NeverStuck(u);
    if u.worker.Receiving? && u.channel != [] && u.relay.Sending? {
      assert u.channel[0].Shard?;
    }
  }

  /** Left to itself, an upload whose body ended stores it and reports so. */
  lemma {:induction false} CompletedUploadIsStored(u: Upload)
    requires Inv(u) && Promised(u)
    ensures var v := Settle(u); v.relay == Returned(Stored) && v.renamed && v.temp == Concat(u.pulled)
    decreases Work(u)
  {
    if !AtRest(u) {
      PromiseKept(u);
      MovesUseWork(u, OwnMove(u));
      MoveKeeps(u, OwnMove(u));
      CompletedUploadIsStored(Act(u, OwnMove(u)));
    }
  }

  /** A cancelled upload's worker still stops by itself. */
  lemma {:induction false} CancelledWorkerStops(u: Upload)
    requires Inv(u) && u.relay.Cancelled?
    ensures Settle(u).worker.Finished?
    decreases Work(u)
  {
    if !AtRest(u) {
      NeverStuck(u);
      MovesUseWork(u, OwnMove(u));
      MoveKeeps(u, OwnMove(u));
      CancelledWorkerStops(Act(u, OwnMove(u)));
    }
  }

  // ---- The worker's loop --------------------------------------------------------------

  /** Where the worker stops reading: the first message that is not a shard it could append. */
  predicate ReadsThrough(inbox: seq<Message>, appends: seq<bool>, n: nat)
    requires n <= |inbox| == |appends|
  {
    forall i :: 0 <= i < n ==> inbox[i].Shard? && appends[i]
  }

  /** The blocking worker over everything it would ever receive, up to the commit: `ready` says the
      fragment may be committed, and `temp` is what was appended. */
  method WorkerLoop(opens: bool, inbox: seq<Message>, appends: seq<bool>) returns (ready: bool, temp: Bytes, n: nat)
    requires |inbox| == |appends|
    ensures n <= |inbox| && ReadsThrough(inbox, appends, n) && temp == Carried(inbox[..n])
    ensures ready <==> opens && n < |inbox| && inbox[n].Complete?
    ensures opens && !ready ==> n == |inbox| || inbox[n].Abort? || !appends[n]
  {
    temp, n := [], 0;
    if !opens { return false, temp, n; }
    while n < |inbox|
      invariant n <= |inbox| && ReadsThrough(inbox, appends, n) && temp == Carried(inbox[..n])
    {
      match inbox[n]
      case Shard(b) =>
        if !appends[n] { return false, temp, n; }
        CarriedAppend(inbox[..n], inbox[n]);
        assert inbox[..n + 1] == inbox[..n] + [inbox[n]];
        temp, n := temp + b, n + 1;
      case Complete => return true, temp, n;
      case Abort(_) => return false, temp, n;
    }
    return false, temp, n;
  }
}
