/** Concurrent runs over one timeline: writers appending, any number of archivers (background
    loops and stop flushes, on any node), reclamation, and any number of readers whose read
    plans are assembled from several separate looks at the state. */
module WalRuns {
  import opened Basics
  import opened WalTimeline
  import opened WalSegmentCut

  /** How far one `SegmentArchiver::archive` call has come: range chosen from a status, bytes read, object
      uploaded, object verified, checkpoint applied, covered headers released, watermark confirmed. */
  datatype Stage =
    | Chosen
    | Fetched(bytes: Bytes)
    | Uploaded(segment: Segment)
    | Checked(segment: Segment)
    | Committed(segment: Segment)
    | Released(segment: Segment)
    | Confirmed

  /** `seen` is the committed end of the status the range was chosen from. */
  datatype Archiver = Archiver(start: nat, end: nat, origin: Origin, seen: nat, stage: Stage)

  /** Where a read of [from, to) stands. */
  datatype Point =
    | Trying
    | Falling                                                        // the plain read failed
    | Planning
    | Bounded(checkpoint: nat)                                       // watermarks read
    | Listed(checkpoint: nat, segments: seq<Segment>)                // manifest read
    | Planned(checkpoint: nat, segments: seq<Segment>, tail: Bytes)  // tail reconstructed
    | Answered(bytes: Bytes, seen: Objects)                          // `seen`: what the object store handed back

  datatype Reader = Reader(from: nat, to: nat, point: Point)

  /** `halted`: a storage error stopped the state machine. */
  datatype State = State(
    timeline: Timeline, objects: Objects, archivers: map<nat, Archiver>, readers: map<nat, Reader>, halted: bool)

  const Init: State := State(NewTimeline, map[], map[], map[], false)

  datatype Command =
    | Open(start: nat)
    | Append(start: nat, body: Bytes)
    | Reclaim(index: nat)

  datatype ArchiverMove =
    | ChooseSegment | ChooseTail | Fetch | Upload | Check | Checkpoint | Release | Confirm | GiveUp

  datatype ReaderMove =
    | Start(from: nat, to: nat)
    | TryPlain
    | FallBack
    | ReadBounds
    | ReadManifest
    | ReadTail
    | Splice(seen: Objects) // `seen`: whatever the object store hands back
    | Abort

  datatype Step =
    | Applies(command: Command)
    | Archives(task: nat, archive: ArchiverMove)
    | Reads(reader: nat, read: ReaderMove)

  function Apply(t: Timeline, c: Command): Timeline {
    match c
    case Open(start) => OpenTimeline(t, start)
    case Append(start, body) => AppendWal(t, start, body)
    case Reclaim(i) => ReleasePayload(t, i)
  }

  /** The same checkpoint request, applied before: a retry is answered as a success. */
  predicate AlreadyApplied(t: Timeline, segment: Segment, origin: Origin) { Archive(segment, origin) in t.log }

  predicate CanAdvance(t: Timeline, objects: Objects, c: Archiver, move: ArchiverMove, digest: Digest) {
    match (move, c.stage)
    case (Fetch, Chosen) =>
      var r := ReadRetained(t.log, c.start, c.end); r.Some? && |r.value| == c.end - c.start
    case (Upload, Fetched(_)) => true
    case (Check, Uploaded(segment)) => segment in objects && Verified(segment, objects[segment], digest)
    case (Checkpoint, Checked(segment)) => Accepts(t, segment) || AlreadyApplied(t, segment, c.origin)
    case (Release, Committed(_)) => true
    case (Confirm, Released(_)) => c.end <= t.archiveLsn
    case (GiveUp, _) => !c.stage.Confirmed?
    case _ => false
  }

  predicate CanArchive(s: State, a: nat, move: ArchiverMove, digest: Digest) {
    var t := s.timeline;
    match move
    case ChooseSegment => a !in s.archivers && t.archiveLsn < CutEnd(t.archiveLsn) <= t.walEnd
    case ChooseTail => a !in s.archivers
    case _ => a in s.archivers && CanAdvance(t, s.objects, s.archivers[a], move, digest)
  }

  /** A stop flush that finds nothing to archive is done at once. */
  function ChosenTail(t: Timeline): Archiver {
    Archiver(t.archiveLsn, t.walEnd, StopFlush, t.walEnd, if t.archiveLsn == t.walEnd then Confirmed else Chosen)
  }

  function DoArchive(s: State, a: nat, move: ArchiverMove, digest: Digest): State
    requires CanArchive(s, a, move, digest)
  {
    var t := s.timeline;
    match move
    case ChooseSegment =>
      s.(archivers := s.archivers[a := Archiver(t.archiveLsn, CutEnd(t.archiveLsn), SegmentLoop, t.walEnd, Chosen)])
    case ChooseTail => s.(archivers := s.archivers[a := ChosenTail(t)])
    case Fetch =>
      var c := s.archivers[a];
      s.(archivers := s.archivers[a := c.(stage := Fetched(ReadRetained(t.log, c.start, c.end).value))])
    case Upload =>
      var c := s.archivers[a];
      var segment := Segment(c.start, c.end, digest(c.stage.bytes));
      // An object already stored under this name is left alone.
      s.(archivers := s.archivers[a := c.(stage := Uploaded(segment))],
         objects := if segment in s.objects then s.objects else s.objects[segment := c.stage.bytes])
    case Check => s.(archivers := s.archivers[a := s.archivers[a].(stage := Checked(s.archivers[a].stage.segment))])
    case Checkpoint =>
      var c := s.archivers[a];
      s.(archivers := s.archivers[a := c.(stage := Committed(c.stage.segment))],
         timeline := CommitCheckpoint(t, c.stage.segment, c.origin))
    case Release =>
      var c := s.archivers[a];
      var t' := ReleaseWal(t, c.end);
      if t'.None? then s.(halted := true)
      else s.(archivers := s.archivers[a := c.(stage := Released(c.stage.segment))], timeline := t'.value)
    case Confirm => s.(archivers := s.archivers[a := s.archivers[a].(stage := Confirmed)])
    case GiveUp => s.(archivers := s.archivers - {a})
  }

  /** The point a reader moves to, or `None` when the move is not open to it. */
  function Moved(t: Timeline, r: Reader, move: ReaderMove, digest: Digest): Option<Point> {
    match (move, r.point)
    case (TryPlain, Trying) =>
      Some(var plain := ReadRetained(t.log, r.from, r.to);
           if r.from < r.to && plain.Some? then Answered(plain.value, map[]) else Falling)
    case (FallBack, Falling) => if r.from < t.archiveLsn then Some(Planning) else None
    case (ReadBounds, Planning) => if r.from < r.to <= t.walEnd then Some(Bounded(t.archiveLsn)) else None
    case (ReadManifest, Bounded(c)) =>
      (match Manifest(t, c) case None => None case Some(segments) => Some(Listed(c, segments)))
    case (ReadTail, Listed(c, segments)) =>
      (match RetainedTail(t, c, r.from, r.to) case None => None case Some(tail) => Some(Planned(c, segments, tail)))
    case (Splice(seen), Planned(c, segments, tail)) =>
      (match Compose(seen, segments, c, tail, r.from, r.to, digest)
       case None => None
       case Some(out) => Some(Answered(out, seen)))
    case _ => None
  }

  predicate CanRead(s: State, r: nat, move: ReaderMove, digest: Digest) {
    match move
    case Start(_, _) => r !in s.readers
    case Abort => r in s.readers
    case _ => r in s.readers && Moved(s.timeline, s.readers[r], move, digest).Some?
  }

  function DoRead(s: State, r: nat, move: ReaderMove, digest: Digest): State
    requires CanRead(s, r, move, digest)
  {
    match move
    case Start(from, to) => s.(readers := s.readers[r := Reader(from, to, Trying)])
    case Abort => s.(readers := s.readers - {r})
    case _ => s.(readers := s.readers[r := s.readers[r].(point := Moved(s.timeline, s.readers[r], move, digest).value)])
  }

  predicate Enabled(s: State, step: Step, digest: Digest) {
    !s.halted &&
    match step
    case Applies(_) => true
    case Archives(a, move) => CanArchive(s, a, move, digest)
    case Reads(r, move) => CanRead(s, r, move, digest)
  }

  function Next(s: State, step: Step, digest: Digest): State
    requires Enabled(s, step, digest)
  {
    match step
    case Applies(c) => s.(timeline := Apply(s.timeline, c))
    case Archives(a, move) => DoArchive(s, a, move, digest)
    case Reads(r, move) => DoRead(s, r, move, digest)
  }

  predicate Legal(s: State, steps: seq<Step>, digest: Digest)
    decreases |steps|, 0
  {
    steps == [] ||
    (Legal(s, steps[..|steps| - 1], digest) &&
     Enabled(After(s, steps[..|steps| - 1], digest), steps[|steps| - 1], digest))
  }

  function After(s: State, steps: seq<Step>, digest: Digest): State
    requires Legal(s, steps, digest)
    decreases |steps|, 1
  {
    if steps == [] then s else Next(After(s, steps[..|steps| - 1], digest), steps[|steps| - 1], digest)
  }

  // ---- What every run keeps -----------------------------------------------------------

  /** The range an archiver works on: cut at a segment boundary, or up to the committed end it saw. */
  predicate RangeOk(t: Timeline, a: Archiver) {
    && a.seen <= t.walEnd
    && (a.stage.Confirmed? ==> a.end <= t.archiveLsn)
    && (!a.stage.Confirmed? ==> a.start < a.end)
    && (match a.origin case SegmentLoop => a.end == CutEnd(a.start) case StopFlush => a.end == a.seen)
  }

  /** The segment an archiver made names the committed bytes of its range. */
  ghost predicate MadeOk(t: Timeline, a: Archiver, s: Segment, digest: Digest) {
    t.open && SegmentOk(t, s, digest) && s.start == a.start && s.end == a.end
  }

  ghost predicate ArchiverOk(t: Timeline, objects: Objects, a: Archiver, digest: Digest) {
    RangeOk(t, a) &&
    match a.stage
    case Chosen => true
    case Fetched(bytes) =>
      t.open && t.first <= a.start && a.end <= t.first + |t.wal| && bytes == Slice(t, a.start, a.end)
    case Uploaded(s) => MadeOk(t, a, s, digest)
    case Checked(s) => MadeOk(t, a, s, digest) && s in objects
    case Committed(s) => MadeOk(t, a, s, digest) && s.end <= t.archiveLsn
    case Released(s) => MadeOk(t, a, s, digest) && s.end <= t.archiveLsn
    case Confirmed => true
  }

  /** What a reader holds stays true of the timeline however it moves on. */
  ghost predicate ReaderOk(t: Timeline, r: Reader, digest: Digest) {
    match r.point
    case Bounded(c) => t.open && r.from < r.to <= t.first + |t.wal|
    case Listed(c, segments) =>
      t.open && r.from < r.to <= t.first + |t.wal| && SegmentsTile(segments, t.first, c) &&
      (forall s :: s in segments ==> SegmentOk(t, s, digest))
    case Planned(c, segments, tail) =>
      t.open && r.from < r.to <= t.first + |t.wal| && SegmentsTile(segments, t.first, c) &&
      (forall s :: s in segments ==> SegmentOk(t, s, digest)) && TailOk(t, tail, c, r.from, r.to)
    case Answered(bytes, seen) =>
      t.open && t.first <= r.from < r.to <= t.first + |t.wal| &&
      (!Forged(t, seen, digest) ==> bytes == Slice(t, r.from, r.to))
    case _ => true
  }

  /** Segments the background loop archived were cut at the segment boundary. */
  ghost predicate LoopCutsOnly(log: seq<Entry>) {
    forall i :: 0 <= i < |log| && log[i].Archive? && log[i].origin.SegmentLoop? ==>
      log[i].segment.end == CutEnd(log[i].segment.start)
  }

  /** Every object holds the committed bytes of its range, and every checkpoint has its object. */
  ghost predicate ObjectsOk(t: Timeline, objects: Objects, digest: Digest) {
    && (forall s :: s in objects ==> t.open && SegmentOk(t, s, digest) && objects[s] == Slice(t, s.start, s.end))
    && (forall i :: 0 <= i < |t.log| && t.log[i].Archive? ==> t.log[i].segment in objects)
  }

  ghost predicate Inv(s: State, digest: Digest) {
    && !s.halted
    && TimelineInv(s.timeline, digest)
    && LoopCutsOnly(s.timeline.log)
    && ObjectsOk(s.timeline, s.objects, digest)
    && (forall a :: a in s.archivers ==> ArchiverOk(s.timeline, s.objects, s.archivers[a], digest))
    && (forall r :: r in s.readers ==> ReaderOk(s.timeline, s.readers[r], digest))
  }

  /** Before it is opened a timeline has nothing; from then on its watermarks only rise. */
  predicate WatermarksRise(t: Timeline, u: Timeline) { t.walEnd <= u.walEnd && t.archiveLsn <= u.archiveLsn }

  lemma ArchiverContinues(t: Timeline, u: Timeline, objects: Objects, a: Archiver, digest: Digest)
    requires Continues(t, u) && WatermarksRise(t, u) && ArchiverOk(t, objects, a, digest)
    ensures ArchiverOk(u, objects, a, digest)
  {
    if a.stage.Fetched? {
      SliceContinues(t, u, a.start, a.end);
    } else if !a.stage.Chosen? && !a.stage.Confirmed? {
      SliceContinues(t, u, a.stage.segment.start, a.stage.segment.end);
    }
  }

  lemma ManifestContinues(t: Timeline, u: Timeline, segments: seq<Segment>, digest: Digest)
    requires t.open && Continues(t, u) && forall s :: s in segments ==> SegmentOk(t, s, digest)
    ensures forall s :: s in segments ==> SegmentOk(u, s, digest)
  {
    forall s | s in segments ensures SegmentOk(u, s, digest) { SliceContinues(t, u, s.start, s.end); }
  }

  lemma ForgedContinues(t: Timeline, u: Timeline, objects: Objects, digest: Digest)
    requires t.open && Continues(t, u) && Forged(t, objects, digest)
    ensures Forged(u, objects, digest)
  {
    var s :| s in objects && SegmentOk(t, s, digest) && |objects[s]| == s.end - s.start &&
             digest(objects[s]) == s.hash && objects[s] != Slice(t, s.start, s.end);
    SliceContinues(t, u, s.start, s.end);
    assert SegmentOk(u, s, digest);
  }

  lemma ObjectsContinue(t: Timeline, u: Timeline, objects: Objects, digest: Digest)
    requires Continues(t, u)
    requires forall s :: s in objects ==> t.open && SegmentOk(t, s, digest) && objects[s] == Slice(t, s.start, s.end)
    ensures forall s :: s in objects ==> u.open && SegmentOk(u, s, digest) && objects[s] == Slice(u, s.start, s.end)
  {
    forall s | s in objects ensures u.open && SegmentOk(u, s, digest) && objects[s] == Slice(u, s.start, s.end) {
      SliceContinues(t, u, s.start, s.end);
    }
  }

  lemma ReaderContinues(t: Timeline, u: Timeline, r: Reader, digest: Digest)
    requires Continues(t, u) && ReaderOk(t, r, digest)
    ensures ReaderOk(u, r, digest)
  {
    match r.point {
      case Listed(_, segments) => ManifestContinues(t, u, segments, digest);
      case Planned(c, segments, _) =>
        ManifestContinues(t, u, segments, digest);
        if Max(r.from, c) < r.to { SliceContinues(t, u, Max(r.from, c), r.to); }
      case Answered(_, seen) =>
        SliceContinues(t, u, r.from, r.to);
        if Forged(t, seen, digest) { ForgedContinues(t, u, seen, digest); }
      case _ =>
    }
  }

  /** A command adds no archive header. */
  lemma CommandHeaders(t: Timeline, c: Command)
    ensures var u := Apply(t, c);
            forall i :: 0 <= i < |u.log| && u.log[i].Archive? ==> u.log[i] in t.log
  {
  }

  lemma CommandKeeps(t: Timeline, c: Command, digest: Digest)
    requires TimelineInv(t, digest)
    ensures TimelineInv(Apply(t, c), digest) && Continues(t, Apply(t, c))
  {
    match c {
      case Open(start) => OpenKeeps(t, start, digest);
      case Append(start, body) => AppendKeeps(t, start, body, digest);
      case Reclaim(i) => ReleasePayloadKeeps(t, i, digest);
    }
  }

  lemma Rises(t: Timeline, u: Timeline, digest: Digest)
    requires TimelineInv(t, digest) && Continues(t, u)
    ensures WatermarksRise(t, u)
  {
  }

  /** A timeline that moves on under its tasks, with no new archive header but those of stored objects,
      keeps everything but the invariant of the timeline itself. */
  lemma MovesOn(s: State, u: Timeline, digest: Digest)
    requires Inv(s, digest) && TimelineInv(u, digest) && Continues(s.timeline, u)
    requires forall i :: 0 <= i < |u.log| && u.log[i].Archive? ==>
               u.log[i] in s.timeline.log ||
               (u.log[i].segment in s.objects && LoopCutsOnly([u.log[i]]))
    ensures Inv(s.(timeline := u), digest)
  {
    Rises(s.timeline, u, digest);
    forall a | a in s.archivers ensures ArchiverOk(u, s.objects, s.archivers[a], digest) {
      ArchiverContinues(s.timeline, u, s.objects, s.archivers[a], digest);
    }
    forall r | r in s.readers ensures ReaderOk(u, s.readers[r], digest) {
      ReaderContinues(s.timeline, u, s.readers[r], digest);
    }
    ObjectsContinue(s.timeline, u, s.objects, digest);
    HeadersMoveOn(s, u, digest);
  }

  lemma HeadersMoveOn(s: State, u: Timeline, digest: Digest)
    requires LoopCutsOnly(s.timeline.log) && ObjectsOk(s.timeline, s.objects, digest)
    requires forall i :: 0 <= i < |u.log| && u.log[i].Archive? ==>
               u.log[i] in s.timeline.log ||
               (u.log[i].segment in s.objects && LoopCutsOnly([u.log[i]]))
    ensures LoopCutsOnly(u.log) && forall i :: 0 <= i < |u.log| && u.log[i].Archive? ==> u.log[i].segment in s.objects
  {
    forall i | 0 <= i < |u.log| && u.log[i].Archive?
      ensures u.log[i].segment in s.objects &&
              (u.log[i].origin.SegmentLoop? ==> u.log[i].segment.end == CutEnd(u.log[i].segment.start))
    {
      if u.log[i] in s.timeline.log {
        var j :| 0 <= j < |s.timeline.log| && s.timeline.log[j] == u.log[i];
      } else {
        assert [u.log[i]][0] == u.log[i];
      }
    }
  }

  lemma AppliesKeeps(s: State, c: Command, digest: Digest)
    requires Inv(s, digest)
    ensures Inv(s.(timeline := Apply(s.timeline, c)), digest)
  {
    CommandKeeps(s.timeline, c, digest);
    CommandHeaders(s.timeline, c);
    MovesOn(s, Apply(s.timeline, c), digest);
  }

  /** One archiver moves to a new stage; nothing else changes. */
  lemma StageKeeps(s: State, a: nat, c: Archiver, digest: Digest)
    requires Inv(s, digest) && ArchiverOk(s.timeline, s.objects, c, digest)
    ensures Inv(s.(archivers := s.archivers[a := c]), digest)
  {
  }

  /** The bytes an archiver reads are the committed bytes of its range. */
  lemma FetchIsExact(t: Timeline, objects: Objects, c: Archiver, digest: Digest)
    requires TimelineInv(t, digest) && ArchiverOk(t, objects, c, digest) && CanAdvance(t, objects, c, Fetch, digest)
    ensures ArchiverOk(t, objects, c.(stage := Fetched(ReadRetained(t.log, c.start, c.end).value)), digest)
  {
    var lo: nat :| lo <= t.archiveLsn && Tiles(t.log, lo, t.walEnd);
    RetainedReadIsExact(t, t.log, lo, c.start, c.end, digest);
  }

  lemma UploadKeeps(s: State, a: nat, digest: Digest)
    requires Inv(s, digest) && CanArchive(s, a, Upload, digest)
    ensures Inv(DoArchive(s, a, Upload, digest), digest)
  {
    var s', c := DoArchive(s, a, Upload, digest), s.archivers[a];
    assert ArchiverOk(s.timeline, s.objects, c, digest);
    forall b | b in s'.archivers ensures ArchiverOk(s'.timeline, s'.objects, s'.archivers[b], digest) {
      if b != a { assert ArchiverOk(s.timeline, s.objects, s.archivers[b], digest); }
    }
  }

  lemma {:induction false} TiledEnds(segments: seq<Segment>, lo: nat, hi: nat, s: Segment)
    requires SegmentsTile(segments, lo, hi) && s in segments
    ensures s.end <= hi
    decreases |segments|
  {
    assert segments == [segments[0]] + segments[1..];
    TileEndsBelow(segments[1..], segments[0].end, hi);
    if s != segments[0] { TiledEnds(segments[1..], segments[0].end, hi, s); }
  }

  lemma {:induction false} TileEndsBelow(segments: seq<Segment>, lo: nat, hi: nat)
    requires SegmentsTile(segments, lo, hi)
    ensures lo <= hi
    decreases |segments|
  {
    if segments != [] { TileEndsBelow(segments[1..], segments[0].end, hi); }
  }

  lemma {:induction false} LoggedIsSegment(log: seq<Entry>, s: Segment, origin: Origin)
    requires Archive(s, origin) in log
    ensures s in Segments(log)
  {
    assert log == [log[0]] + log[1..];
    if log[0] != Archive(s, origin) { LoggedIsSegment(log[1..], s, origin); }
  }

  /** Accepted now or applied before, a checkpointed segment lies below the watermark. */
  lemma CheckpointCovers(t: Timeline, s: Segment, origin: Origin, digest: Digest)
    requires TimelineInv(t, digest) && (Accepts(t, s) || AlreadyApplied(t, s, origin))
    ensures s.end <= CommitCheckpoint(t, s, origin).archiveLsn
  {
    if !Accepts(t, s) {
      LoggedIsSegment(t.log, s, origin);
      TiledEnds(Segments(t.log), t.first, t.archiveLsn, s);
    }
  }

  lemma CheckpointStepKeeps(s: State, a: nat, digest: Digest)
    requires Inv(s, digest) && CanArchive(s, a, Checkpoint, digest)
    ensures Inv(DoArchive(s, a, Checkpoint, digest), digest)
  {
    var t, c := s.timeline, s.archivers[a];
    var segment := c.stage.segment;
    var u := CommitCheckpoint(t, segment, c.origin);
    assert ArchiverOk(t, s.objects, c, digest);
    CheckpointKeeps(t, segment, c.origin, digest);
    CheckpointCovers(t, segment, c.origin, digest);
    MovesOn(s, u, digest);
    StageKeeps(s.(timeline := u), a, c.(stage := Committed(segment)), digest);
  }

  /** Only covered headers are ever released, so the state machine never stops. */
  lemma ReleaseStepKeeps(s: State, a: nat, digest: Digest)
    requires Inv(s, digest) && CanArchive(s, a, Release, digest)
    ensures Inv(DoArchive(s, a, Release, digest), digest)
  {
    var t, c := s.timeline, s.archivers[a];
    assert ArchiverOk(t, s.objects, c, digest);
    ReleaseWalKeeps(t, c.end, digest);
    var u := ReleaseWal(t, c.end).value;
    MovesOn(s, u, digest);
    StageKeeps(s.(timeline := u), a, c.(stage := Released(c.stage.segment)), digest);
  }

  /** The moves that touch neither the timeline nor the objects. */
  lemma PrivateMoveKeeps(s: State, a: nat, move: ArchiverMove, digest: Digest)
    requires Inv(s, digest) && CanArchive(s, a, move, digest)
    requires move in {ChooseSegment, ChooseTail, Fetch, Check, Confirm}
    ensures Inv(DoArchive(s, a, move, digest), digest)
  {
    var t := s.timeline;
    if move.ChooseSegment? {
      StageKeeps(s, a, Archiver(t.archiveLsn, CutEnd(t.archiveLsn), SegmentLoop, t.walEnd, Chosen), digest);
    } else if move.ChooseTail? {
      StageKeeps(s, a, ChosenTail(t), digest);
    } else {
      var c := s.archivers[a];
      assert ArchiverOk(t, s.objects, c, digest);
      if move.Fetch? {
        FetchIsExact(t, s.objects, c, digest);
        StageKeeps(s, a, c.(stage := Fetched(ReadRetained(t.log, c.start, c.end).value)), digest);
      } else if move.Check? {
        StageKeeps(s, a, c.(stage := Checked(c.stage.segment)), digest);
      } else {
        StageKeeps(s, a, c.(stage := Confirmed), digest);
      }
    }
  }

  lemma ArchivesKeeps(s: State, a: nat, move: ArchiverMove, digest: Digest)
    requires Inv(s, digest) && CanArchive(s, a, move, digest)
    ensures Inv(DoArchive(s, a, move, digest), digest)
  {
    if move.Upload? {
      UploadKeeps(s, a, digest);
    } else if move.Checkpoint? {
      CheckpointStepKeeps(s, a, digest);
    } else if move.Release? {
      ReleaseStepKeeps(s, a, digest);
    } else if !move.GiveUp? {
      PrivateMoveKeeps(s, a, move, digest);
    }
  }

  lemma MoveKeeps(t: Timeline, r: Reader, move: ReaderMove, digest: Digest)
    requires TimelineInv(t, digest) && ReaderOk(t, r, digest) && Moved(t, r, move, digest).Some?
    ensures ReaderOk(t, r.(point := Moved(t, r, move, digest).value), digest)
  {
    match (move, r.point) {
      case (TryPlain, Trying) =>
        if r.from < r.to {
          var lo: nat :| lo <= t.archiveLsn && Tiles(t.log, lo, t.walEnd);
          RetainedReadIsExact(t, t.log, lo, r.from, r.to, digest);
        }
      case (ReadManifest, Bounded(_)) => ManifestTiles(t, digest);
      case (ReadTail, Listed(c, _)) => TailIsExact(t, c, r.from, r.to, digest);
      case (Splice(seen), Planned(c, segments, tail)) =>
        ComposeIsExact(t, seen, segments, c, tail, r.from, r.to, digest);
      case _ =>
    }
  }

  lemma ReadsKeeps(s: State, r: nat, move: ReaderMove, digest: Digest)
    requires Inv(s, digest) && CanRead(s, r, move, digest)
    ensures Inv(DoRead(s, r, move, digest), digest)
  {
    if !move.Start? && !move.Abort? { MoveKeeps(s.timeline, s.readers[r], move, digest); }
  }

  lemma StepKeeps(s: State, step: Step, digest: Digest)
    requires Inv(s, digest) && Enabled(s, step, digest)
    ensures Inv(Next(s, step, digest), digest)
  {
    match step {
      case Applies(c) => AppliesKeeps(s, c, digest);
      case Archives(a, move) => ArchivesKeeps(s, a, move, digest);
      case Reads(r, move) => ReadsKeeps(s, r, move, digest);
    }
  }

  lemma {:induction false} RunKeeps(steps: seq<Step>, digest: Digest)
    requires Legal(Init, steps, digest)
    ensures Inv(After(Init, steps, digest), digest)
  {
    if steps == [] {
      assert Tiles([], 0, 0);
    } else {
      RunKeeps(steps[..|steps| - 1], digest);
      StepKeeps(After(Init, steps[..|steps| - 1], digest), steps[|steps| - 1], digest);
    }
  }

  // ---- What the steps write -----------------------------------------------------------

  datatype Written = Written(open: bool, first: nat, wal: Bytes)

  /** The log the commands of a run write, read off the steps alone: the first opening sets where it starts,
      and every append at its end adds the body it carries. */
  function WrittenBy(steps: seq<Step>): Written {
    if steps == [] then Written(false, 0, [])
    else
      var w := WrittenBy(steps[..|steps| - 1]);
      match steps[|steps| - 1]
      case Applies(Open(start)) => if w.open then w else Written(true, start, [])
      case Applies(Append(start, body)) =>
        if w.open && start == w.first + |w.wal| then w.(wal := w.wal + body) else w
      case _ => w
  }

  /** The bytes written at [from, to), if they were. */
  function Range(w: Written, from: nat, to: nat): Bytes {
    if w.first <= from <= to <= w.first + |w.wal| then w.wal[from - w.first..to - w.first] else []
  }

  predicate Holds(t: Timeline, w: Written) {
    t.open == w.open && t.first == w.first && t.wal == w.wal && t.walEnd == w.first + |w.wal|
  }

  /** Archiving, releasing and reading write nothing. */
  lemma OnlyCommandsWrite(s: State, step: Step, digest: Digest)
    requires Enabled(s, step, digest) && !step.Applies?
    ensures var t, u := s.timeline, Next(s, step, digest).timeline;
            u.open == t.open && u.first == t.first && u.wal == t.wal && u.walEnd == t.walEnd
  {
  }

  /** After every run the timeline holds exactly what the steps wrote. */
  lemma {:induction false} TimelineIsWritten(steps: seq<Step>, digest: Digest)
    requires Legal(Init, steps, digest)
    ensures Holds(After(Init, steps, digest).timeline, WrittenBy(steps))
    decreases |steps|
  {
    if steps != [] {
      var front, last := steps[..|steps| - 1], steps[|steps| - 1];
      TimelineIsWritten(front, digest);
      if last.Applies? {
        RunKeeps(front, digest);
      } else {
        OnlyCommandsWrite(After(Init, front, digest), last, digest);
      }
    }
  }

  // ---- Main results -------------------------------------------------------------------

  lemma SliceIsWritten(t: Timeline, w: Written, from: nat, to: nat)
    requires Holds(t, w) && t.first <= from <= to <= t.first + |t.wal|
    ensures Slice(t, from, to) == Range(w, from, to)
  {
  }

  /** Every answered read, however its looks at the state interleave with appends, archiving, reclamation and
      other reads, and whatever the object store hands back, is exactly what the steps wrote at its range,
      unless the store forged one of the timeline's objects. */
  lemma ConcurrentReadIsExact(steps: seq<Step>, r: nat, digest: Digest)
    requires Legal(Init, steps, digest)
    requires var readers := After(Init, steps, digest).readers; r in readers && readers[r].point.Answered?
    ensures var s, w := After(Init, steps, digest), WrittenBy(steps);
            && w.first <= s.readers[r].from < s.readers[r].to <= w.first + |w.wal|
            && (!Forged(s.timeline, s.readers[r].point.seen, digest) ==>
                  s.readers[r].point.bytes == Range(w, s.readers[r].from, s.readers[r].to))
  {
    RunKeeps(steps, digest);
    TimelineIsWritten(steps, digest);
    var s := After(Init, steps, digest);
    assert ReaderOk(s.timeline, s.readers[r], digest);
    SliceIsWritten(s.timeline, WrittenBy(steps), s.readers[r].from, s.readers[r].to);
  }

  lemma HonestIsNotForged(s: State, seen: Objects, digest: Digest)
    requires ObjectsOk(s.timeline, s.objects, digest)
    requires forall g :: g in seen ==> g in s.objects && s.objects[g] == seen[g]
    ensures !Forged(s.timeline, seen, digest)
  {
  }

  /** In particular when the store only handed back objects the archivers of the run uploaded. */
  lemma HonestReadIsExact(steps: seq<Step>, r: nat, digest: Digest)
    requires Legal(Init, steps, digest)
    requires var readers := After(Init, steps, digest).readers; r in readers && readers[r].point.Answered?
    requires var s := After(Init, steps, digest);
             forall g :: g in s.readers[r].point.seen ==> g in s.objects && s.objects[g] == s.readers[r].point.seen[g]
    ensures var s, w := After(Init, steps, digest), WrittenBy(steps);
            && w.first <= s.readers[r].from < s.readers[r].to <= w.first + |w.wal|
            && s.readers[r].point.bytes == Range(w, s.readers[r].from, s.readers[r].to)
  {
    var s := After(Init, steps, digest);
    ConcurrentReadIsExact(steps, r, digest);
    RunKeeps(steps, digest);
    HonestIsNotForged(s, s.readers[r].point.seen, digest);
  }

  lemma {:induction false} SegmentIsLogged(log: seq<Entry>, s: Segment) returns (i: nat)
    requires s in Segments(log)
    ensures i < |log| && log[i].Archive? && log[i].segment == s
  {
    if log[0].Archive? && log[0].segment == s {
      i := 0;
    } else {
      var j := SegmentIsLogged(log[1..], s);
      i := j + 1;
    }
  }

  lemma ObjectsIntact(s: State, digest: Digest)
    requires Inv(s, digest)
    ensures Intact(s.timeline, s.objects, digest) && !Forged(s.timeline, s.objects, digest)
  {
    forall g | g in Segments(s.timeline.log) ensures g in s.objects && Verified(g, s.objects[g], digest) {
      var i := SegmentIsLogged(s.timeline.log, g);
    }
  }

  /** After every run, a read against the run's own object store answers exactly the ranges within what the
      steps wrote, and with exactly the bytes they wrote. */
  lemma EveryCommittedRangeIsReadable(steps: seq<Step>, from: nat, to: nat, digest: Digest)
    requires Legal(Init, steps, digest)
    ensures var s := After(Init, steps, digest);
            var r := ReadWal(s.timeline, s.objects, from, to, digest);
            var w := WrittenBy(steps);
            && (r.Some? <==> w.first <= from < to <= w.first + |w.wal|)
            && (r.Some? ==> r.value == Range(WrittenBy(steps), from, to))
  {
    RunKeeps(steps, digest);
    TimelineIsWritten(steps, digest);
    var s := After(Init, steps, digest);
    ObjectsIntact(s, digest);
    ReadWalIsExact(s.timeline, s.objects, from, to, digest);
    if s.timeline.first <= from < to <= s.timeline.walEnd {
      SliceIsWritten(s.timeline, WrittenBy(steps), from, to);
    }
  }

  /** After every run, the archived segments tile [first, checkpoint) within the committed WAL,
      and each one cut by the background loop ends on a segment boundary and crosses none
      (outside the last segment of the 64-bit address space). */
  lemma ArchiveTilesTheWal(steps: seq<Step>, i: nat, boundary: nat, digest: Digest)
    requires Legal(Init, steps, digest)
    ensures var t := After(Init, steps, digest).timeline;
            && t.archiveLsn <= t.walEnd && SegmentsTile(Segments(t.log), t.first, t.archiveLsn)
            && (i < |t.log| && t.log[i].Archive? && t.log[i].origin.SegmentLoop? &&
                t.log[i].segment.start / SEGMENT_BYTES < U64_MAX / SEGMENT_BYTES ==>
                  t.log[i].segment.end % SEGMENT_BYTES == 0 &&
                  !(t.log[i].segment.start < boundary * SEGMENT_BYTES < t.log[i].segment.end))
  {
    RunKeeps(steps, digest);
    var t := After(Init, steps, digest).timeline;
    if i < |t.log| && t.log[i].Archive? && t.log[i].origin.SegmentLoop? &&
       t.log[i].segment.start / SEGMENT_BYTES < U64_MAX / SEGMENT_BYTES
    {
      CrossesNoBoundary(t.log[i].segment.start, boundary);
    }
  }

  /** Committed bytes never change and nothing is un-archived, from any point of a run on. */
  lemma {:induction false} HistoryOnlyGrows(steps: seq<Step>, k: nat, digest: Digest)
    requires Legal(Init, steps, digest) && k <= |steps|
    ensures Legal(Init, steps[..k], digest)
    ensures Continues(After(Init, steps[..k], digest).timeline, After(Init, steps, digest).timeline)
    decreases |steps|
  {
    if k == |steps| {
      assert steps[..k] == steps;
    } else {
      var front := steps[..|steps| - 1];
      assert front[..k] == steps[..k];
      HistoryOnlyGrows(front, k, digest);
      RunKeeps(front, digest);
      StepContinues(After(Init, front, digest), steps[|steps| - 1], digest);
      var a, b := After(Init, steps[..k], digest).timeline, After(Init, front, digest).timeline;
      var c := After(Init, steps, digest).timeline;
      assert c.wal[..|a.wal|] == c.wal[..|b.wal|][..|a.wal|];
    }
  }

  lemma StepContinues(s: State, step: Step, digest: Digest)
    requires Inv(s, digest) && Enabled(s, step, digest)
    ensures Continues(s.timeline, Next(s, step, digest).timeline)
  {
    match step {
      case Applies(c) => CommandKeeps(s.timeline, c, digest);
      case Archives(a, move) => ArchiveContinues(s, a, move, digest);
      case Reads(_, _) =>
    }
  }

  lemma ArchiveContinues(s: State, a: nat, move: ArchiverMove, digest: Digest)
    requires Inv(s, digest) && CanArchive(s, a, move, digest)
    ensures Continues(s.timeline, DoArchive(s, a, move, digest).timeline)
  {
    if move.Checkpoint? {
      CheckpointKeeps(s.timeline, s.archivers[a].stage.segment, s.archivers[a].origin, digest);
    } else if move.Release? {
      ReleaseWalKeeps(s.timeline, s.archivers[a].end, digest);
    }
  }

  /** No run stops the state machine: a release never exceeds the committed checkpoint. */
  lemma NeverHalts(steps: seq<Step>, digest: Digest)
    requires Legal(Init, steps, digest)
    ensures !After(Init, steps, digest).halted
  {
    RunKeeps(steps, digest);
  }

  // ---- Stop flushes -------------------------------------------------------------------

  /** An archiver at work was started by a step of the run, from the status of that moment. */
  lemma {:induction false} StartedAt(steps: seq<Step>, a: nat, digest: Digest) returns (k: nat)
    requires Legal(Init, steps, digest) && a in After(Init, steps, digest).archivers
    ensures k < |steps| && Legal(Init, steps[..k], digest)
    ensures var c := After(Init, steps, digest).archivers[a];
            && steps[k] == Archives(a, if c.origin.StopFlush? then ChooseTail else ChooseSegment)
            && c.seen == After(Init, steps[..k], digest).timeline.walEnd
    decreases |steps|
  {
    var front, last := steps[..|steps| - 1], steps[|steps| - 1];
    if last == Archives(a, ChooseTail) || last == Archives(a, ChooseSegment) {
      k := |front|;
    } else {
      SameRange(After(Init, front, digest), last, a, digest);
      k := StartedAt(front, a, digest);
      assert front[..k] == steps[..k];
    }
  }

  /** Once started, an archiver keeps its range and what it saw. */
  lemma SameRange(s: State, step: Step, a: nat, digest: Digest)
    requires Enabled(s, step, digest) && a in Next(s, step, digest).archivers
    requires step != Archives(a, ChooseTail) && step != Archives(a, ChooseSegment)
    ensures a in s.archivers
    ensures Next(s, step, digest).archivers[a] == s.archivers[a].(stage := Next(s, step, digest).archivers[a].stage)
  {
    if step.Archives? && step.task == a { OwnMove(s, a, step.archive, digest); }
  }

  lemma OwnMove(s: State, a: nat, move: ArchiverMove, digest: Digest)
    requires CanArchive(s, a, move, digest) && !move.ChooseTail? && !move.ChooseSegment? && !move.GiveUp?
    ensures var t := DoArchive(s, a, move, digest).archivers;
            a in s.archivers && a in t && t[a] == s.archivers[a].(stage := t[a].stage)
  {
  }

  /** The objects of the archive serve exactly the committed bytes up to the watermark. */
  lemma ArchiveServes(s: State, from: nat, to: nat, digest: Digest)
    requires Inv(s, digest) && s.timeline.first <= from < to <= s.timeline.archiveLsn
    ensures ReadArchived(s.objects, Segments(s.timeline.log), from, to, digest) == Some(Slice(s.timeline, from, to))
  {
    var t := s.timeline;
    ManifestTiles(t, digest);
    ObjectsIntact(s, digest);
    ArchivedReadAnswers(s.objects, Segments(t.log), t.first, t.archiveLsn, from, to, digest);
    ArchivedReadIsExact(t, s.objects, Segments(t.log), t.first, t.archiveLsn, from, to, digest);
  }

  lemma ConfirmedIsDone(s: State, step: Step, a: nat, digest: Digest)
    requires a in s.archivers && s.archivers[a].stage.Confirmed? && Enabled(s, step, digest)
    ensures !(step.Archives? && step.task == a)
  {
  }

  lemma OthersKeepIt(s: State, step: Step, a: nat, digest: Digest)
    requires a in s.archivers && Enabled(s, step, digest) && !(step.Archives? && step.task == a)
    ensures a in Next(s, step, digest).archivers && Next(s, step, digest).archivers[a] == s.archivers[a]
  {
  }

  /** An archive call that succeeded stays recorded. */
  lemma {:induction false} ConfirmedStays(steps: seq<Step>, n: nat, a: nat, digest: Digest)
    requires Legal(Init, steps, digest) && n <= |steps| && Legal(Init, steps[..n], digest)
    requires var early := After(Init, steps[..n], digest).archivers; a in early && early[a].stage.Confirmed?
    ensures a in After(Init, steps, digest).archivers
    ensures After(Init, steps, digest).archivers[a] == After(Init, steps[..n], digest).archivers[a]
    decreases |steps|
  {
    if n == |steps| {
      assert steps[..n] == steps;
    } else {
      var front, last := steps[..|steps| - 1], steps[|steps| - 1];
      assert front[..n] == steps[..n];
      ConfirmedStays(front, n, a, digest);
      ConfirmedIsDone(After(Init, front, digest), last, a, digest);
      OthersKeepIt(After(Init, front, digest), last, a, digest);
    }
  }

  /** Below `end` everything committed is archived, and the objects alone serve it. */
  ghost predicate ServedBelow(s: State, end: nat, digest: Digest) {
    && end <= s.timeline.archiveLsn <= s.timeline.walEnd == s.timeline.first + |s.timeline.wal|
    && forall from, to :: s.timeline.first <= from < to <= end ==>
         ReadArchived(s.objects, Segments(s.timeline.log), from, to, digest) == Some(Slice(s.timeline, from, to))
  }

  /** Over every run: from the moment a stop flush succeeds (after `n` steps) on, the committed end it read
      when it began (after `k` steps) is archived, and the objects alone serve every committed byte below it. */
  lemma FlushCoversTheTail(steps: seq<Step>, n: nat, a: nat, digest: Digest) returns (k: nat)
    requires Legal(Init, steps, digest) && n <= |steps| && Legal(Init, steps[..n], digest)
    requires var early := After(Init, steps[..n], digest).archivers;
             a in early && early[a].origin.StopFlush? && early[a].stage.Confirmed?
    ensures k < n && steps[k] == Archives(a, ChooseTail) && Legal(Init, steps[..k], digest)
    ensures ServedBelow(After(Init, steps, digest), After(Init, steps[..k], digest).timeline.walEnd, digest)
  {
    k := StartedAt(steps[..n], a, digest);
    assert steps[..n][..k] == steps[..k];
    ConfirmedStays(steps, n, a, digest);
    RunKeeps(steps, digest);
    var s := After(Init, steps, digest);
    assert ArchiverOk(s.timeline, s.objects, s.archivers[a], digest);
    forall from, to | s.timeline.first <= from < to <= s.archivers[a].seen
      ensures ReadArchived(s.objects, Segments(s.timeline.log), from, to, digest) == Some(Slice(s.timeline, from, to))
    {
      ArchiveServes(s, from, to, digest);
    }
  }
}
