/** One WAL timeline as its consensus group applies it: appended WAL entries, archive
    checkpoints that name immutable objects, and release of WAL an object already covers.
    Reads splice an archived prefix to the retained tail. */
module WalTimeline {
  import opened Basics

  type Hash = nat
  type Digest = Bytes -> Hash

  /** The immutable object named by a checkpoint: its key spells the LSN range and content hash. */
  datatype Segment = Segment(start: nat, end: nat, hash: Hash)

  /** Who cut an archived segment: the background loop, or the flush of an authoritative stop. */
  datatype Origin = SegmentLoop | StopFlush

  /** A committed header. A WAL body is `None` once its payload was released. */
  datatype Entry =
    | Wal(start: nat, end: nat, body: Option<Bytes>)
    | Archive(segment: Segment, origin: Origin)

  /** `first` and `wal` are history: the opening LSN and every byte appended since. */
  datatype Timeline = Timeline(open: bool, walEnd: nat, archiveLsn: nat, log: seq<Entry>, first: nat, wal: Bytes)

  const NewTimeline: Timeline := Timeline(false, 0, 0, [], 0, [])

  // ---- Applied commands ---------------------------------------------------------------

  /** A reopened timeline keeps its bounds. */
  function OpenTimeline(t: Timeline, start: nat): Timeline {
    if t.open then t else t.(open := true, walEnd := start, archiveLsn := start, first := start)
  }

  /** A WAL entry applies only at the committed end; anything else is a gap and changes nothing. */
  function AppendWal(t: Timeline, start: nat, body: Bytes): Timeline {
    if !t.open || start != t.walEnd then t
    else t.(walEnd := start + |body|, log := t.log + [Wal(start, start + |body|, Some(body))], wal := t.wal + body)
  }

  /** A checkpoint applies only when it continues the archive and stays within committed WAL. */
  function CommitCheckpoint(t: Timeline, segment: Segment, origin: Origin): Timeline {
    if segment.start >= segment.end || segment.start != t.archiveLsn || segment.end > t.walEnd then t
    else t.(archiveLsn := segment.end, log := t.log + [Archive(segment, origin)])
  }

  /** Physical reclamation of one checkpoint-covered payload. */
  function ReleasePayload(t: Timeline, i: nat): Timeline {
    if i < |t.log| && t.log[i].Wal? && t.log[i].end <= t.archiveLsn then t.(log := t.log[i := t.log[i].(body := None)])
    else t
  }

  /** Drops the WAL headers that end at or before `through`; archive headers stay. */
  function Compact(log: seq<Entry>, through: nat): seq<Entry> {
    if log == [] then []
    else if log[0].Wal? && log[0].end <= through then Compact(log[1..], through)
    else [log[0]] + Compact(log[1..], through)
  }

  /** `None`: a release beyond the checkpoint is a storage error that stops the state machine. */
  function ReleaseWal(t: Timeline, through: nat): Option<Timeline> {
    if through > t.archiveLsn then None else Some(t.(log := Compact(t.log, through)))
  }

  // ---- Reads --------------------------------------------------------------------------

  function Prepend(piece: Bytes, rest: Option<Bytes>): Option<Bytes> {
    match rest case None => None case Some(r) => Some(piece + r)
  }

  /** The scan of retained headers: skip what lies outside, refuse a gap or a released body. */
  function ReadRetained(log: seq<Entry>, cursor: nat, to: nat): Option<Bytes> {
    if log == [] then None
    else if !log[0].Wal? || log[0].end <= cursor || log[0].start >= to then ReadRetained(log[1..], cursor, to)
    else if log[0].start > cursor || log[0].body.None? then None
    else
      var body, upTo := log[0].body.value, Min(to, log[0].end);
      if upTo < cursor || upTo - log[0].start > |body| then None
      else
        var piece := body[cursor - log[0].start..upTo - log[0].start];
        if upTo == to then Some(piece) else Prepend(piece, ReadRetained(log[1..], upTo, to))
  }

  function Segments(log: seq<Entry>): seq<Segment> {
    if log == [] then []
    else if log[0].Archive? then [log[0].segment] + Segments(log[1..])
    else Segments(log[1..])
  }

  /** Each segment starts where the one before it ended. */
  predicate Contiguous(segments: seq<Segment>) {
    forall i :: 0 < i < |segments| ==> segments[i].start == segments[i - 1].end
  }

  /** The manifest of a read plan: refused when the watermark moved or the chain is broken. */
  function Manifest(t: Timeline, through: nat): Option<seq<Segment>> {
    var segments := Segments(t.log);
    if through == t.archiveLsn && Contiguous(segments) && (segments == [] || segments[|segments| - 1].end == through)
    then Some(segments) else None
  }

  type Objects = map<Segment, Bytes>

  /** `verify_bytes`: the visible object still is the one the checkpoint names. */
  predicate Verified(segment: Segment, bytes: Bytes, digest: Digest) {
    |bytes| == segment.end - segment.start && digest(bytes) == segment.hash
  }

  /** The scan of archived segments. */
  function ReadArchived(objects: Objects, segments: seq<Segment>, cursor: nat, to: nat, digest: Digest): Option<Bytes> {
    if segments == [] then None
    else
      var s := segments[0];
      if s.end <= cursor || s.start >= to then ReadArchived(objects, segments[1..], cursor, to, digest)
      else if s.start > cursor || s !in objects || !Verified(s, objects[s], digest) then None
      else
        var upTo := Min(to, s.end);
        if upTo < cursor then None
        else
        var piece := objects[s][cursor - s.start..upTo - s.start];
        if upTo == to then Some(piece) else Prepend(piece, ReadArchived(objects, segments[1..], upTo, to, digest))
  }

  /** Archived prefix up to min(to, checkpoint), then the retained tail. */
  function Compose(objects: Objects, segments: seq<Segment>, checkpoint: nat, tail: Bytes, from: nat, to: nat,
                   digest: Digest): Option<Bytes>
  {
    var archivedEnd := Min(to, checkpoint);
    if from < archivedEnd then
      match ReadArchived(objects, segments, from, archivedEnd, digest)
      case None => None
      case Some(prefix) => Some(prefix + tail)
    else Some(tail)
  }

  function RetainedTail(t: Timeline, checkpoint: nat, from: nat, to: nat): Option<Bytes> {
    var start := Max(from, checkpoint);
    if start < to then ReadRetained(t.log, start, to) else Some([])
  }

  /** A whole read against one state: the plain retained read, else the composed one. */
  function ReadWal(t: Timeline, objects: Objects, from: nat, to: nat, digest: Digest): Option<Bytes> {
    if from >= to then None
    else
      var plain := ReadRetained(t.log, from, to);
      if plain.Some? then plain
      else if from >= t.archiveLsn || to > t.walEnd then None
      else
        var segments, tail := Manifest(t, t.archiveLsn), RetainedTail(t, t.archiveLsn, from, to);
        if segments.None? || tail.None? then None
        else Compose(objects, segments.value, t.archiveLsn, tail.value, from, to, digest)
  }

  // ---- What a timeline keeps ----------------------------------------------------------

  /** The committed bytes of [a, b). */
  function Slice(t: Timeline, a: nat, b: nat): Bytes
    requires t.first <= a <= b <= t.first + |t.wal|
  {
    t.wal[a - t.first..b - t.first]
  }

  /** The WAL headers of the log, in order, tile [lo, hi). */
  predicate Tiles(log: seq<Entry>, lo: nat, hi: nat) {
    if log == [] then lo == hi
    else if log[0].Archive? then Tiles(log[1..], lo, hi)
    else log[0].start == lo && lo <= log[0].end && Tiles(log[1..], log[0].end, hi)
  }

  /** Archived segments tile [lo, hi) without gap, overlap or empty piece. */
  predicate SegmentsTile(segments: seq<Segment>, lo: nat, hi: nat) {
    if segments == [] then lo == hi
    else segments[0].start == lo && lo < segments[0].end && SegmentsTile(segments[1..], segments[0].end, hi)
  }

  /** A retained body is the committed bytes; only checkpoint-covered bodies are gone. */
  ghost predicate EntryOk(t: Timeline, e: Entry, digest: Digest) {
    match e
    case Wal(start, end, body) =>
      && t.first <= start <= end <= t.first + |t.wal|
      && (body.None? ==> end <= t.archiveLsn)
      && (body.Some? ==> body.value == Slice(t, start, end))
    case Archive(segment, _) => SegmentOk(t, segment, digest)
  }

  /** The segment's name spells the hash of exactly the committed bytes it covers. */
  ghost predicate SegmentOk(t: Timeline, s: Segment, digest: Digest) {
    t.first <= s.start < s.end <= t.first + |t.wal| && s.hash == digest(Slice(t, s.start, s.end))
  }

  ghost predicate TimelineInv(t: Timeline, digest: Digest) {
    && t.first <= t.archiveLsn <= t.walEnd == t.first + |t.wal|
    && (!t.open ==> t == NewTimeline)
    && (exists lo: nat :: lo <= t.archiveLsn && Tiles(t.log, lo, t.walEnd))
    && SegmentsTile(Segments(t.log), t.first, t.archiveLsn)
    && (forall i :: 0 <= i < |t.log| ==> EntryOk(t, t.log[i], digest))
  }

  // ---- Retained reads -----------------------------------------------------------------

  lemma BodyPiece(t: Timeline, e: Entry, a: nat, b: nat, digest: Digest)
    requires EntryOk(t, e, digest) && e.Wal? && e.body.Some? && e.start <= a <= b <= e.end
    ensures b - e.start <= |e.body.value| && e.body.value[a - e.start..b - e.start] == Slice(t, a, b)
  {
    var lo := e.start - t.first;
    assert t.wal[lo..e.end - t.first][a - e.start..b - e.start] == t.wal[lo + (a - e.start)..lo + (b - e.start)];
  }

  lemma PieceThenRest(t: Timeline, a: nat, b: nat, c: nat, piece: Bytes, rest: Option<Bytes>)
    requires t.first <= a <= b <= c <= t.first + |t.wal| && piece == Slice(t, a, b) && rest == Some(Slice(t, b, c))
    ensures Prepend(piece, rest) == Some(Slice(t, a, c))
  {
    assert Slice(t, a, b) + Slice(t, b, c) == Slice(t, a, c);
  }

  /** A retained read that answers, answers with exactly the committed bytes. */
  lemma {:induction false} RetainedReadIsExact(t: Timeline, log: seq<Entry>, lo: nat, cursor: nat, to: nat,
                                               digest: Digest)
    requires cursor < to && Tiles(log, lo, t.walEnd) && t.walEnd == t.first + |t.wal|
    requires forall i :: 0 <= i < |log| ==> EntryOk(t, log[i], digest)
    ensures ReadRetained(log, cursor, to).Some? ==>
              t.first <= cursor && to <= t.walEnd && ReadRetained(log, cursor, to).value == Slice(t, cursor, to)
    decreases |log|
  {
    if log != [] {
      var e := log[0];
      assert EntryOk(t, e, digest);
      if !e.Wal? || e.end <= cursor || e.start >= to {
        RetainedReadIsExact(t, log[1..], if e.Wal? then e.end else lo, cursor, to, digest);
      } else if e.start <= cursor && e.body.Some? {
        var upTo := Min(to, e.end);
        BodyPiece(t, e, cursor, upTo, digest);
        if upTo < to {
          RetainedReadIsExact(t, log[1..], e.end, upTo, to, digest);
          if ReadRetained(log[1..], upTo, to).Some? {
            PieceThenRest(t, cursor, upTo, to, Slice(t, cursor, upTo), ReadRetained(log[1..], upTo, to));
          }
        }
      }
    }
  }

  /** Everything from the checkpoint to the committed end can be read from retained headers. */
  lemma {:induction false} RetainedReadAnswers(t: Timeline, log: seq<Entry>, lo: nat, cursor: nat, to: nat,
                                               digest: Digest)
    requires t.archiveLsn <= cursor < to <= t.walEnd && lo <= cursor
    requires Tiles(log, lo, t.walEnd)
    requires forall i :: 0 <= i < |log| ==> EntryOk(t, log[i], digest)
    ensures ReadRetained(log, cursor, to).Some?
    decreases |log|
  {
    if log != [] {
      var e := log[0];
      assert EntryOk(t, e, digest);
      assert forall i :: 0 <= i < |log[1..]| ==> log[1..][i] == log[i + 1];
      if !e.Wal? || e.end <= cursor {
        RetainedReadAnswers(t, log[1..], if e.Wal? then e.end else lo, cursor, to, digest);
      } else if e.end < to {
        RetainedReadAnswers(t, log[1..], e.end, e.end, to, digest);
      }
    }
  }

  // ---- Archived reads -----------------------------------------------------------------

  /** For some segment of the timeline the store holds other bytes than the committed ones, of the same
      length and with the same hash. */
  ghost predicate Forged(t: Timeline, objects: Objects, digest: Digest) {
    exists s :: s in objects && SegmentOk(t, s, digest) && |objects[s]| == s.end - s.start &&
                digest(objects[s]) == s.hash && objects[s] != Slice(t, s.start, s.end)
  }

  lemma {:induction false} SegmentsTileSnoc(segments: seq<Segment>, lo: nat, s: Segment)
    requires SegmentsTile(segments, lo, s.start) && s.start < s.end
    ensures SegmentsTile(segments + [s], lo, s.end)
    decreases |segments|
  {
    if segments == [] {
      assert [s][1..] == [];
    } else {
      assert (segments + [s])[1..] == segments[1..] + [s];
      SegmentsTileSnoc(segments[1..], segments[0].end, s);
    }
  }

  /** A verified object that is not forged holds the committed bytes. */
  lemma ObjectPiece(t: Timeline, objects: Objects, s: Segment, a: nat, b: nat, digest: Digest)
    requires s in objects && SegmentOk(t, s, digest) && Verified(s, objects[s], digest) && !Forged(t, objects, digest)
    requires s.start <= a <= b <= s.end
    ensures objects[s][a - s.start..b - s.start] == Slice(t, a, b)
  {
    assert objects[s] == Slice(t, s.start, s.end);
    var lo := s.start - t.first;
    assert t.wal[lo..s.end - t.first][a - s.start..b - s.start] == t.wal[lo + (a - s.start)..lo + (b - s.start)];
  }

  /** An archived read that answers lies within the archive. */
  lemma {:induction false} ArchivedReadInRange(t: Timeline, objects: Objects, segments: seq<Segment>, lo: nat, hi: nat,
                                               cursor: nat, to: nat, digest: Digest)
    requires SegmentsTile(segments, lo, hi) && cursor < to <= hi
    requires forall s :: s in segments ==> SegmentOk(t, s, digest)
    requires ReadArchived(objects, segments, cursor, to, digest).Some?
    ensures lo <= cursor && t.first <= cursor && to <= t.first + |t.wal|
    decreases |segments|
  {
    var s := segments[0];
    assert s in segments;
    if s.end <= cursor || s.start >= to {
      ArchivedReadInRange(t, objects, segments[1..], s.end, hi, cursor, to, digest);
    } else if s.end < to {
      ArchivedReadInRange(t, objects, segments[1..], s.end, hi, s.end, to, digest);
    }
  }

  lemma {:induction false} ArchivedReadExactly(t: Timeline, objects: Objects, segments: seq<Segment>,
                                               lo: nat, hi: nat, cursor: nat, to: nat, digest: Digest)
    requires SegmentsTile(segments, lo, hi) && cursor < to <= hi
    requires forall s :: s in segments ==> SegmentOk(t, s, digest)
    requires ReadArchived(objects, segments, cursor, to, digest).Some? && !Forged(t, objects, digest)
    ensures t.first <= cursor && to <= t.first + |t.wal|
    ensures ReadArchived(objects, segments, cursor, to, digest) == Some(Slice(t, cursor, to))
    decreases |segments|
  {
    ArchivedReadInRange(t, objects, segments, lo, hi, cursor, to, digest);
    var s, rest := segments[0], segments[1..];
    assert s in segments;
    if s.end <= cursor || s.start >= to {
      ArchivedReadExactly(t, objects, rest, s.end, hi, cursor, to, digest);
    } else {
      var upTo := Min(to, s.end);
      ObjectPiece(t, objects, s, cursor, upTo, digest);
      if upTo < to {
        ArchivedReadExactly(t, objects, rest, s.end, hi, upTo, to, digest);
        PieceThenRest(t, cursor, upTo, to, Slice(t, cursor, upTo), ReadArchived(objects, rest, upTo, to, digest));
      }
    }
  }

  /** An archived read over tiling, well-named segments: whatever bytes the object store hands
      back, an answer lies within the archive and is the committed bytes unless an object is forged. */
  lemma ArchivedReadIsExact(t: Timeline, objects: Objects, segments: seq<Segment>, lo: nat, hi: nat,
                            cursor: nat, to: nat, digest: Digest)
    requires SegmentsTile(segments, lo, hi) && cursor < to <= hi
    requires forall s :: s in segments ==> SegmentOk(t, s, digest)
    ensures var r := ReadArchived(objects, segments, cursor, to, digest);
            && (r.Some? ==> lo <= cursor && t.first <= cursor && to <= t.first + |t.wal|)
            && (r.Some? && !Forged(t, objects, digest) ==> r.value == Slice(t, cursor, to))
  {
    if ReadArchived(objects, segments, cursor, to, digest).Some? {
      ArchivedReadInRange(t, objects, segments, lo, hi, cursor, to, digest);
      if !Forged(t, objects, digest) { ArchivedReadExactly(t, objects, segments, lo, hi, cursor, to, digest); }
    }
  }

  /** An intact store answers every range within the archive. */
  lemma {:induction false} ArchivedReadAnswers(objects: Objects, segments: seq<Segment>, lo: nat, hi: nat,
                                               cursor: nat, to: nat, digest: Digest)
    requires SegmentsTile(segments, lo, hi) && lo <= cursor < to <= hi
    requires forall s :: s in segments ==> s in objects && Verified(s, objects[s], digest)
    ensures ReadArchived(objects, segments, cursor, to, digest).Some?
    decreases |segments|
  {
    if segments != [] {
      var s := segments[0];
      assert s in segments;
      if s.end <= cursor {
        ArchivedReadAnswers(objects, segments[1..], s.end, hi, cursor, to, digest);
      } else if s.end < to {
        ArchivedReadAnswers(objects, segments[1..], s.end, hi, s.end, to, digest);
      }
    }
  }

  // ---- The composed read --------------------------------------------------------------

  /** The tail of a plan: the committed bytes from the checkpoint on. */
  ghost predicate TailOk(t: Timeline, tail: Bytes, checkpoint: nat, from: nat, to: nat) {
    var start := Max(from, checkpoint);
    if start < to then t.first <= start && to <= t.first + |t.wal| && tail == Slice(t, start, to) else tail == []
  }

  /** Splicing the archived prefix to the tail gives exactly the committed range, for any
      manifest that tiles [first, checkpoint) and any bytes the store hands back. */
  lemma ComposeIsExact(t: Timeline, objects: Objects, segments: seq<Segment>, checkpoint: nat, tail: Bytes,
                       from: nat, to: nat, digest: Digest)
    requires from < to && SegmentsTile(segments, t.first, checkpoint)
    requires forall s :: s in segments ==> SegmentOk(t, s, digest)
    requires TailOk(t, tail, checkpoint, from, to)
    ensures var r := Compose(objects, segments, checkpoint, tail, from, to, digest);
            && (r.Some? ==> t.first <= from && to <= t.first + |t.wal|)
            && (r.Some? && !Forged(t, objects, digest) ==> r.value == Slice(t, from, to))
  {
    var archivedEnd := Min(to, checkpoint);
    if from < archivedEnd {
      ArchivedReadIsExact(t, objects, segments, t.first, checkpoint, from, archivedEnd, digest);
      if ReadArchived(objects, segments, from, archivedEnd, digest).Some? {
        assert Slice(t, from, archivedEnd) + (if archivedEnd < to then Slice(t, archivedEnd, to) else []) ==
               Slice(t, from, to);
      }
    }
  }

  lemma ComposeAnswers(objects: Objects, segments: seq<Segment>, lo: nat, checkpoint: nat, tail: Bytes,
                       from: nat, to: nat, digest: Digest)
    requires lo <= from < to && SegmentsTile(segments, lo, checkpoint)
    requires forall s :: s in segments ==> s in objects && Verified(s, objects[s], digest)
    ensures Compose(objects, segments, checkpoint, tail, from, to, digest).Some?
  {
    if from < Min(to, checkpoint) {
      ArchivedReadAnswers(objects, segments, lo, checkpoint, from, Min(to, checkpoint), digest);
    }
  }

  lemma {:induction false} SegmentsOk(t: Timeline, log: seq<Entry>, digest: Digest)
    requires forall i :: 0 <= i < |log| ==> EntryOk(t, log[i], digest)
    ensures forall s :: s in Segments(log) ==> SegmentOk(t, s, digest)
  {
    if log != [] {
      assert EntryOk(t, log[0], digest);
      SegmentsOk(t, log[1..], digest);
    }
  }

  lemma {:induction false} TileContiguous(segments: seq<Segment>, lo: nat, hi: nat)
    requires SegmentsTile(segments, lo, hi)
    ensures Contiguous(segments) && (segments != [] ==> segments[|segments| - 1].end == hi)
    decreases |segments|
  {
    if segments != [] {
      var rest := segments[1..];
      TileContiguous(rest, segments[0].end, hi);
      forall i | 0 < i < |segments| ensures segments[i].start == segments[i - 1].end {
        assert segments[i] == rest[i - 1];
        if i > 1 { assert segments[i - 1] == rest[i - 2]; }
      }
    }
  }

  /** The manifest of a well-kept timeline is never refused, and tiles the archived prefix. */
  lemma ManifestTiles(t: Timeline, digest: Digest)
    requires TimelineInv(t, digest)
    ensures Manifest(t, t.archiveLsn) == Some(Segments(t.log))
    ensures forall s :: s in Segments(t.log) ==> SegmentOk(t, s, digest)
  {
    TileContiguous(Segments(t.log), t.first, t.archiveLsn);
    SegmentsOk(t, t.log, digest);
  }

  lemma TailIsExact(t: Timeline, checkpoint: nat, from: nat, to: nat, digest: Digest)
    requires TimelineInv(t, digest) && from < to
    ensures var tail := RetainedTail(t, checkpoint, from, to);
            tail.Some? ==> TailOk(t, tail.value, checkpoint, from, to)
    ensures checkpoint == t.archiveLsn && to <= t.walEnd ==> RetainedTail(t, checkpoint, from, to).Some?
  {
    var lo: nat :| lo <= t.archiveLsn && Tiles(t.log, lo, t.walEnd);
    var start := Max(from, checkpoint);
    if start < to {
      RetainedReadIsExact(t, t.log, lo, start, to, digest);
      if t.archiveLsn <= start && to <= t.walEnd { RetainedReadAnswers(t, t.log, lo, start, to, digest); }
    }
  }

  /** Every archived object is there and is what its checkpoint names. */
  predicate Intact(t: Timeline, objects: Objects, digest: Digest) {
    forall s :: s in Segments(t.log) ==> s in objects && Verified(s, objects[s], digest)
  }

  /** A read of a well-kept timeline returns exactly the committed bytes of the range unless
      an object is forged, whatever the store holds; with an intact store it answers exactly
      the ranges within the committed WAL. */
  lemma ReadWalIsExact(t: Timeline, objects: Objects, from: nat, to: nat, digest: Digest)
    requires TimelineInv(t, digest)
    ensures var r := ReadWal(t, objects, from, to, digest);
            && (r.Some? ==> t.first <= from < to <= t.walEnd)
            && (r.Some? && !Forged(t, objects, digest) ==> r.value == Slice(t, from, to))
            && (Intact(t, objects, digest) ==> (r.Some? <==> t.first <= from < to <= t.walEnd))
  {
    if from < to {
      var lo: nat :| lo <= t.archiveLsn && Tiles(t.log, lo, t.walEnd);
      RetainedReadIsExact(t, t.log, lo, from, to, digest);
      if from >= t.archiveLsn {
        if to <= t.walEnd { RetainedReadAnswers(t, t.log, lo, from, to, digest); }
      } else {
        ManifestTiles(t, digest);
        TailIsExact(t, t.archiveLsn, from, to, digest);
        if to <= t.walEnd {
          var tail := RetainedTail(t, t.archiveLsn, from, to).value;
          ComposeIsExact(t, objects, Segments(t.log), t.archiveLsn, tail, from, to, digest);
          if t.first <= from && Intact(t, objects, digest) {
            ComposeAnswers(objects, Segments(t.log), t.first, t.archiveLsn, tail, from, to, digest);
          }
        }
      }
    }
  }

  // ---- Every applied command keeps the timeline ---------------------------------------

  /** The history of `u` continues that of `t`, and nothing archived is un-archived. */
  predicate Continues(t: Timeline, u: Timeline) {
    && (t.open ==> u.open && u.first == t.first && t.archiveLsn <= u.archiveLsn && t.walEnd <= u.walEnd)
    && |t.wal| <= |u.wal| && u.wal[..|t.wal|] == t.wal
  }

  lemma SliceContinues(t: Timeline, u: Timeline, a: nat, b: nat)
    requires t.open && Continues(t, u) && t.first <= a <= b <= t.first + |t.wal|
    ensures b <= u.first + |u.wal| && Slice(u, a, b) == Slice(t, a, b)
  {
    assert t.wal[a - t.first..b - t.first] == u.wal[..|t.wal|][a - t.first..b - t.first];
  }

  lemma EntryContinues(t: Timeline, u: Timeline, e: Entry, digest: Digest)
    requires t.open && Continues(t, u) && EntryOk(t, e, digest)
    ensures EntryOk(u, e, digest)
  {
    match e {
      case Wal(a, b, _) => SliceContinues(t, u, a, b);
      case Archive(s, _) => SliceContinues(t, u, s.start, s.end);
    }
  }

  lemma {:induction false} TilesSnoc(log: seq<Entry>, lo: nat, hi: nat, e: Entry)
    requires Tiles(log, lo, hi) && (e.Wal? ==> e.start == hi && hi <= e.end)
    ensures Tiles(log + [e], lo, if e.Wal? then e.end else hi)
    decreases |log|
  {
    if log == [] {
      assert [e][1..] == [];
    } else {
      assert (log + [e])[1..] == log[1..] + [e];
      TilesSnoc(log[1..], if log[0].Wal? then log[0].end else lo, hi, e);
    }
  }

  lemma {:induction false} SegmentsSnoc(log: seq<Entry>, e: Entry)
    ensures Segments(log + [e]) == Segments(log) + if e.Archive? then [e.segment] else []
  {
    if log == [] {
      assert [e][1..] == [];
    } else {
      assert (log + [e])[1..] == log[1..] + [e];
      SegmentsSnoc(log[1..], e);
    }
  }

  lemma OpenKeeps(t: Timeline, start: nat, digest: Digest)
    requires TimelineInv(t, digest)
    ensures TimelineInv(OpenTimeline(t, start), digest) && Continues(t, OpenTimeline(t, start))
  {
    if !t.open { assert Tiles([], start, start) && SegmentsTile([], start, start); }
  }

  lemma AppendContinues(t: Timeline, start: nat, body: Bytes)
    requires t.walEnd == t.first + |t.wal|
    ensures Continues(t, AppendWal(t, start, body))
  {
    assert (t.wal + body)[..|t.wal|] == t.wal;
  }

  lemma AppendedEntries(t: Timeline, start: nat, body: Bytes, digest: Digest)
    requires TimelineInv(t, digest) && t.open && start == t.walEnd
    ensures var u := AppendWal(t, start, body); forall i :: 0 <= i < |u.log| ==> EntryOk(u, u.log[i], digest)
  {
    var u := AppendWal(t, start, body);
    AppendContinues(t, start, body);
    assert Slice(u, start, start + |body|) == body;
    forall i | 0 <= i < |u.log| ensures EntryOk(u, u.log[i], digest) {
      if i < |t.log| { EntryContinues(t, u, t.log[i], digest); }
    }
  }

  lemma AppendTiles(t: Timeline, start: nat, body: Bytes, digest: Digest)
    requires TimelineInv(t, digest) && t.open && start == t.walEnd
    ensures var u := AppendWal(t, start, body);
            Segments(u.log) == Segments(t.log) && exists lo: nat :: lo <= t.archiveLsn && Tiles(u.log, lo, u.walEnd)
  {
    var lo: nat :| lo <= t.archiveLsn && Tiles(t.log, lo, t.walEnd);
    var e := Wal(start, start + |body|, Some(body));
    TilesSnoc(t.log, lo, t.walEnd, e);
    SegmentsSnoc(t.log, e);
    assert Segments(t.log) + [] == Segments(t.log);
  }

  lemma AppendKeeps(t: Timeline, start: nat, body: Bytes, digest: Digest)
    requires TimelineInv(t, digest)
    ensures TimelineInv(AppendWal(t, start, body), digest) && Continues(t, AppendWal(t, start, body))
  {
    if t.open && start == t.walEnd {
      AppendTiles(t, start, body, digest);
      AppendContinues(t, start, body);
      AppendedEntries(t, start, body, digest);
    }
  }

  /** When a checkpoint continues the archive within committed WAL. */
  predicate Accepts(t: Timeline, s: Segment) { s.start < s.end && s.start == t.archiveLsn && s.end <= t.walEnd }

  /** Whatever hash it names, a checkpoint moves the watermark exactly when it is accepted, to its own end,
      and the archived segments go on tiling the WAL up to the watermark. */
  lemma CheckpointTiles(t: Timeline, s: Segment, origin: Origin, digest: Digest)
    requires TimelineInv(t, digest)
    ensures var u := CommitCheckpoint(t, s, origin);
            && (u != t <==> Accepts(t, s)) && u.archiveLsn == (if Accepts(t, s) then s.end else t.archiveLsn)
            && Segments(u.log) == Segments(t.log) + (if Accepts(t, s) then [s] else [])
            && SegmentsTile(Segments(u.log), u.first, u.archiveLsn) && Continues(t, u)
            && exists lo: nat :: lo <= t.archiveLsn && Tiles(u.log, lo, t.walEnd)
  {
    if Accepts(t, s) {
      var lo: nat :| lo <= t.archiveLsn && Tiles(t.log, lo, t.walEnd);
      TilesSnoc(t.log, lo, t.walEnd, Archive(s, origin));
      SegmentsSnoc(t.log, Archive(s, origin));
      SegmentsTileSnoc(Segments(t.log), t.first, s);
    } else {
      assert Segments(t.log) + [] == Segments(t.log);
    }
  }

  /** Whatever hash it names, an accepted checkpoint keeps the timeline exactly if it names the committed
      bytes; a refused one changes nothing. */
  lemma CheckpointKeeps(t: Timeline, s: Segment, origin: Origin, digest: Digest)
    requires TimelineInv(t, digest)
    ensures var u := CommitCheckpoint(t, s, origin);
            Continues(t, u) && (TimelineInv(u, digest) <==> (Accepts(t, s) ==> SegmentOk(t, s, digest)))
  {
    var u := CommitCheckpoint(t, s, origin);
    CheckpointTiles(t, s, origin, digest);
    if Accepts(t, s) {
      SliceContinues(t, u, s.start, s.end);
      assert u.log[|t.log|] == Archive(s, origin);
      assert TimelineInv(u, digest) ==> EntryOk(u, u.log[|t.log|], digest);
      if SegmentOk(t, s, digest) { CheckpointedEntries(t, u, s, origin, digest); }
    }
  }

  lemma CheckpointedEntries(t: Timeline, u: Timeline, s: Segment, origin: Origin, digest: Digest)
    requires TimelineInv(t, digest) && t.open && SegmentOk(t, s, digest) && Continues(t, u)
    requires u.log == t.log + [Archive(s, origin)]
    ensures forall i :: 0 <= i < |u.log| ==> EntryOk(u, u.log[i], digest)
  {
    forall i | 0 <= i < |u.log| ensures EntryOk(u, u.log[i], digest) {
      if i < |t.log| { EntryContinues(t, u, t.log[i], digest); } else { SliceContinues(t, u, s.start, s.end); }
    }
  }

  /** Losing a body changes neither the tiling nor the manifest. */
  lemma {:induction false} BodyIrrelevant(log: seq<Entry>, i: nat, e: Entry, lo: nat, hi: nat)
    requires i < |log| && log[i].Wal? && e == log[i].(body := None)
    ensures Tiles(log[i := e], lo, hi) == Tiles(log, lo, hi) && Segments(log[i := e]) == Segments(log)
    decreases |log|
  {
    if i == 0 {
      assert log[i := e][1..] == log[1..];
    } else {
      assert log[i := e][1..] == log[1..][i - 1 := e];
      BodyIrrelevant(log[1..], i - 1, e, if log[0].Wal? then log[0].end else lo, hi);
    }
  }

  lemma ReleasePayloadKeeps(t: Timeline, i: nat, digest: Digest)
    requires TimelineInv(t, digest)
    ensures TimelineInv(ReleasePayload(t, i), digest) && Continues(t, ReleasePayload(t, i))
    ensures i < |t.log| && t.log[i].Wal? ==>
              ReleasePayload(t, i).log[i].body == if t.log[i].end <= t.archiveLsn then None else t.log[i].body
  {
    var u := ReleasePayload(t, i);
    if u != t {
      var lo: nat :| lo <= t.archiveLsn && Tiles(t.log, lo, t.walEnd);
      BodyIrrelevant(t.log, i, u.log[i], lo, t.walEnd);
      forall k | 0 <= k < |u.log| ensures EntryOk(u, u.log[k], digest) { EntryContinues(t, u, t.log[k], digest); }
    }
  }

  /** Compaction keeps the manifest, and what it keeps still tiles up to the committed end,
      starting no later than the release boundary. */
  lemma {:induction false} CompactTiles(log: seq<Entry>, through: nat, lo: nat, hi: nat) returns (lo': nat)
    requires Tiles(log, lo, hi)
    ensures Tiles(Compact(log, through), lo', hi) && lo' <= Max(lo, through)
    ensures Segments(Compact(log, through)) == Segments(log)
    decreases |log|
  {
    if log == [] {
      lo' := lo;
    } else if log[0].Wal? && log[0].end <= through {
      lo' := CompactTiles(log[1..], through, log[0].end, hi);
    } else {
      var rest := Compact(log[1..], through);
      assert ([log[0]] + rest)[1..] == rest;
      if log[0].Wal? {
        KeepsAll(log[1..], through, log[0].end, hi);
        lo' := lo;
      } else {
        lo' := CompactTiles(log[1..], through, lo, hi);
      }
    }
  }

  /** Past the release boundary nothing is dropped. */
  lemma {:induction false} KeepsAll(log: seq<Entry>, through: nat, lo: nat, hi: nat)
    requires Tiles(log, lo, hi) && through < lo
    ensures Compact(log, through) == log
    decreases |log|
  {
    if log != [] { KeepsAll(log[1..], through, if log[0].Wal? then log[0].end else lo, hi); }
  }

  /** Compaction drops exactly the covered WAL headers. */
  lemma {:induction false} CompactDrops(log: seq<Entry>, through: nat, e: Entry)
    ensures e in Compact(log, through) <==> e in log && !(e.Wal? && e.end <= through)
  {
    if log != [] {
      assert log == [log[0]] + log[1..];
      CompactDrops(log[1..], through, e);
    }
  }

  lemma ReleasedEntries(t: Timeline, through: nat, digest: Digest)
    requires TimelineInv(t, digest) && through <= t.archiveLsn
    ensures var u := ReleaseWal(t, through).value; forall k :: 0 <= k < |u.log| ==> EntryOk(u, u.log[k], digest)
  {
    var u := ReleaseWal(t, through).value;
    forall k | 0 <= k < |u.log| ensures EntryOk(u, u.log[k], digest) {
      CompactDrops(t.log, through, u.log[k]);
      var j :| 0 <= j < |t.log| && t.log[j] == u.log[k];
      if t.open { EntryContinues(t, u, t.log[j], digest); }
    }
  }

  /** A release up to the checkpoint succeeds, drops exactly the covered headers and loses no committed
      byte; a release beyond it is refused. */
  lemma ReleaseWalKeeps(t: Timeline, through: nat, digest: Digest)
    requires TimelineInv(t, digest)
    ensures ReleaseWal(t, through).Some? <==> through <= t.archiveLsn
    ensures ReleaseWal(t, through).Some? ==>
              var u := ReleaseWal(t, through).value;
              && TimelineInv(u, digest) && Continues(t, u) && u.walEnd == t.walEnd && u.archiveLsn == t.archiveLsn
              && forall e :: e in u.log <==> e in t.log && !(e.Wal? && e.end <= through)
  {
    if through <= t.archiveLsn {
      forall e ensures e in Compact(t.log, through) <==> e in t.log && !(e.Wal? && e.end <= through) {
        CompactDrops(t.log, through, e);
      }
      var lo: nat :| lo <= t.archiveLsn && Tiles(t.log, lo, t.walEnd);
      var lo' := CompactTiles(t.log, through, lo, t.walEnd);
      ReleasedEntries(t, through, digest);
    }
  }
}
