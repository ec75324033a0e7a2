/** The read loops of the timeline, each proved against its specification. */
module WalReads {
  import opened Basics
  import opened WalTimeline

  /** The scan of `read_wal_after_fence`. */
  method ReadWalAfterFence(log: seq<Entry>, from: nat, to: nat) returns (r: Option<Bytes>)
    ensures r == ReadRetained(log, from, to)
  {
    var cursor: nat, output: Bytes := from, [];
    PrependNothing(ReadRetained(log, from, to));
    assert log[0..] == log;
    for i := 0 to |log|
      invariant ReadRetained(log, from, to) == Prepend(output, ReadRetained(log[i..], cursor, to))
    {
      var e := log[i];
      assert log[i..][1..] == log[i + 1..];
      if !e.Wal? || e.end <= cursor || e.start >= to { continue; }
      if e.start > cursor || e.body.None? { return None; }
      var upTo := if to <= e.end then to else e.end;
      if upTo < cursor || upTo - e.start > |e.body.value| { return None; }
      var piece := e.body.value[cursor - e.start..upTo - e.start];
      if upTo == to { return Some(output + piece); }
      PrependTwice(output, piece, ReadRetained(log[i + 1..], upTo, to));
      output, cursor := output + piece, upTo;
    }
    return None;
  }

  lemma PrependNothing(rest: Option<Bytes>)
    ensures Prepend([], rest) == rest
  {
    if rest.Some? { assert [] + rest.value == rest.value; }
  }

  lemma PrependTwice(a: Bytes, b: Bytes, rest: Option<Bytes>)
    ensures Prepend(a, Prepend(b, rest)) == Prepend(a + b, rest)
  {
    if rest.Some? { assert a + (b + rest.value) == (a + b) + rest.value; }
  }

  /** A chain broken where a segment joins it stays broken, whatever follows. */
  lemma BrokenChain(segments: seq<Segment>, s: Segment, rest: seq<Segment>)
    requires segments != [] && s.start != segments[|segments| - 1].end
    ensures !Contiguous(segments + [s] + rest)
  {
    var all := segments + [s] + rest;
    assert all[|segments|] == s && all[|segments| - 1] == segments[|segments| - 1];
  }

  /** A segment that joins at the end keeps a chain. */
  lemma ChainGrows(segments: seq<Segment>, s: Segment)
    requires Contiguous(segments) && (segments != [] ==> s.start == segments[|segments| - 1].end)
    ensures Contiguous(segments + [s])
  {
  }

  /** The chain check of `archived_wal_segments`. */
  method ArchivedWalSegments(t: Timeline, through: nat) returns (r: Option<seq<Segment>>)
    ensures r == Manifest(t, through)
  {
    if through != t.archiveLsn { return None; }
    var cursor: Option<nat>, segments: seq<Segment> := None, [];
    for i := 0 to |t.log|
      invariant Segments(t.log) == segments + Segments(t.log[i..])
      invariant Contiguous(segments)
      invariant cursor == if segments == [] then None else Some(segments[|segments| - 1].end)
    {
      assert t.log[i..][1..] == t.log[i + 1..];
      if t.log[i].Archive? {
        var segment := t.log[i].segment;
        assert Segments(t.log) == (segments + [segment]) + Segments(t.log[i + 1..]);
        if cursor.Some? && segment.start != cursor.value {
          BrokenChain(segments, segment, Segments(t.log[i + 1..]));
          return None;
        }
        ChainGrows(segments, segment);
        cursor, segments := Some(segment.end), segments + [segment];
      }
    }
    assert segments == Segments(t.log);
    if cursor.None? || cursor == Some(through) { return Some(segments); }
    return None;
  }

  /** The scan of `read_archived_wal_prefix`. */
  method ReadArchivedWalPrefix(objects: Objects, segments: seq<Segment>, from: nat, to: nat, digest: Digest)
    returns (r: Option<Bytes>)
    ensures r == if from >= to then None else ReadArchived(objects, segments, from, to, digest)
  {
    if from >= to { return None; }
    var cursor: nat, output: Bytes := from, [];
    PrependNothing(ReadArchived(objects, segments, from, to, digest));
    assert segments[0..] == segments;
    for i := 0 to |segments|
      invariant ReadArchived(objects, segments, from, to, digest) ==
                Prepend(output, ReadArchived(objects, segments[i..], cursor, to, digest))
    {
      var s := segments[i];
      assert segments[i..][1..] == segments[i + 1..];
      if s.end <= cursor || s.start >= to { continue; }
      if s.start > cursor || s !in objects { return None; }
      var bytes := objects[s];
      if |bytes| != s.end - s.start || digest(bytes) != s.hash { return None; }
      var upTo := if to <= s.end then to else s.end;
      if upTo < cursor { return None; }
      var piece := bytes[cursor - s.start..upTo - s.start];
      if upTo == to { return Some(output + piece); }
      PrependTwice(output, piece, ReadArchived(objects, segments[i + 1..], upTo, to, digest));
      output, cursor := output + piece, upTo;
    }
    return None;
  }

  /** `composed_wal_read` against one state: over a well-kept timeline and an intact store it
      answers exactly the committed ranges with exactly the committed bytes. */
  method ComposedWalRead(t: Timeline, objects: Objects, from: nat, to: nat, digest: Digest) returns (r: Option<Bytes>)
    ensures r == ReadWal(t, objects, from, to, digest)
    ensures TimelineInv(t, digest) && r.Some? && !Forged(t, objects, digest) ==>
              t.first <= from < to <= t.walEnd && r.value == Slice(t, from, to)
    ensures TimelineInv(t, digest) && Intact(t, objects, digest) ==> (r.Some? <==> t.first <= from < to <= t.walEnd)
  {
    if TimelineInv(t, digest) { ReadWalIsExact(t, objects, from, to, digest); }
    if from >= to { return None; }
    r := ReadWalAfterFence(t.log, from, to);
    if r.Some? { return; }
    if from >= t.archiveLsn || to > t.walEnd { return None; }
    var segments := ArchivedWalSegments(t, t.archiveLsn);
    if segments.None? { return None; }
    var tailStart, tail: Option<Bytes> := if from <= t.archiveLsn then t.archiveLsn else from, Some([]);
    if tailStart < to { tail := ReadWalAfterFence(t.log, tailStart, to); }
    if tail.None? { return None; }
    var archivedEnd, output: Bytes := if to <= t.archiveLsn then to else t.archiveLsn, [];
    if from < archivedEnd {
      var prefix := ReadArchivedWalPrefix(objects, segments.value, from, archivedEnd, digest);
      if prefix.None? { return None; }
      output := prefix.value;
    }
    return Some(output + tail.value);
  }
}
