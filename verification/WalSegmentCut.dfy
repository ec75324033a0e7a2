/** The background archive loop: it cuts committed WAL at 16 MiB boundaries, in saturating
    64-bit arithmetic, and backs off after failures. */
module WalSegmentCut {
  import opened Basics

  const SEGMENT_BYTES: nat := 16 * 1024 * 1024

  /** Where a segment starting at `start` ends. */
  function CutEnd(start: nat): nat {
    if start % SEGMENT_BYTES == 0 then SaturatingAdd(start, SEGMENT_BYTES)
    else SaturatingAdd(start, SEGMENT_BYTES - start % SEGMENT_BYTES)
  }

  /** Below the last segment of the address space a cut ends on the next boundary, so no
      segment crosses one; in the last segment it saturates. */
  lemma CutAtBoundary(start: nat)
    requires start <= U64_MAX
    ensures start / SEGMENT_BYTES < U64_MAX / SEGMENT_BYTES ==>
              CutEnd(start) == (start / SEGMENT_BYTES + 1) * SEGMENT_BYTES && start < CutEnd(start) < U64_MAX
    ensures start / SEGMENT_BYTES == U64_MAX / SEGMENT_BYTES ==> CutEnd(start) == U64_MAX
  {
  }

  lemma CrossesNoBoundary(start: nat, boundary: nat)
    requires start / SEGMENT_BYTES < U64_MAX / SEGMENT_BYTES
    ensures !(start < boundary * SEGMENT_BYTES < CutEnd(start)) && CutEnd(start) % SEGMENT_BYTES == 0
  {
    CutAtBoundary(start);
    var q := start / SEGMENT_BYTES;
    if boundary <= q {
      assert boundary * SEGMENT_BYTES <= q * SEGMENT_BYTES <= start;
    } else {
      assert (q + 1) * SEGMENT_BYTES <= boundary * SEGMENT_BYTES;
    }
  }

  /** How many segments the loop archives between a checkpoint and a committed end. */
  function SegmentCount(start: nat, committed: nat): nat
    requires start <= committed <= U64_MAX
  {
    committed / SEGMENT_BYTES - start / SEGMENT_BYTES + if committed == U64_MAX && start < U64_MAX then 1 else 0
  }

  predicate Stops(start: nat, committed: nat) {
    CutEnd(start) > committed || CutEnd(start) <= start
  }

  lemma CountStep(start: nat, committed: nat)
    requires start <= committed <= U64_MAX
    ensures Stops(start, committed) ==> SegmentCount(start, committed) == 0 && committed - start < SEGMENT_BYTES
    ensures !Stops(start, committed) ==>
              CutEnd(start) <= committed && SegmentCount(start, committed) == 1 + SegmentCount(CutEnd(start), committed)
  {
    CutAtBoundary(start);
  }

  /** A segment is 16 MiB. */
  lemma SegmentIs(k: nat)
    requires k < 0xFF_FFFF_FFFF
    ensures CutEnd(16_777_216 * k) == 16_777_216 * (k + 1)
  {
  }

  /** What one turn of the loop meets: the status read fails, the archive call fails before or
      after its checkpoint was applied, or it succeeds. */
  datatype Turn = StatusFails | ArchiveFails | FailsAfterCheckpoint | Succeeds

  const FIRST_BACKOFF_MS: nat := 250
  const BACKOFF_CEILING_MS: nat := 30_000

  function Doubled(ms: nat): nat {
    if ms * 2 <= BACKOFF_CEILING_MS then ms * 2 else BACKOFF_CEILING_MS
  }

  function Pow2(n: nat): nat { if n == 0 then 1 else 2 * Pow2(n - 1) }

  /** The pause after `failures` failures in a row since the last success. */
  function Pause(failures: nat): nat {
    if FIRST_BACKOFF_MS * Pow2(failures) <= BACKOFF_CEILING_MS then FIRST_BACKOFF_MS * Pow2(failures)
    else BACKOFF_CEILING_MS
  }

  /** In milliseconds: 250 and its doubles, held at 30 seconds from the seventh failure in a row on. */
  lemma {:induction false} PausesAre(failures: nat)
    ensures Pause(0) == 250 && Pause(1) == 500 && Pause(2) == 1_000 && Pause(3) == 2_000 && Pause(4) == 4_000
    ensures Pause(5) == 8_000 && Pause(6) == 16_000 && (failures >= 7 ==> Pause(failures) == 30_000)
    decreases failures
  {
    assert Pow2(1) == 2 && Pow2(2) == 4 && Pow2(3) == 8;
    assert Pow2(4) == 16 && Pow2(5) == 32;
    assert Pow2(6) == 64 && Pow2(7) == 128;
    if failures > 7 { PausesAre(failures - 1); }
  }

  /** Failures at the end of `turns`, back to the last success. */
  function TrailingFailures(turns: seq<Turn>): nat {
    if turns == [] || turns[|turns| - 1].Succeeds? then 0 else 1 + TrailingFailures(turns[..|turns| - 1])
  }

  /** How many of the turns applied a checkpoint. */
  function Applied(turns: seq<Turn>): nat {
    if turns == [] then 0
    else
      var last := turns[|turns| - 1];
      Applied(turns[..|turns| - 1]) + if last.FailsAfterCheckpoint? || last.Succeeds? then 1 else 0
  }

  /** At turn `k` the loop reads the status and finds all `total` segments archived. */
  predicate StopsAt(turns: seq<Turn>, k: nat, total: nat) {
    k < |turns| && !turns[k].StatusFails? && Applied(turns[..k]) == total
  }

  /** [start, end) ranges in order, each cut by `CutEnd`, covering [lo, hi). */
  predicate CutTiling(made: seq<(nat, nat)>, lo: nat, hi: nat) {
    if made == [] then lo == hi
    else
      var last := made[|made| - 1];
      last.1 == hi && last.0 < hi && CutEnd(last.0) == hi && CutTiling(made[..|made| - 1], lo, last.0)
  }

  /** What the loop has archived after `applied` turns that applied a checkpoint. */
  ghost predicate Archived(made: seq<(nat, nat)>, start: nat, checkpoint: nat, committed: nat, applied: nat) {
    && start <= checkpoint <= committed <= U64_MAX && CutTiling(made, start, checkpoint) && |made| == applied
    && applied + SegmentCount(checkpoint, committed) == SegmentCount(start, committed)
  }

  lemma OneMoreCut(made: seq<(nat, nat)>, lo: nat, hi: nat, end: nat)
    requires CutTiling(made, lo, hi) && hi < end && end == CutEnd(hi)
    ensures CutTiling(made + [(hi, end)], lo, end)
  {
    assert (made + [(hi, end)])[..|made|] == made;
  }

  lemma ArchivesOne(made: seq<(nat, nat)>, start: nat, checkpoint: nat, committed: nat, applied: nat, end: nat)
    requires Archived(made, start, checkpoint, committed, applied) && end == CutEnd(checkpoint)
    requires !Stops(checkpoint, committed)
    ensures Archived(made + [(checkpoint, end)], start, end, committed, applied + 1)
    ensures applied < SegmentCount(start, committed)
  {
    CountStep(checkpoint, committed);
    OneMoreCut(made, start, checkpoint, end);
  }

  lemma AllArchived(made: seq<(nat, nat)>, start: nat, checkpoint: nat, committed: nat, applied: nat)
    requires Archived(made, start, checkpoint, committed, applied) && Stops(checkpoint, committed)
    ensures applied == SegmentCount(start, committed) && committed - checkpoint < SEGMENT_BYTES
  {
    CountStep(checkpoint, committed);
  }

  /** The pause after the first `used` turns. */
  ghost predicate Paced(backoff: nat, turns: seq<Turn>, used: nat)
    requires used <= |turns|
  {
    backoff == Pause(TrailingFailures(turns[..used]))
  }

  lemma PauseDoubles(failures: nat)
    ensures Doubled(Pause(failures)) == Pause(failures + 1)
  {
  }

  lemma OneMorePause(backoff: nat, turns: seq<Turn>, k: nat)
    requires k < |turns| && Paced(backoff, turns, k)
    ensures Paced(if turns[k].Succeeds? then FIRST_BACKOFF_MS else Doubled(backoff), turns, k + 1)
  {
    assert turns[..k + 1][..k] == turns[..k];
    PauseDoubles(TrailingFailures(turns[..k]));
  }

  lemma OneMoreTurn(turns: seq<Turn>, k: nat)
    requires k < |turns|
    ensures Applied(turns[..k + 1]) ==
            Applied(turns[..k]) + if turns[k].FailsAfterCheckpoint? || turns[k].Succeeds? then 1 else 0
  {
    assert turns[..k + 1][..k] == turns[..k];
  }

  /** No turn before `used` found all segments archived. */
  ghost predicate NotYet(turns: seq<Turn>, used: nat, total: nat) {
    forall k :: 0 <= k < used ==> !StopsAt(turns, k, total)
  }

  /** A turn that read the status: it finds all segments archived, or archives the next one. */
  method ArchiveTurn(made: seq<(nat, nat)>, ghost start: nat, checkpoint: nat, committed: nat, ghost applied: nat,
                     applies: bool)
    returns (stop: bool, made': seq<(nat, nat)>, checkpoint': nat)
    requires Archived(made, start, checkpoint, committed, applied)
    ensures stop ==> made' == made && checkpoint' == checkpoint && committed - checkpoint < SEGMENT_BYTES
    ensures stop <==> applied == SegmentCount(start, committed)
    ensures !stop ==> Archived(made', start, checkpoint', committed, if applies then applied + 1 else applied)
  {
    var end := CutEnd(checkpoint);
    stop, made', checkpoint' := end > committed || end <= checkpoint, made, checkpoint;
    if stop {
      AllArchived(made, start, checkpoint, committed, applied);
    } else {
      ArchivesOne(made, start, checkpoint, committed, applied, end);
      if applies { made', checkpoint' := made + [(checkpoint, end)], end; }
    }
  }

  /** The loop of `spawn_archive` against a fixed committed end, for any sequence of turns. It archives
      one segment for every turn that applies a checkpoint, in boundary cuts that tile [start, checkpoint),
      and stops at the first turn that reads the status once every complete segment is archived, with less
      than one segment left. So it does stop when more turns apply than there are segments. */
  method ArchiveLoop(start: nat, committed: nat, turns: seq<Turn>)
    returns (made: seq<(nat, nat)>, checkpoint: nat, backoff: nat, used: nat, stopped: bool)
    requires start <= committed <= U64_MAX
    ensures used <= |turns| && Archived(made, start, checkpoint, committed, Applied(turns[..used]))
    ensures if stopped then StopsAt(turns, used, SegmentCount(start, committed)) else used == |turns|
    ensures NotYet(turns, used, SegmentCount(start, committed))
    ensures stopped ==> |made| == SegmentCount(start, committed) && committed - checkpoint < SEGMENT_BYTES
    ensures Applied(turns) > SegmentCount(start, committed) ==> stopped
    ensures Paced(backoff, turns, used)
  {
    made, checkpoint, backoff, used, stopped := [], start, FIRST_BACKOFF_MS, 0, false;
    while used < |turns|
      invariant used <= |turns| && Archived(made, start, checkpoint, committed, Applied(turns[..used]))
      invariant NotYet(turns, used, SegmentCount(start, committed)) && Paced(backoff, turns, used)
    {
      var turn := turns[used];
      OneMoreTurn(turns, used);
      OneMorePause(backoff, turns, used);
      if !turn.StatusFails? {
        var applies := turn.FailsAfterCheckpoint? || turn.Succeeds?;
        stopped, made, checkpoint := ArchiveTurn(made, start, checkpoint, committed, Applied(turns[..used]), applies);
        if stopped { return; }
      }
      backoff := if turn.Succeeds? then FIRST_BACKOFF_MS else Doubled(backoff);
      used := used + 1;
    }
    assert turns[..|turns|] == turns;
  }
}
