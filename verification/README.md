# Verified core of verglas

A Dafny 4.11 model of the protocols at the centre of verglas, a write-back cache in front of object storage, with
proofs about every run of them. `dafny verify dfyconfig.toml` checks everything.

| component | files | what is proved |
|---|---|---|
| Group commit | `GroupCommit`, `GroupCommitRefinement`, `GroupCommitBatcher` | over every interleaving of callers, drains and groups: one drain per group, nothing stranded, entries partition the arrivals, exact waiting, refinement of an unbatched service |
| WAL timeline | `WalTimeline`, `WalSegmentCut`, `WalRuns`, `WalReads` | over every interleaving of appends, archivers, stop flushes, reclamation and readers: an answered read is exactly the committed bytes, archived segments tile the WAL, a successful stop flush leaves its whole tail served by objects |
| Backend resilience | `Breaker`, `BreakerLateProbes`, `BreakerWedge`, `BreakerObject`, `XorShift`, `RetryBackoff`, `RetryLoop`, `BackendBudget` | probe accounting, trip and recovery conditions over all runs, retry bounds, permit conservation under racing client construction |
| Voters, slots and fragments | `VoterIdentity`, `ElectionRanks`, `Utf8`, `FragmentCodec`, `UploadRelay` | hash steps are bijections, election windows are staggered, codec and decoder are mutual inverses, a live fragment is a complete upload |
| Space broker | `SpaceBroker` | no signal is lost, signalled space is conserved, the broker comes to rest drained |

`Basics` holds what they share. Concurrency is a state machine: each critical section, atomic operation or await point
is one step, a run is any legal sequence of steps, and the theorems quantify over all runs. The batcher, the breaker and
the broker's cells are also classes, whose methods are proved equal to the steps the runs are made of; `BackendStore`,
`Backoff` and `PayloadPeers` are classes proved against contracts of their own.

Findings about the code:

- The comment that a late probe outcome is ignored (breaker.rs:227) does not hold: a ticket has no round number. Over the
  runs of a valid policy late outcomes are never counted if and only if one probe is allowed
  (`BreakerLateProbes.LateProbesIgnoredIff`, with a run that counts one).
- A half-open breaker with its probe budget spent rejects at any clock reading until a probe ticket is recorded
  (`Breaker.WedgedUntilProbeRecorded`). Every valid policy has a run that comes to that (`BreakerWedge.EveryPolicyWedges`),
  and the outcome of any probe ends it (`BreakerWedge.ProbeOutcomeEndsWedge`).
- At a committed end of 2^64 - 1 the archive loop archives one segment more than there are boundaries, because its end
  saturates (`WalSegmentCut.ArchiveLoop`, `WalSegmentCut.SegmentCount`).
- `set_payload_voters` gives every voter its rank as slot if and only if the list is ascending
  (`ElectionRanks.EnumerateRanksIff`); `canonical_payload_peers` sorts first and always does.
- A group name of 2^32 bytes or more does not survive the fragment codec, a shorter one always does
  (`FragmentCodec.RoundTripIff`).
- An upload reported as failed has placed its fragment if and only if the failure struck at or after the rename: the
  directory barrier failed, or the worker died before it was done (`UploadRelay.FailureAndPlacement`, with a run that ends
  so in `UploadRelay.FailedButLive`).
- The broker finds what was signalled since its last swap modulo 2^64 (`SpaceBroker.PendingIsSinceTaken`), so signalled
  bytes vanish if and only if 2^64 or more were once signalled between two swaps (`SpaceBroker.NothingVanishesIff`).

## Model

| member | source | states |
|---|---|---|
| `GroupCommit.OneDrainPerGroup` | bins/cache-node/src/object_batch.rs:53-62 | after every run, `draining` is set exactly while one task owns the group, two owners are the same task, and a non-empty queue has an owner |
| `GroupCommit.EntriesPartitionArrivals` | bins/cache-node/src/object_batch.rs:88-167 | after every run, answered batches in order, then the batch in flight, then the queue, are exactly the arrivals; each batch holds 1 to max_batch |
| `GroupCommit.ArrivalsAreCommits` | bins/cache-node/src/object_batch.rs:88-106 | after every run a group's arrivals are exactly the objects its commit calls carried, in order |
| `GroupCommit.ReplyIsItsEntrys` | bins/cache-node/src/object_batch.rs:163-165 | an answered caller's reply is the outcome of the one entry that carried its object |
| `GroupCommit.NeverStranded` | bins/cache-node/src/object_batch.rs:133-154 | while anyone waits, a drain step of that group is enabled; with none enabled the group is idle and every remaining caller answered |
| `GroupCommit.DrainFinishes` | bins/cache-node/src/object_batch.rs:136-167 | without new arrivals a group's drain ends within a bounded number of its own steps, whatever other groups do |
| `GroupCommit.MovesUp` | bins/cache-node/src/object_batch.rs:151-153 | a queued commit moves up by exactly max_batch per take of its group, and is never overtaken |
| `GroupCommit.LeavesInItsTake` | bins/cache-node/src/object_batch.rs:136-154 | a commit with p ahead of it leaves in exactly the (p / max_batch + 1)-th take, at offset p % max_batch |
| `GroupCommit.StepKeeps` | bins/cache-node/src/object_batch.rs:88-167 | every step of every task keeps ownership, order, batch sizes and replies of every group |
| `GroupCommitRefinement.ActionRefines` | bins/cache-node/src/object_batch.rs:19-21 | one batcher step is a sequence of steps of a service that commits one object per entry |
| `GroupCommitRefinement.RunRefines` | bins/cache-node/src/object_batch.rs:19-21 | for every batcher run and group, its arrivals, decisions, replies and departures in the order of the run are a run of that service to the same arrivals, decisions and answers |
| `GroupCommitBatcher.ObjectCommitBatcher.constructor` | bins/cache-node/src/object_batch.rs:77-83 | the cap is at least 1 and no group exists |
| `GroupCommitBatcher.ObjectCommitBatcher.Push` | bins/cache-node/src/object_batch.rs:94-106 | the object joins its group's queue; the caller drains exactly if the group was idle |
| `GroupCommitBatcher.ObjectCommitBatcher.Pull` | bins/cache-node/src/object_batch.rs:143-154 | takes the longest allowed prefix, or clears the flag on an empty queue, or finds no group |
| `GroupCommitBatcher.ObjectCommitBatcher.DrainGroup` | bins/cache-node/src/object_batch.rs:136-167 | with commits arriving during entries: all leave in arrival order in legal batches, each answered by its own entry, the group ends idle, other groups are untouched |
| `WalTimeline.RetainedReadIsExact` | crates/verglas-consensus/src/group.rs:1202-1285 | a retained read that answers gives exactly the committed bytes |
| `WalTimeline.RetainedReadAnswers` | crates/verglas-consensus/src/group.rs:1202-1285 | every range from the checkpoint to the committed end is answered from retained headers |
| `WalTimeline.ArchivedReadIsExact` | crates/verglas-safekeeper/src/segment_archiver.rs:83-118 | whatever the store hands back, an archived read is the committed bytes unless an object is a same-hash forgery |
| `WalTimeline.ArchivedReadAnswers` | crates/verglas-safekeeper/src/segment_archiver.rs:83-118 | an intact store answers every range within the archive |
| `WalTimeline.ComposeIsExact` | bins/cache-node/src/safekeeper.rs:645-692 | archived prefix plus retained tail is exactly the committed range |
| `WalTimeline.ManifestTiles` | crates/verglas-consensus/src/raft_store.rs:458-485 | a well-kept timeline's manifest is never refused and names only committed bytes |
| `WalTimeline.ReadWalIsExact` | bins/cache-node/src/safekeeper.rs:645-692 | with an intact store a read answers exactly the ranges within committed WAL, with their bytes |
| `WalTimeline.OpenKeeps` | crates/verglas-consensus/src/raft_store.rs:687-694 | opening or reopening keeps the timeline invariant and its history |
| `WalTimeline.AppendKeeps` | crates/verglas-consensus/src/raft_store.rs:712-726 | an append keeps the timeline invariant and its history |
| `WalRuns.TimelineIsWritten` | crates/verglas-consensus/src/raft_store.rs:687-726 | after every run the timeline holds exactly what the steps wrote: opened where the first opening said, then every body appended at its end, in order |
| `WalTimeline.CheckpointTiles` | crates/verglas-consensus/src/raft_store.rs:727-744 | whatever hash it names, a checkpoint moves the watermark exactly when it continues the archive within committed WAL, and segments go on tiling |
| `WalTimeline.CheckpointKeeps` | crates/verglas-consensus/src/raft_store.rs:727-744 | for any checkpoint, the timeline stays readable exactly if an accepted one names the hash of the committed bytes |
| `WalTimeline.ReleasePayloadKeeps` | crates/verglas-consensus/src/raft_store.rs:391-412 | exactly checkpoint-covered payloads are reclaimed, and no committed byte is lost |
| `WalTimeline.ReleaseWalKeeps` | crates/verglas-consensus/src/raft_store.rs:887-894 | a release is a storage error exactly beyond the checkpoint; otherwise it drops exactly the covered WAL headers and the rest still tiles up to the committed end |
| `WalSegmentCut.CutAtBoundary` | bins/cache-node/src/safekeeper.rs:767-771 | a cut ends on the next 16 MiB boundary, except in the last segment of the address space, where it saturates |
| `WalSegmentCut.SegmentIs` | bins/cache-node/src/safekeeper.rs:34 | cuts are 16,777,216 bytes apart |
| `WalSegmentCut.PausesAre` | bins/cache-node/src/safekeeper.rs:745-790 | the pauses are 250 ms doubling to 16 s, then 30 s |
| `WalSegmentCut.CountStep` | bins/cache-node/src/safekeeper.rs:766-774 | the loop stops exactly when no segment is left to count, with less than one segment remaining |
| `WalSegmentCut.ArchiveLoop` | bins/cache-node/src/safekeeper.rs:744-791 | for any failures: one boundary cut per turn that applies a checkpoint, tiling [start, checkpoint); it stops at the first status read after exactly SegmentCount of them, with less than a segment left, and must stop if more turns apply; the pause doubles from 250 ms to 30 s per failure in a row |
| `WalRuns.RunKeeps` | bins/cache-node/src/safekeeper.rs:645-870 | every interleaving of commands, archivers and readers keeps the timeline, the objects and what each task holds |
| `WalRuns.ConcurrentReadIsExact` | bins/cache-node/src/safekeeper.rs:645-692 | an answer assembled from separate looks at a moving timeline is exactly the bytes the steps wrote at its range, unless the store forged an object |
| `WalRuns.HonestReadIsExact` | bins/cache-node/src/safekeeper.rs:645-692 | with objects the run's archivers uploaded, it is exact without condition |
| `WalRuns.EveryCommittedRangeIsReadable` | crates/verglas-consensus/src/group.rs:677-717 | after every run, exactly the ranges the steps wrote can be read, with exactly the bytes they wrote |
| `WalRuns.ArchiveTilesTheWal` | bins/cache-node/src/safekeeper.rs:744-791 | after every run, archived segments tile [first, checkpoint) and loop-made ones end on a boundary and cross none |
| `WalRuns.HistoryOnlyGrows` | crates/verglas-consensus/src/group.rs:592-625 | committed bytes never change and nothing is un-archived |
| `WalRuns.FlushCoversTheTail` | bins/cache-node/src/safekeeper.rs:820-870 | over every run, from the moment a stop flush succeeds on, the committed end it read when it began is archived and the objects alone serve exactly the committed bytes of every range below it |
| `WalRuns.NeverHalts` | crates/verglas-consensus/src/group.rs:613-622 | no run releases beyond the checkpoint, so the state machine never stops |
| `WalReads.ReadWalAfterFence` | crates/verglas-consensus/src/group.rs:1202-1285 | the scan loop computes the retained read |
| `WalReads.ArchivedWalSegments` | crates/verglas-consensus/src/raft_store.rs:458-485 | the chain check returns the manifest exactly when the chain is contiguous up to the watermark |
| `WalReads.ReadArchivedWalPrefix` | crates/verglas-safekeeper/src/segment_archiver.rs:83-118 | the scan loop computes the archived read, refusing an object whose length or hash differs |
| `WalReads.ComposedWalRead` | bins/cache-node/src/safekeeper.rs:645-692 | the composed read answers exactly the committed ranges of a well-kept timeline with their bytes |
| `Breaker.ProbeAccounting` | crates/verglas-backend/src/breaker.rs:189-243 | over all runs, in_flight is at most max(1, probes) and at most the round's unrecorded tickets, which exceed it by at most those left from earlier rounds |
| `Breaker.RejectionHasProbeOutstanding` | crates/verglas-backend/src/breaker.rs:206-214 | a half-open rejection has a probe of the same round still to be recorded |
| `Breaker.WedgedUntilProbeRecorded` | crates/verglas-backend/src/breaker.rs:206-243 | with the budget spent every admission is rejected until a probe is recorded |
| `BreakerWedge.EveryPolicyWedges` | crates/verglas-backend/src/breaker.rs:206-214 | every valid policy has a run after which every admission is rejected, at any clock reading |
| `BreakerWedge.ProbeOutcomeEndsWedge` | crates/verglas-backend/src/breaker.rs:223-243 | from there, the outcome of any outstanding probe makes the breaker admit again, after a failure once the cooldown is over |
| `Breaker.WindowIsRecentOutcomes` | crates/verglas-backend/src/breaker.rs:244-257 | over all runs, the window is the last min_samples non-probe outcomes since Closed was entered, and empty elsewhere |
| `Breaker.FailuresCount` | crates/verglas-backend/src/breaker.rs:251 | the count is the number of failed outcomes in the window |
| `Breaker.ReachesIsQuotient` | crates/verglas-backend/src/breaker.rs:252-253 | the threshold test is the quotient of failures and samples compared with the rate |
| `Breaker.ClosedTripsExactly` | crates/verglas-backend/src/breaker.rs:244-257 | Closed opens exactly on a recorded outcome after which the failed share of the last min_samples outcomes is at least the rate |
| `Breaker.OpensIff` | crates/verglas-backend/src/breaker.rs:223-268 | over all runs the breaker opens exactly so from Closed, or when a probe fails while half-open |
| `Breaker.HalfOpensIff` | crates/verglas-backend/src/breaker.rs:193-204 | a round begins exactly when an admission reads the deadline |
| `Breaker.ClosesIff` | crates/verglas-backend/src/breaker.rs:226-243 | the breaker closes exactly when a success makes the round's successes max(1, probes) |
| `Breaker.CountersCount` | crates/verglas-backend/src/breaker.rs:189-268 | trips and rejections count exactly the entries to Open and the rejected admissions |
| `Breaker.ShedsUntilCooldown` | crates/verglas-backend/src/breaker.rs:193-204 | after a trip at t nothing is admitted until an admission reads at least t + cooldown |
| `Breaker.HalfOpenIsARound` | crates/verglas-backend/src/breaker.rs:223-243 | a half-open state is a round opened from Open whose recorded probes all succeeded, as many as it counts |
| `Breaker.ClosesAfterFullRound` | crates/verglas-backend/src/breaker.rs:223-243 | every return to Closed follows exactly max(1, probes) probe outcomes of one round, all successes |
| `BreakerLateProbes.LateProbeRun` | crates/verglas-backend/src/breaker.rs:227 | for any valid policy with two or more probes, a run in which a probe of one round is counted in the next |
| `BreakerLateProbes.LateProbesIgnoredIff` | crates/verglas-backend/src/breaker.rs:227 | over all runs of a valid policy, late probes are never counted if and only if one probe is allowed |
| `BreakerObject.CircuitBreaker.Admit` | crates/verglas-backend/src/breaker.rs:189-216 | the method on the shared fields is the admission step of the runs |
| `BreakerObject.CircuitBreaker.Record` | crates/verglas-backend/src/breaker.rs:223-258 | the method on the shared fields is the recording step of the runs |
| `BreakerObject.CircuitBreaker.Push` | crates/verglas-backend/src/breaker.rs:246-249 | the popping loop leaves exactly the last min_samples outcomes |
| `BreakerObject.CircuitBreaker.CountFailures` | crates/verglas-backend/src/breaker.rs:251 | counts exactly the failed outcomes of the window |
| `XorShift.NextIsInvertible` | crates/verglas-backend/src/retry.rs:123-130 | a 64-bit generator step has an inverse, so it is injective and never reaches zero from non-zero |
| `XorShift.DrawsStayApart` | crates/verglas-backend/src/retry.rs:107-130 | over any number of draws the state stays non-zero and different seeds never meet |
| `XorShift.Top53Divides` | crates/verglas-backend/src/retry.rs:123-130 | the numerator is the state's number divided by 2^11 |
| `XorShift.NextOfOne` | crates/verglas-backend/src/retry.rs:123-130 | the first two values of the 13, 7, 17 generator from 1 |
| `XorShift.Draw` | crates/verglas-backend/src/retry.rs:123-130 | a draw is the next state and a numerator below 2^53 |
| `RetryBackoff.NthDelay` | crates/verglas-backend/src/retry.rs:133-139 | whatever is drawn, the n-th delay lies between the initial delay and its cap |
| `RetryBackoff.CapInPowers` | crates/verglas-backend/src/retry.rs:133-139 | that cap is min(max, initial * 2^n) when initial is at most max |
| `RetryBackoff.CapIsTight` | crates/verglas-backend/src/retry.rs:133-139 | whatever lies below that cap, some draws give a longer n-th delay |
| `RetryBackoff.DelayIs` | crates/verglas-backend/src/retry.rs:134-138 | the delay is initial + u * (max(initial, min(max, 2 * prev)) - initial) |
| `RetryBackoff.DelayIncreases` | crates/verglas-backend/src/retry.rs:134-138 | a larger fraction gives a longer delay whenever there is a range to draw from |
| `RetryBackoff.Backoff.constructor` | crates/verglas-backend/src/retry.rs:109-120 | starts from the initial delay with an odd state |
| `RetryBackoff.Backoff.DrawUnit` | crates/verglas-backend/src/retry.rs:123-130 | a value in [0, 1) from the top 53 bits of the next state, which stays non-zero |
| `RetryBackoff.Backoff.Next` | crates/verglas-backend/src/retry.rs:133-139 | the next delay is the schedule's for the drawn fraction, drawn up to twice the previous one below the ceiling, and is remembered |
| `RetryLoop.RetryGeneric` | crates/verglas-backend/src/resilience.rs:176-213 | for any outcomes and clock: at most max_retries + 1 attempts, the last attempt's own result, one counted retry per sleep, sleeps within hint, schedule and total budget, only the last one cut short, and when it may give up |
| `RetryLoop.Pause` | crates/verglas-backend/src/resilience.rs:197-207 | gives up or sleeps: the pause is the hint or the next delay cut to the rest of the budget, and when it may be none |
| `RetryLoop.GuardGeneric` | crates/verglas-backend/src/resilience.rs:145-170 | a shed request runs nothing and records nothing; an admitted one records exactly one outcome for its own ticket, healthy iff success or terminal error, whatever others do meanwhile |
| `BackendBudget.OneBudgetPerBucket` | crates/verglas-backend/src/lib.rs:638-657 | over every race, callers that succeed share clients, semaphore and breaker exactly when they named the same bucket |
| `BackendBudget.PermitsAreConserved` | crates/verglas-backend/src/limit.rs:65-108 | at every moment a bucket's free permits plus its typed, raw and listing requests in flight or streaming equal the limit |
| `BackendBudget.WaitersHoldNothing` | crates/verglas-backend/src/resilience.rs:172-213 | a waiting or backing-off request holds no permit, and a blocked one is unblocked by the ordinary completion of a holder |
| `BackendBudget.BucketsAreIsolated` | crates/verglas-backend/src/lib.rs:368-404 | a request never moves another bucket's permits |
| `BackendBudget.PermitFollowsMoves` | crates/verglas-backend/src/resilience.rs:172-213 | over every run a request holds a permit exactly between acquiring it and its final answer, retry, drained body or drop, so a retry must acquire again |
| `BackendBudget.ShedNeverHolds` | crates/verglas-backend/src/resilience.rs:157-160 | a shed request never holds a permit, to the end of any run |
| `BackendBudget.BackoffReturns` | crates/verglas-backend/src/resilience.rs:200-210 | a request in backoff wakes and, with a permit free, is in flight again |
| `BackendBudget.BackendStore.GetOrBuild` | crates/verglas-backend/src/lib.rs:638-657 | an unserved bucket is refused, a memoized entry is never replaced, a racer's entry wins, a failed build is not memoized |
| `VoterIdentity.StepIsBijective` | bins/cache-node/src/ring.rs:460-466 | an FNV-1a step with a known byte is a bijection on 64-bit states |
| `VoterIdentity.PublishedVectors` | bins/cache-node/src/ring.rs:460-466 | the published FNV-1a values of the empty name, "a", "b" and "fo" |
| `VoterIdentity.FoldStaysApart` | bins/cache-node/src/consensus.rs:73-77 | reading the same bytes keeps different states different |
| `VoterIdentity.OneByteApartNeverCollide` | bins/cache-node/src/ring.rs:460-466 | names of equal length that differ in exactly one byte never share a voter id |
| `VoterIdentity.FleetNamesAreTellable` | bins/cache-node/src/ring.rs:187-192 | a voter id validates at most one of the names that differ in one place |
| `ElectionRanks.RaftConfig` | bins/cache-node/src/consensus.rs:85-113 | refused exactly for repeated voters, an unlisted local node or 64-bit overflow; otherwise the window of the node's rank |
| `ElectionRanks.WindowsAreStaggered` | bins/cache-node/src/consensus.rs:59-70 | for voters in any order, windows follow the ids and are at least 500 ms apart |
| `ElectionRanks.TimesAre` | bins/cache-node/src/consensus.rs:59-70 | heartbeat 250 ms, windows from 1000 + 750 rank to 1250 + 750 rank ms |
| `ElectionRanks.EarliestSurvivor` | bins/cache-node/src/consensus.rs:59-70 | after any f lost voters some survivor campaigns alone first, its window over by 1250 + 750 f ms |
| `ElectionRanks.PositionIsRank` | bins/cache-node/src/consensus.rs:85-113 | in ascending order a voter's position is the number of smaller ids |
| `ElectionRanks.EnumerateRanksIff` | bins/cache-node/src/ring.rs:170-184 | enumerating distinct voters gives each its rank if and only if the list ascends |
| `ElectionRanks.CanonicalSlotsAreRanks` | bins/cache-node/src/ring.rs:475-493 | sorting first makes every slot a rank, in any input order |
| `ElectionRanks.PayloadPeers.constructor` | bins/cache-node/src/ring.rs:482-493 | every voter has the node named last for it, its own when ids are distinct, and then its rank as slot |
| `ElectionRanks.PayloadPeers.SetPayloadVoters` | bins/cache-node/src/ring.rs:170-184 | refused unchanged when a voter has no node; otherwise slots follow the list; nodes never change |
| `FragmentCodec.Encode` | bins/cache-node/src/ring.rs:515-530 | the buffer is the concatenation of the layout's fields |
| `FragmentCodec.BigEndian` | bins/cache-node/src/ring.rs:517-529 | byte i of a w-byte number is its digit of weight 256^(w - 1 - i) |
| `FragmentCodec.NumbersOnTheWire` | bins/cache-node/src/ring.rs:517-529 | where each number of an encoding lies, most significant byte first |
| `FragmentCodec.RestOnTheWire` | bins/cache-node/src/ring.rs:515-530 | where name, hash and shard lie, and the mode byte is 0 exactly for coded and 1 exactly for complete |
| `Utf8.ValidUtf8Iff` | bins/cache-node/src/ring.rs:650-651 | a name is accepted as text if and only if it spells out Unicode scalar values |
| `FragmentCodec.DecodeEncoded` | bins/cache-node/src/ring.rs:632-704 | decoding an encoding gives the representation back for its own hash and refuses any other hash |
| `FragmentCodec.RoundTripIff` | bins/cache-node/src/ring.rs:515-530 | the round trip holds if and only if the group name is shorter than 2^32 bytes |
| `FragmentCodec.AcceptedIsEncoding` | bins/cache-node/src/ring.rs:632-704 | every accepted byte string is healthy, names the expected hash and is the encoding of its result |
| `FragmentCodec.AcceptedIff` | bins/cache-node/src/ring.rs:632-704 | for arbitrary bytes, exactly the encodings are accepted |
| `FragmentCodec.EncodingIsInjective` | bins/cache-node/src/ring.rs:515-530 | different representations have different encodings |
| `UploadRelay.MoveKeeps` | bins/cache-node/src/ring.rs:900-975 | every move of relay or worker accounts for each pulled byte in file, channel or hand |
| `UploadRelay.PulledIsDelivered` | bins/cache-node/src/ring.rs:941-959 | after every run an upload has pulled exactly the shards its body delivered, and knows how it ended |
| `UploadRelay.LiveIsACompleteUpload` | bins/cache-node/src/ring.rs:900-966 | over every interleaving of any uploads, a live fragment is exactly the shards one error-free ended body of that key delivered, in order |
| `UploadRelay.PlacedStaysLive` | crates/verglas-cluster/src/fragments.rs:603-618 | what an upload renamed is live under its key until a removal or another rename onto that key |
| `UploadRelay.SuccessIsDurable` | bins/cache-node/src/ring.rs:897-899 | success is reported only after rename and directory barrier, and the fragment placed holds the whole body and is live until removed or replaced |
| `UploadRelay.UnfinishedNeverLive` | bins/cache-node/src/ring.rs:886-888 | a body that failed or has not ended places nothing and is never reported stored |
| `UploadRelay.FailureAndPlacement` | crates/verglas-cluster/src/fragments.rs:584-623 | over all runs, a reported failure placed the fragment if and only if the barrier failed or the worker died between rename and barrier |
| `UploadRelay.FailedButLive` | crates/verglas-cluster/src/fragments.rs:610-622 | a run that reports a failed barrier for a live fragment |
| `UploadRelay.ChannelIsBounded` | bins/cache-node/src/ring.rs:920-924 | never more than four messages are buffered |
| `UploadRelay.NeverStuck` | bins/cache-node/src/ring.rs:925-966 | an upload that neither waits for its body nor is done has a move of its own |
| `UploadRelay.CompletedUploadIsStored` | bins/cache-node/src/ring.rs:960-966 | left to itself, an upload whose body ended is stored and reported so |
| `UploadRelay.CancelledWorkerStops` | bins/cache-node/src/ring.rs:925-939 | a cancelled upload's worker stops by itself |
| `UploadRelay.WorkerLoop` | bins/cache-node/src/ring.rs:925-939 | the worker commits exactly when it could append every shard before the completion, and holds exactly those bytes |
| `SpaceBroker.NoSignalLost` | bins/cache-node/src/serve.rs:343-405 | a pending counter has a stored wake-up, a signaller of its kind about to notify, or a broker before this round's swap of it |
| `SpaceBroker.SignalsAreConserved` | bins/cache-node/src/serve.rs:343-405 | the sum of the signals equals taken plus pending plus one word per wrapped addition |
| `SpaceBroker.PendingIsSinceTaken` | bins/cache-node/src/serve.rs:348-371 | in every run a counter holds what was signalled since its last swap, modulo 2^64 |
| `SpaceBroker.NothingVanishesIff` | bins/cache-node/src/serve.rs:348-360 | for either kind, taken plus pending is everything signalled if and only if fewer than 2^64 bytes were ever signalled between two swaps |
| `SpaceBroker.WrappedSignalsVanish` | bins/cache-node/src/serve.rs:348-351 | two signals of either kind that make a whole word leave nothing pending |
| `SpaceBroker.ReclaimsCoverDemand` | bins/cache-node/src/serve.rs:371-376 | below one word, the cache is asked for exactly the demand taken plus one floor per round that found demand |
| `SpaceBroker.StretchesWithoutSignalsEnd` | bins/cache-node/src/serve.rs:368-405 | in any order, steps between signals are bounded in number |
| `SpaceBroker.RestIsDrained` | bins/cache-node/src/serve.rs:368-405 | at rest both counters are empty, all signalled bytes were taken, the cache was asked to shrink or grow if anything was, and the ceiling is newer than the last moved space |
| `SpaceBroker.CeilingIsLatest` | bins/cache-node/src/serve.rs:362-404 | the ceiling always is the saturated sum of the readings last published |
| `SpaceBroker.Cells.OnShortfall` | bins/cache-node/src/serve.rs:348-351 | the handler on the cells is the signal and notify steps of the runs |
| `SpaceBroker.Cells.OnRelease` | bins/cache-node/src/serve.rs:357-360 | the same for released bytes |
| `SpaceBroker.Cells.Round` | bins/cache-node/src/serve.rs:371-404 | a round on the cells is the two swaps and the publication of the runs, and asks for exactly what they record |

## Left out

- OpenRaft, membership changes and leader election itself: a committed command is one step.
- Writer epochs and leases: only commands that pass those checks are steps. Of retry deduplication only a repeated
  archive checkpoint is modelled.
- The erasure codec, payload certificates and repair: a retained payload is its bytes, and SHA-256 is any digest function.
- Dropped archive triggers and the in-flight set of the archiver: no claim that every append is archived.
- A submitter that panics, and futures dropped between admission and recording: such a ticket is never recorded.
- Floating point in the failure ratio and in delays: exact reals instead, with the 53-bit numerator kept exact.
- 64-bit overflow of the breaker's deadline, and 32-bit overflow of its counters.
- Relaxed memory ordering: atomic operations are interleaved.
- Agreement of slots between nodes after a voter is replaced.
- `delete_stream` and part uploads through multipart handles, which bypass the limiter by design.
- ElectionRanks.RaftConfig: leaves out OpenRaft's own validation of the result, beyond heartbeat < minimum < maximum.
- Fragment keys, the CRC-32C trailer and the byte ledger of the fragment store: a live fragment is its payload.
- GroupCommitBatcher.ObjectCommitBatcher.DrainGroup: the arrivals during each entry are given in advance; all interleavings are in the runs.
- BackendBudget.BackendStore.GetOrBuild: racing callers are one batch of insertions; all races are in the runs.
- SpaceBroker.Cells.Round: an undisturbed round; all interleavings with signals are in the runs.
- NBD framing, command line, workers, dashboards, TLS, admin routes, credentials, metrics and logging.
