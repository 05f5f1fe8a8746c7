# tallyd: a verified model of its durability core

tallyd accepts billing events over HTTP or gRPC, makes them durable, and forwards each to the providers
it is routed to, at least once. This project models the parts that make "at least once" true, and proves
what they promise: the write-ahead log with its group commit, rotation, in-order garbage collection and
replay; the byte frames it is made of; the per-provider batcher with its retries; the dead-letter queue
with its poison files; dead-letter replay; the ingest path in front of them; and the whole daemon as a
transition system with failures and crashes anywhere.

Two layers run through it. The operations that the program performs by changing fields are imperative
(`Wal.WAL`, `Dlq.DLQ`, `Dispatch.Dispatcher`, `Sink.WalDispatchSink`, `Ingest.Receiver`,
`DlqReplay.Handler`, the codec loops of `Frames`, the loops of `Batcher`). Each method is proved equal to
a function on values (`WalState`, `DlqState`, `Frames.Decode`, `Batcher.AllEffects`,
`Dispatch.Enqueued`), and the theorems are about those functions and about whole runs of them. Every
outcome of I/O (each write, sync, close, create, rename) is a parameter chosen by the environment.

| file | what it holds |
|---|---|
| `WalLog.dfy` | the meaning of a log: a fold of its records into the set of unresolved entries, characterised without the fold |
| `WalState.dfy`, `WalInvariant.dfy` | the log as a state machine, and what every operation keeps, faults included |
| `WalRefinement.dfy` | the in-memory index is the replay of what is on disk and was not answered with an error, over whole runs |
| `WalReplies.dfy` | what becomes of each request of a batch, and exactly when it is answered nil |
| `WalClosed.dfy` | when a failed rotation leaves the log without a file to write to, and for how long |
| `WalDurability.dfy`, `WalBytes.dfy` | what a nil reply buys, first for frames, then for a crash at any byte |
| `WalGroupCommit.dfy` | how requests are grouped into batches does not matter |
| `SoftCap.dfy` | the size cap, with its slack made exact |
| `Frames.dfy` | encoding and decoding of frames, torn tails |
| `Wal.dfy` | the log as the program runs it |
| `DlqState.dfy`, `DlqInvariant.dfy`, `Dlq.dfy` | the dead-letter queue |
| `Batcher.dfy` | the queue loop, one flush, back-off |
| `Ingest.dfy`, `Sink.dfy`, `Dispatch.dfy`, `DlqReplay.dfy` | the ways into the log |
| `DlqReplayRaces.dfy` | dead-letter replay while the rest of the daemon goes on |
| `Pipeline.dfy`, `PipelineParts.dfy` | the daemon end to end, and how the components do its steps |
| `Types.dfy`, `Seqs.dfy` | shared vocabulary and sequence facts |

## What is assumed of the environment

- A failed segment write leaves no bytes, and a successful sync makes everything written to that file so
  far durable. A successful create or remove of a segment file is durable. Runtime garbage collection
  ignores removal errors; removal is taken to succeed.
- A process can stop anywhere: between commits, after any of the writes of one, inside a rotation, before
  or after the final sync, between two deletions of the collection, or during startup. The next one finds
  every segment but the active one whole, and of that at least the synced frames. After a power loss what
  it finds is on stable storage; after the death of the process alone it finds everything, synced or not.
- `WalBytes` cuts the active file at any byte. Runs that go on after the restart (`WalRefinement`,
  `WalDurability`, `Pipeline`) reopen it at the end of a whole frame, because reopening does not truncate
  a torn tail (see below).
- The checksum is an arbitrary function. The payload codec is arbitrary except that it round-trips.
- Dead-letter files are appended to line by line and replaced whole. A failed write leaves no line; a line
  whose sync failed is on file, and stays there over restarts.
- In `Pipeline`, a re-append of an id names at least the providers still owed an answer (`AppendsOk`),
  no two providers are named x and x.poison (`DlqInvariant.Apart`), and restarts are safe for the ids that
  something is owed for (`SafeRestart`): the active segment has no event record of the id, or a synced one.
  After a power loss that is always so (`WalDurability.PowerLossIsSafe`).

## Where the code falls short of its own words

Each of these is a theorem that says exactly when the promise holds, or a concrete run in which it does
not, or both.

- Reopening does not sync. After the death of the process alone, startup collection may delete the synced
  event record of an accepted event in favour of a later one that no sync has covered, and a power loss
  then takes the event: `WalDurability.UnsyncedRetryLosesEvent`. A restart keeps an accepted pair durably
  pending if and only if the active segment has no event record of the id, or a synced one:
  `WalDurability.RestartKeepsHeldExactly`.
- Reopening a log whose last frame was torn appends behind the torn bytes. The records appended then are
  found by the next replay if and only if their bytes are a prefix of the torn bytes followed by
  themselves: `WalBytes.AppendsAfterTornTail`. `WalBytes.NilReplyLostBehindTornTail` is an append that is
  written, synced, answered nil, and lost if and only if the torn bytes leave room for it in the segment.
- A record can be written and answered with an error, and is then on disk and not in the index. In every
  run the index is the replay of the disk without the records answered with an error since the last start:
  `WalRefinement.IndexIsToldReplay`. A state in which it is not the replay of the whole disk:
  `WalDurability.FailedSyncBreaksRefinement`.
- A rotation that closes the active segment and cannot create the next leaves a log that answers every
  request with an error until the next restart, and nothing else does: `WalClosed.OpenExactly`,
  `WalClosed.ClosedUntilRestart`.
- The size cap is said to be slightly exceeded at the boundary. It is exceeded by up to one frame less than
  overlap, and by acknowledgements, which are not checked at all: `SoftCap.SoftCapExact`,
  `SoftCap.CapIsReached`. The bytes on disk are only bounded by one such allowance per process, since startup
  counts the active file alone: `SoftCap.OpenSums`.
- A frame of length zero whose checksum is that of the empty string makes decoding index an empty slice,
  although a bad tail is said to be dropped silently: `Frames.PanicsExactly`.
- A dead-letter is acknowledged even if recording it failed. The acknowledgement is backed by a record if
  and only if the line is written and, for a record that reaches its threshold, the purge before it
  replaces what it has to: `Pipeline.DeadLetterJustified`. Otherwise the pair can end neither delivered nor
  parked nor pending: `PipelineParts.FailedPutLosesPair`.
- Dead-letter replay re-appends an event for one provider, which replaces its entry. Pairs still pending
  for other providers survive if and only if there are none: `DlqReplay.ReplayDropsOtherProviders`.
- Its final removal is by id, so a record put between the append and the removal is deleted too. Once the
  removal has gone through, a replayed event is safe if and only if no record committed since the last
  append of it for the provider answers the pair, or supersedes that append without naming the provider:
  `DlqReplayRaces.ReplaySafeExactly`. `DlqReplayRaces.FastFailureLosesEvent` is a run in which one does.
- A put or a removal that fails half way can leave the depth or the attempt counter wrong until the next
  restart: `DlqInvariant.PutDepth`, `DlqInvariant.RemoveDepth` and `DlqInvariant.PutAttempts` give the
  exact conditions.
- Two providers named x and x.poison share a file (`DlqInvariant.PathsCollide`), and no others do. The two
  files of each provider stay disjoint in every run if and only if there is no such pair among the
  providers: `DlqInvariant.OneHomeIffApart`, `DlqInvariant.PoisonSuffixBreaksHomes`.
- Opening is said to reconstruct depth and attempt counts. It does so for a provider if and only if its name
  does not end in .poison or its regular file is empty: `DlqInvariant.ReopenRebuildsExactly`. A lone provider
  called x.poison is enough to see it fail: `DlqInvariant.LoneNameForgotten`.
- The back-off doubles a 64-bit duration; it is the stated power, capped, for all attempts if and only if no
  doubling below the cap leaves 63 bits: `Batcher.BackoffClosedForm`. Otherwise the generator panics.
- The comment on garbage collection speaks of an event record that survives in a later segment than its
  ack. Log order, and the repository's own test of this rule, make it an older one:
  `WalLog.DroppingMiddleResurrects` follows the code.
- A routing rule with an empty event name is documented never to match. It is chosen if and only if the
  event's name is empty and no earlier rule has an empty name; only validation keeps such events out:
  `Ingest.NamelessRule`.

## Model

| member | source | states |
|---|---|---|
| WalLog.ReplayEntry | internal/wal/wal.go:161-183 | an entry recovered by replay is the last event record of its id, at that record's segment, and its pending set is exactly the providers named there with no later ack |
| WalLog.ReplayOwes | internal/wal/wal.go:161-183 | a pair is pending after replay if and only if the last event record of the id names the provider and no ack of the pair follows it |
| WalLog.ReplaySuffix | internal/wal/wal.go:192-220 | replaying only the later segments yields exactly the entries whose event record lies in them, whatever was in the deleted front |
| WalLog.DroppingFrontKeepsMeaning | internal/wal/wal.go:501-530 | deleting a prefix of segments keeps the replayed index if and only if no unresolved entry's event record is in it |
| WalLog.DroppingMiddleResurrects | internal/wal/wal.go:506-514 | with three segments, deleting an unreferenced middle one brings a resolved event back, while nothing unresolved was written in it |
| WalInvariant.ApplyOneInv | internal/wal/wal.go:265-282 | applying a durable record moves exactly the references the index moves: counts stay exact, files are untouched, and the index changes as replay would change it |
| WalInvariant.WriteAllInv | internal/wal/wal.go:421-441 | the write loop, with any faults, keeps the invariant and the index, and every successful write is in a segment that is present |
| WalInvariant.GcInv | internal/wal/wal.go:521-530 | garbage collection removes a prefix of unreferenced segments, never the active one, and leaves the front referenced or alone |
| WalInvariant.CommitInv | internal/wal/wal.go:413-461 | a commit in which anything may fail keeps contiguous segment numbers, exact reference counts and present event records |
| WalInvariant.StoppedInv | internal/wal/wal.go:413-461 | what a process leaves that stops anywhere in a commit, also between two deletions, keeps the invariant |
| WalInvariant.OpenInv | internal/wal/wal.go:143-240 | opening any set of files with ascending numbers, gaps or not, establishes the invariant with the front segment referenced or alone |
| WalRefinement.RunInvariant | internal/wal/wal.go:187-239 | in every state of every run of commits, faults, stops anywhere in a commit and restarts: segment numbers consecutive, next number free, each count equal to the number of entries written there, each entry's segment on disk, the front segment referenced or alone |
| WalRefinement.NilReplyIsDurable | internal/wal/wal.go:413-477 | whatever fails in a batch, a request answered nil has its record inside the durable part of the log, at its place in request order |
| WalReplies.RepliesExactly | internal/wal/wal.go:413-456 | whatever fails in a batch, a request is answered nil if and only if it was written and either a rotation has since moved on to another segment or the final sync of the active one succeeded |
| WalReplies.RequestFate | internal/wal/wal.go:421-441 | a request is written if and only if its write succeeds and there is an open file for it, after a rotation without failures if it does not fit; it then goes to the new or the active segment and is the one record more on disk, and otherwise nothing is |
| WalRefinement.GcRefines | internal/wal/wal.go:501-530 | if the index is the replay of the files, it still is after garbage collection |
| WalRefinement.CommitRefines | internal/wal/wal.go:413-461 | a commit that has answered nil to every record it has written leaves the index equal to the replay of the files then on disk, whatever else failed |
| WalRefinement.OpenRefines | internal/wal/wal.go:143-240 | opening files with ascending numbers, gaps or not, yields their replay, and that is still the replay of the files it leaves |
| WalRefinement.IndexIsToldReplay | internal/wal/wal.go:413-461 | in every state of every run, whatever fails and wherever commits are cut off, the index is the replay of the segments on disk without the records answered with an error since the last start |
| WalRefinement.ApplyAllReplays | internal/wal/wal.go:445-455 | applying a batch is replaying those of its written records that are answered nil, in order |
| WalRefinement.IndexRefinesLog | internal/wal/wal.go:143-240 | so the index is the replay of exactly the segments on disk as long as every commit completed since the start or a restart has answered nil to all it has written |
| WalDurability.FailedSyncBreaksRefinement | internal/wal/wal.go:443-455 | after a commit whose sync fails index and files differ, and agree again after a restart |
| WalClosed.CommitOpen | internal/wal/wal.go:463-477 | a commit leaves an open log open if and only if none of its rotations closes the active segment and then fails, and a closed one closed |
| WalClosed.OpenExactly | internal/wal/wal.go:463-477 | in every run the log can be written to if and only if no commit since the start or the last restart had such a rotation |
| WalClosed.ClosedUntilRestart | internal/wal/wal.go:413-477 | from then on every request of every commit is answered with an error and nothing changes, until a restart |
| WalRefinement.RestartsAgree | internal/wal/wal.go:201-220 | after any crash, also in mid commit, any number of further restarts that find the files as they are recover the same index, although each may delete segments |
| WalRefinement.StartupCanBeCutOff | internal/wal/wal.go:201-239 | a startup cut off between two deletions leads the next one to the same state as if it had gone through |
| WalDurability.AnchoredReplay | internal/wal/wal.go:161-183 | a log with an event record naming the pair, and nothing after it that answers or supersedes it, replays to an index in which the pair is pending |
| WalDurability.CommitKeepsHeld | internal/wal/wal.go:413-461 | a commit with any faults keeps a durably pending pair so unless one of its own records answers or supersedes the pair |
| WalDurability.NilReplyHolds | internal/wal/wal.go:242-288 | an append answered nil makes each of its pairs durably pending, whatever else fails in its batch |
| WalDurability.StoppedHeld | internal/wal/wal.go:413-461 | stopping anywhere in a commit leaves durably pending what was so and is not touched by the batch, and what the batch has appended and answered nil |
| WalDurability.HeldSurvivesCrash | internal/wal/wal.go:143-240 | whatever a crash leaves of the log, its replay has every durably pending pair pending |
| WalDurability.NextStartHasIt | internal/wal/wal.go:143-240 | however a process stops, also inside a commit, the next one has every durably pending pair pending that the commit does not touch |
| WalDurability.RestartKeepsHeldExactly | internal/wal/segment.go:41-57 | a restart, with its garbage collection, keeps a durably pending pair so if and only if the active segment, as found, has no event record of the id or a synced one |
| WalDurability.StepKeepsHeldExactly | internal/wal/wal.go:413-461 | any commit keeps a durably pending pair it does not touch, and any stop and restart does if and only if the restart is safe for the id |
| WalDurability.NilReplyThroughRun | internal/wal/wal.go:242-288 | an append answered nil stays durably pending through any run of commits, faults, stops inside commits and safe restarts that does not answer or supersede it |
| WalDurability.UnsyncedRetryLosesEvent | internal/wal/wal.go:192-220 | a run in which a process dies after a retry was written and not synced, is restarted, and a power loss takes the accepted event |
| WalBytes.ByteCrashIsFrameCrash | internal/wal/record.go:43-73 | cutting the active file at any byte at or past its durable prefix is, for startup, keeping some number of whole frames that includes the durable ones |
| WalBytes.TypeByte | internal/wal/record.go:10-31 | behind the header the frame of an event begins with 1, that of an acknowledgement with 2, and the payload follows |
| WalBytes.FoldFailsExactly | internal/wal/wal.go:161-185 | startup fails on a file if and only if a record of a known type cannot be parsed |
| WalBytes.ForeignSkipped | internal/wal/wal.go:161-185 | a record of neither type makes no difference to startup, wherever it is |
| WalBytes.NilReplySurvivesByteCrash | internal/wal/wal.go:413-477 | at any later moment of a run, also inside a later commit, cutting the active file at any byte past its durable prefix leaves bytes whose replay succeeds and has the pair of an append answered nil pending, if nothing has answered or superseded it and every restart was safe |
| WalBytes.AppendsAfterTornTail | internal/wal/segment.go:41-57 | records appended behind leftover bytes of any length without a whole frame are found by the next replay if and only if their bytes are a prefix of the leftover followed by themselves |
| WalBytes.NilReplyLostBehindTornTail | internal/wal/segment.go:41-57 | an append behind a frame torn past its length field, which it does not fill, is answered nil, and is in the next replay if and only if the torn bytes leave no room for it and it goes to a new segment |
| WalGroupCommit.BatchIsCore | internal/wal/wal.go:413-455 | in a fault-free run, writing a whole batch and then applying it gives the files and index of writing and applying its requests one by one |
| WalGroupCommit.EarlyGc | internal/wal/wal.go:521-530 | collecting garbage between two batches does not change the state after the second |
| WalGroupCommit.TwoGroupsAreOne | internal/wal/wal.go:397-461 | two consecutive batches leave the state their concatenation would |
| WalGroupCommit.GroupCommitRefinesSerial | internal/wal/wal.go:397-461 | however a request stream is cut into batches, index, counts, surviving segments and their contents are those of one-at-a-time commit, and every reply is nil |
| SoftCap.CommitTotal | internal/wal/wal.go:413-461 | a commit, whatever fails, grows both the total of the size fields and the bytes on disk by at most the bytes it has written, and hides none |
| SoftCap.OpenSums | internal/wal/segment.go:41-57 | startup counts the bytes of the active file and of no other |
| SoftCap.SoftCapExact | internal/wal/wal.go:21-27 | in every run, restarts included, the size counted stays within maxBytes plus one frame for each overlapping append but one, plus the acknowledgement bytes written; the bytes on disk stay within that allowance once for each process so far, plus those acknowledgements |
| SoftCap.CapIsReached | internal/wal/wal.go:21-27 | for any overlap, frame size and acknowledgement there is a run that ends exactly on the cap |
| SoftCap.RunSized | internal/wal/wal.go:421-441 | in every such state each segment is within the segment limit unless it holds a single frame, and its size field is its byte count, or 0 for a closed segment found by a restart |
| Wal.WAL.Open | internal/wal/wal.go:117-240 | the replay loops, the reference count, the front collection and the choice of the active segment produce the state of the specification |
| Wal.WAL.ReplayFiles | internal/wal/wal.go:149-185 | the loops over files and records leave the index equal to the fold of all records in order, and the next number above every file's |
| Wal.WAL.CountReferences | internal/wal/wal.go:190-193 | one pass over the index yields, for every segment number, how many entries were written there |
| Wal.WAL.Rotate | internal/wal/wal.go:463-477 | sync, close, create, in that order, stopping at the first failure, with the state each leaves |
| Wal.WAL.WriteBatch | internal/wal/wal.go:417-441 | the write loop with its error, segment and synced arrays equals one step per frame |
| Wal.WAL.ApplyBatch | internal/wal/wal.go:445-454 | requests are applied and answered in order, each nil exactly when written and synced |
| Wal.WAL.CommitBatch | internal/wal/wal.go:413-461 | a whole batch leaves the state and the replies of the specification, for every combination of I/O outcomes |
| Wal.WAL.GcSegments | internal/wal/wal.go:521-530 | the deletion loop reaches the specification's collected state |
| Wal.WAL.AddRef | internal/wal/wal.go:483-499 | the search loop changes the count of the first segment with the number, and nothing if there is none |
| Wal.WAL.BufferFull | internal/wal/wal.go:255-259 | an append is refused exactly when a cap is set and the sum of segment sizes plus its frame exceeds it |
| WalRefinement.RunKeyed | internal/wal/wal.go:280 | in every state of every run an unresolved entry is filed under its own event's id |
| Wal.WAL.Pending | internal/wal/wal.go:339-352 | the snapshot lists every unresolved entry once, each with exactly its pending providers, each once |
| Frames.EncodeFrame | internal/wal/record.go:21-31 | the buffer filled in place holds length, checksum, type and payload |
| Frames.FrameLayout | internal/wal/record.go:15-31 | byte by byte: the length of type and payload and their checksum, four bytes each with the most significant first, the type, the payload |
| Frames.DecodeRecords | internal/wal/record.go:43-73 | the reading loop returns exactly what frame-by-frame decoding does, with every slice in bounds, on every byte string |
| Frames.PrefixDecodes | internal/wal/record.go:43-73 | any byte prefix of encoded records decodes to exactly the records whose frames lie wholly inside it, for any checksum |
| Frames.RoundTrip | internal/wal/record.go:21-73 | encoded records decode to themselves |
| Frames.DecodeSound | internal/wal/record.go:43-73 | decoding invents nothing: the records, encoded again, are a prefix of the input, and what follows is no whole frame |
| Frames.PanicsExactly | internal/wal/record.go:55-69 | decoding indexes an empty body if and only if whole frames are followed by a zero length and the checksum of nothing |
| Frames.TornTailFindsLater | internal/wal/record.go:43-73 | records encoded behind bytes of any length without a whole frame are decoded, whatever is decoded in between, if and only if their bytes are a prefix of those bytes followed by themselves |
| Frames.TornTailHides | internal/wal/record.go:55-67 | nothing after a frame torn in its body is decoded if and only if the later bytes do not fill that body or fail its checksum |
| Frames.UnfilledTornTail | internal/wal/record.go:46-63 | bytes after a frame torn anywhere past its length field are never decoded while they do not fill it |
| DlqInvariant.PathsCollide | internal/dlq/dlq.go:105-111 | two providers share a file if and only if one is named like the other's poison file |
| DlqInvariant.PutFiles | internal/dlq/dlq.go:119-187 | which records each file of each provider that shares none holds after a put, for every failure of the purge, the write and the sync, and when it succeeds |
| DlqInvariant.PutCounts | internal/dlq/dlq.go:119-187 | whatever fails, a put raises the one attempt counter by one and touches no other counter and no other provider's depth |
| DlqInvariant.PutLands | internal/dlq/dlq.go:123-163 | a put whose I/O succeeds lands in the poison file, in place of the regular records of its id, if and only if it is at least the second of the id and permanent, or the third; the record holds the event, the reason, its number and that verdict |
| DlqInvariant.PoisonedExactlyWhen | internal/dlq/dlq.go:123-163 | an event new to the queue is in the regular file after the first permanent failure, or the first two of the other kind, and in the poison file alone from then on, once for each time |
| DlqInvariant.RemoveFiles | internal/dlq/dlq.go:239-328 | which records each file of each provider that shares none holds after a removal, for every failure before and after a file is replaced, and when it succeeds |
| DlqInvariant.PoisonStaysPoison | internal/dlq/dlq.go:128-155 | an event with a poison record goes to the poison file whatever the kind of its next failure |
| DlqInvariant.PutDepth | internal/dlq/dlq.go:146-187 | a put leaves the depth exact unless the line is written and its sync fails, or the purge has replaced a file with records of the id and cannot reopen it |
| DlqInvariant.RemoveDepth | internal/dlq/dlq.go:251-328 | a removal leaves the depth exact, its clamp idle, unless it has replaced a file that had records to remove and something fails after that |
| DlqInvariant.RemoveDepthIs | internal/dlq/dlq.go:257-263 | a removal takes the records it has deleted off the depth, whatever that was, and never below zero; one that fails leaves it |
| DlqInvariant.PutAttempts | internal/dlq/dlq.go:123-187 | the counters stay the largest recorded attempts if and only if the line is written or the put leaves no earlier record of the id, both read off the state and the I/O before the call |
| DlqInvariant.PutParksExactly | internal/dlq/dlq.go:119-187 | after a put the id has a record if and only if the line was written or an earlier record is one the put does not purge |
| DlqInvariant.RemoveAttempts | internal/dlq/dlq.go:239-265 | a removal, whatever fails, keeps every counter equal to the largest recorded attempts |
| DlqInvariant.RemoveParksExactly | internal/dlq/dlq.go:239-328 | after a removal an id it names has a record if and only if the file with it was not replaced or not reached, which a removal that succeeds excludes |
| DlqInvariant.HomesAreDisjoint | internal/dlq/dlq.go:119-163 | in every run, with failures and restarts, of providers that share no file, no id is in both files of a provider, regular records have one or two attempts and poison records at least two |
| DlqInvariant.OneHomeIffApart | internal/dlq/dlq.go:105-163 | no run of a set of providers puts an id in both files of one of them if and only if no p and p.poison are both in the set |
| DlqInvariant.PoisonSuffixBreaksHomes | internal/dlq/dlq.go:105-163 | with such a pair, one dead-letter of an event for each puts its id in both files of the first |
| DlqInvariant.CountersAreExact | internal/dlq/dlq.go:81-100 | in every run of successful operations depth and counters are exact in every state, for a plain name also after restarts |
| DlqInvariant.OpenIs | internal/dlq/dlq.go:81-100 | for each provider the directory scan counts exactly the records of the files attributed to it, and takes the largest attempts among them |
| DlqInvariant.PathsAttributed | internal/dlq/dlq.go:85-111 | the scan attributes a poison file to its provider always, and a regular file if and only if the name does not end in .poison |
| DlqInvariant.ReopenRebuildsExactly | internal/dlq/dlq.go:62-103 | after any history a restart makes depth and counters of a provider exact if and only if its name does not end in .poison or its regular file is empty |
| DlqInvariant.LoneNameForgotten | internal/dlq/dlq.go:62-103 | one provider x.poison, one dead-letter and a restart: the record is listed, depth and counter are 0 |
| DlqInvariant.ReopenReconstructs | internal/dlq/dlq.go:62-103 | a restart changes, for a name that does not end in .poison, neither depth nor any counter except that ids without a record start again from zero |
| Dlq.DLQ.Open | internal/dlq/dlq.go:65-103 | the scan of the directory builds the specified maps |
| Dlq.DLQ.RemoveFromFile | internal/dlq/dlq.go:267-328 | the filter loop keeps exactly the other records in order, reports how many went, and leaves a file without matches alone |
| Dlq.DLQ.Put | internal/dlq/dlq.go:119-163 | counter, threshold, purge, append and depth, with the state left by a failure at each point |
| Dlq.DLQ.Remove | internal/dlq/dlq.go:239-265 | both rewrites and the clamped depth, with the state left by a failure at each point |
| DlqReplay.ReplayConserves | internal/dlqreplay/dlqreplay.go:67-107 | at every point at which the procedure can be cut, for any pattern of append failures, each listed event is in the queue or durably pending for the provider |
| DlqReplay.ReplaySurvivesCrash | internal/dlqreplay/dlqreplay.go:67-107 | after a crash at any of those points, or inside the commit of the next append, a restarted process lists the event or has it pending |
| DlqReplay.ReplayOutcome | internal/dlqreplay/dlqreplay.go:84-107 | when it has finished, an id appended at least once has no record left, and any other id has all of its records |
| DlqReplay.CandidatesAre | internal/dlqreplay/dlqreplay.go:67-80 | a replay lists the provider's regular file and, only if asked to, its poison file after that |
| DlqReplay.IdsAre | internal/dlqreplay/dlqreplay.go:82-92 | an id is reported as replayed, or failed, if and only if an append of a record of it was, or was not, answered nil |
| DlqReplay.ReplayDropsOtherProviders | internal/dlqreplay/dlqreplay.go:84-91 | the single-provider re-append keeps every pending pair of the event if and only if no other provider was pending |
| DlqReplayRaces.ReplaySafeExactly | internal/dlqreplay/dlqreplay.go:67-107 | with other commits without faults, puts and removals with any outcome between listing and removal, a replayed event is parked or held in the end if and only if the last append of it for the provider is followed by no record that answers the pair or supersedes it without naming the provider, or the removal fails and leaves a record |
| DlqReplayRaces.ReplaySafeUnderFaults | internal/dlqreplay/dlqreplay.go:67-107 | with faults anywhere, it is if no record after its last answered append touches the pair |
| DlqReplayRaces.SafeIffHeld | internal/dlqreplay/dlqreplay.go:94-107 | whatever happens meanwhile, in the end a replayed event is safe if and only if the log holds it, or the removal fails and leaves a record |
| DlqReplayRaces.HeldExactly | internal/wal/wal.go:161-183 | after fault-free commits the log holds a pair appended meanwhile if and only if the last append of it is followed by no record that answers or supersedes it |
| DlqReplayRaces.UnreplayedStaysParked | internal/dlqreplay/dlqreplay.go:84-107 | a listed event that is not replayed stays parked while every put of it gets its line on file or spares an earlier one, and no other removal names it |
| DlqReplayRaces.ReplayedAlone | internal/dlqreplay/dlqreplay.go:83-92 | with nothing else going on the replayed ids are those the handler's loop reports |
| DlqReplayRaces.FastFailureLosesEvent | internal/dlqreplay/dlqreplay.go:94-107 | a replayed event is dead-lettered again and acknowledged before the removal: on file just before it, afterwards neither parked nor held |
| DlqReplay.Handler.AppendAll | internal/dlqreplay/dlqreplay.go:83-92 | the loop reports an id as replayed or failed according to each append's answer, in order, and leaves the log those appends leave |
| DlqReplay.Handler.ServeHTTP | internal/dlqreplay/dlqreplay.go:51-111 | refused requests and unreadable files change nothing; otherwise the log, the queue and the response are those of list, append each, remove the replayed |
| Batcher.Run | internal/batcher/batcher.go:170-231 | the program's loop does what the turns of the loop specification do, for as long as the history can happen |
| Batcher.LoopKeeps | internal/batcher/batcher.go:170-231 | at every moment batches in spawn order, then the one waiting for a slot, then the pending events equal what was received; as many flushes run as were started and have not ended, at most four; a batch waits only while four run; size batches are full, linger batches not empty, and the closing one bounded by what was drained |
| Batcher.NextInput | internal/batcher/batcher.go:183-231 | what can follow a history and what it does: a batch is cut when an event fills it, of all that is pending when the linger timer fires, and of all that is left on Close, and at no other time; nothing is received after Close or while a batch waits for a slot |
| Batcher.LingerLeavesNothing | internal/batcher/batcher.go:216-218 | when the linger timer fires nothing stays pending: everything received by then is in a batch started, or in the one that waits while four run |
| Batcher.SlotsOnlyDelay | internal/batcher/batcher.go:178-203 | the batches cut are those of the same history with unlimited slots, started in order, as many as there are up to four more than have ended |
| Batcher.EveryMoment | internal/batcher/batcher.go:170-231 | the beginning of a history that can happen can happen, so what LoopKeeps states holds throughout |
| Batcher.ByID | internal/batcher/batcher.go:265-268 | the result map holds exactly the reported ids, each with its last report |
| Batcher.FlushBatch | internal/batcher/batcher.go:233-303 | the effects are those of one verdict per item, in batch order: permanent dead-letter on encode errors, the classified disposition on send errors, else the last report of the id, with retries judged against the budget |
| Batcher.FlushIsDue | internal/batcher/batcher.go:233-303 | item by item: Ok is acknowledged if and only if the send returned and the last report on the id, if any, is Ok, or the send failed and was classified Ok; a permanent dead-letter if and only if encoding failed or that disposition is DeadLetter; for any other disposition, named or not, another dead-letter if the budget is spent and else a retry |
| Batcher.ReportedIsLast | internal/batcher/batcher.go:265-279 | the disposition used is that of the last report of the id, and ids not reported are accepted |
| Batcher.EffectsMatchVerdicts | internal/batcher/batcher.go:233-338 | for every id and kind of effect there are as many effects as items with the id whose verdict calls for it |
| Batcher.EachResolvedOnce | internal/batcher/batcher.go:233-338 | for every id there are as many acknowledgements and retries together as items with the id, and as many dead-letter records as dead-letter acknowledgements |
| Batcher.RecordedThenAcked | internal/batcher/batcher.go:320-330 | every dead-letter is recorded directly before it is acknowledged, and none is acknowledged otherwise |
| Batcher.RetriesAreExact | internal/batcher/batcher.go:332-338 | a re-enqueued item is a retried event of the batch with one attempt more and the same first moment, and every retried event is re-enqueued so |
| Batcher.Backoff | internal/batcher/batcher.go:73-83 | the delay is drawn from all values between zero and the cap, and the generator panics exactly when the cap is out of its range |
| Batcher.ScheduleRetry | internal/batcher/batcher.go:332-339 | a retry has one attempt more and the same first moment, and waits for a delay of that attempt |
| Batcher.DefaultDelays | internal/batcher/batcher.go:58-83 | a policy that says nothing waits up to a second, twice as long each time, up to two minutes |
| Batcher.BackoffClosedForm | internal/batcher/batcher.go:58-83 | the cap is the initial delay doubled attempt - 1 times, limited to the maximum, for every attempt, if and only if no doubling below the maximum leaves 63 bits |
| Batcher.ModestBackoffIsExact | internal/batcher/batcher.go:58-83 | any maximum up to 2^62 ns is safe whatever the initial delay |
| Batcher.RetriesTerminate | internal/batcher/batcher.go:292-302 | under any policy a copy is retried fewer times than there are ticks in the budget, and re-enqueued only before first moment + budget + maximum delay |
| Ingest.ValidateRouting | internal/pipeline/pipeline.go:172-186 | startup accepts a routing configuration if and only if every provider it names exists |
| Ingest.FirstMatchIs | internal/receiver/router.go:19-26 | routing is by the first rule with the event's name, and by default exactly if there is none |
| Ingest.NamelessRule | internal/receiver/router.go:5-26 | a rule with an empty event name is chosen if and only if the event's name and that of no earlier rule is empty, hence never for a valid event |
| Ingest.RouteIsKnown | internal/receiver/router.go:19-26 | a validated router only ever names existing providers, by first match or default |
| Ingest.RouteOfIs | internal/receiver/receiver.go:102-108 | an event goes to the providers of its own route if it has one, else to those of the first rule with its name, else to the defaults, and to no others |
| Ingest.AcceptableExactly | internal/receiver/receiver.go:94-127 | an event is accepted if and only if it has an id, a customer, a name and a timestamp at most a day ahead, and its providers are not none and, if the configured ones are known, among those |
| Ingest.SubmittedAsRouted | internal/receiver/receiver.go:129-146 | every append the receiver submits is of the event itself, for the providers it is routed to |
| Ingest.ValidatedRouterNeverUnknown | internal/receiver/receiver.go:98-125 | an event without a route of its own is refused only for being invalid or having nowhere to go |
| Ingest.Receiver.RouteAll | internal/receiver/receiver.go:94-127 | all events are accepted, each with its route, if and only if each is valid, has somewhere to go and only configured providers |
| Ingest.Receiver.Ingest | internal/receiver/receiver.go:89-146 | either nothing is appended, or a prefix of the request is, and every durable append of it has been dispatched; if the receiver knows the configured providers no dispatch after a durable append fails |
| Sink.WalDispatchSink.Append | internal/pipeline/pipeline.go:62-67 | nothing is dispatched unless the log answered nil; then the providers up to the first unknown one are served, and an unknown one is the only other failure |
| Dispatch.Dispatcher.Dispatch | internal/dispatcher/dispatcher.go:39-48 | providers are served in order up to the first unknown one, and all of them exactly when it succeeds |
| Dispatch.Dispatcher.ReplayPending | internal/dispatcher/dispatcher.go:63-77 | the nested loops leave the queues the specification of startup gives |
| Dispatch.EnqueuedAllIs | internal/dispatcher/dispatcher.go:63-77 | startup appends to each queue exactly the events pending for its provider, in order, and skips unknown providers |
| Dispatch.StartupEnqueuesOnce | internal/dispatcher/dispatcher.go:50-77 | over a snapshot of the replayed index a queue is given exactly one event per pending pair and none for any other |
| Pipeline.CommitConserves | internal/pipeline/pipeline.go:62-67 | a commit with any faults keeps every accepted and open pair durably pending, and makes newly accepted ones so |
| Pipeline.RestartConserves | internal/pipeline/pipeline.go:74-120 | a restart after a stop anywhere in a commit does the same, with the pairs accepted before the stop |
| Pipeline.CommitStrandsNone | internal/wal/wal.go:265-282 | after a commit in which no acknowledgement failed every pending pair of a configured provider has a live copy |
| Pipeline.DeadLetterJustified | internal/batcher/batcher.go:320-330 | for a pair with no outcome on record, acknowledging its dead-letter is backed by a record if and only if the line is written and, for a record that reaches its threshold, the regular file could be dealt with |
| PipelineParts.FailedPutLosesPair | internal/batcher/batcher.go:320-330 | otherwise the acknowledgement, answered nil, leaves the pair neither delivered nor parked nor pending |
| PipelineParts.ReenqueuedIsReplayPending | internal/pipeline/pipeline.go:118-120 | the copies a restart of the daemon model creates are, pair by pair, what the startup loop adds to each configured queue |
| Pipeline.RunGood | internal/pipeline/pipeline.go:74-165 | the daemon's invariant holds in every state of every run |
| Pipeline.ObligationsConserved | internal/batcher/batcher.go:233-330 | in every state of every run, with crashes anywhere and puts that fail, each accepted pair was reported delivered, has a dead-letter record, is pending in the replay of whatever a crash then or inside the next commit would leave, or was acknowledged or purged by a dead-letter whose put got no line on file |
| Pipeline.NothingUnrecorded | internal/batcher/batcher.go:320-330 | if every dead-letter put gets its line on file there are no pairs of that last kind, and nothing is acknowledged before its outcome is on record |
| Pipeline.NoPairStranded | internal/batcher/batcher.go:205-338 | while no acknowledgement has failed and the process is not closing, every pending pair of a configured provider has a live copy in some stage |
| PipelineParts.TurnIsARun | internal/batcher/batcher.go:170-231 | one turn of the queue loop, wherever the rest of the daemon is, is a stretch of a run that takes what it receives off the queue and puts the batch it starts in flight |
| PipelineParts.LoopIsARun | internal/batcher/batcher.go:170-231 | every history of the queue loop is a stretch of a run at whose end the Batched copies are those of its waiting and pending items and the InFlight ones those of the batches started |
| PipelineParts.FlushIsARun | internal/batcher/batcher.go:233-338 | whatever the adapter answers and however the puts go, the effects of a flush, in order, are steps the daemon can take, and they leave every copy of the batch about to be acknowledged or on a retry timer, and reported delivered exactly when accepted |
| PipelineParts.AcksAreOfItsCopies | internal/batcher/batcher.go:305-330 | the acknowledgements a flush writes are those of exactly the copies it leaves to be acknowledged |
| PipelineParts.SinkDispatches | internal/pipeline/pipeline.go:62-67 | what the sink puts on a queue is, copy by copy, what the daemon dispatches for the request, and nothing unless the log answered it nil |
| PipelineParts.ReceiverMeetsKnown | internal/receiver/receiver.go:89-146 | every request the receiver submits names at least one provider, and known ones only |

## Left out

- The HTTP and gRPC servers, request decoding, command-line clients, status, metrics and dead-letter listing handlers, configuration loading and adapter construction: plumbing without invariants of its own.
- The adapters: `Encode`, `Send` and `Classify` are arbitrary outcomes given to `Batcher.FlushBatch`.
- JSON and CRC-32 internals: an arbitrary round-tripping codec and an arbitrary checksum. Torn lines in dead-letter files, on which the program refuses to start, are excluded by line-atomic appends; so is a power loss that takes a line whose sync failed.
- Partial segment writes: a write leaves a whole frame or nothing; what a torn frame does to later ones is `WalBytes.AppendsAfterTornTail`.
- Runs that go on after reopening a torn tail, for the reason that theorem gives.
- Directory syncs, rename atomicity, file handles, and removal errors of runtime garbage collection.
- File names and sorting of segment files: startup is given the segments in ascending order.
- Segments are values in a sequence field of the log object, replaced element by element where the program updates a struct through a pointer; aliasing of segments is not captured. So are the files of the dead-letter queue.
- Goroutines, locks, channel capacities and timers: interleavings are sequences of atomic steps; one `commitBatch`, complete or cut off, one dead-letter operation or one stage of a copy is one step. The race of closing the log under concurrent submitters, which its comments describe, is not modelled, nor is `Pipeline.Close` beyond a retry dropped after closing.
- Sizes, sequence numbers and attempt counters are unbounded integers; 64-bit wrap-around is modelled for back-off durations and the 32-bit length field of a frame.
- Timestamps and reason texts of dead-letter records beyond being carried along.
- DlqReplay.ReplayConserves: for executions in which nothing but the commits of the replay's own appends goes on, and nothing in those answers or supersedes a listed pair; `DlqReplayRaces` has neither restriction. Dead-letter replay is not a step of `Pipeline`, whose re-append condition it breaks.
- DlqReplayRaces.ReplaySafeUnderFaults: one way only: a later record that touches the pair does no harm if its write fails.
- Pipeline.ObligationsConserved: for runs whose restarts are safe; `WalDurability.UnsyncedRetryLosesEvent` shows why that is needed.
