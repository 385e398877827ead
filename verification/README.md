# NuclaDB verification

A Dafny model of NuclaDB, a vector database with a write-ahead log, snapshots,
an HNSW index, product quantization, log-stream replication and a sharded
cluster. Each module follows one component; state-changing code is modelled by
classes and methods with loops, protocols by state machines over their steps.
`dafny verify dfyconfig.toml` checks everything.

| modules | component |
|---|---|
| Common, Bytes, Wal | shared helpers, byte formats, CRC-32, log frames, recovery, the log writer |
| Log, Durability, Install, GroupCommit, Commits | the meaning of a log, crash safety of commits, snapshots and rotation, the three-file install, the group commit protocol, the two together |
| Replication | leader and follower over the log stream |
| Heap, TopK, Beam, HnswState, Hnsw, HnswBatch, Compaction | heaps, bounded scans, beam search, the graph, batch insert, compaction |
| Restore, Rebuild, Segment, Loader, Canonical | exporting and restoring a graph, which exports restore, the snapshot file, its loader, which files load |
| Filters, Candidates, Query | metadata postings, filter candidates, search |
| Ring, Topology, Router | consistent hashing, rebalancing, scatter-gather |
| Kmeans, Quantizer, Ivf | Lloyd's algorithm, codes and distances, the inverted file |

Conventions. Vectors in the index are opaque bit patterns with a distance
function into the reals; product quantization works on real vectors. Sequence
numbers, counters and lengths are unbounded except where a format or a check
narrows them. Outcomes of I/O, drawn levels, whether a proposal commits, which
bytes survive a crash and every scheduling choice are parameters, quantified
over.

Where the code does not do what one would expect of it, the model follows the
code and the exact condition is proved:

- The log encoder accepts records the reader refuses (`Wal.FrameRoundTrip`). Once
  one is acknowledged, startup refuses the log (`Durability.CommittedReadsBackIff`)
  and streams that reach it wait for good (`Replication.OversizedRecordStalls`).
- A rotation after a failed write can leave a log that startup refuses
  (`Durability.RotationAfterFailedWrite`).
- The log stream sends frames that are not acknowledged. If their write fails
  the follower is ahead of the leader, and if a snapshot under way then rotates
  the log, the two fork (`Replication.FollowerIsAPrefix`,
  `Replication.RotationOverFailedWrite`, `Replication.FailedWriteForks`). A
  reconnect notices only once the failed frame has left the log file
  (`Replication.ForkGoesUnnoticed`, `Replication.ForkIsHealed`).
- The checksum a follower offers is compared with the leader's at one number, so
  it catches a foreign history exactly if the newest records differ in checksum
  (`Replication.AnyFollower`); a follower that is just at the last snapshot's
  number is sent a whole snapshot again (`Replication.SumOfLog`).
- A torn frame left by a failed write can hold up a stream for good
  (`Replication.StalledStaysStalled`).
- The log stream can step over a record, also after reading its old file to the
  end (`Replication.ReopenIsLosslessIff`, `Replication.TwoRotationsSkipARecord`);
  the follower refuses the next one, so this alone never forks it.
- Inserting an id again at a lower level can leave a graph that is written but
  not loaded (`Segment.UnsavableIsRefused`, `Segment.ReinsertLowerBreaksSaving`).
- A restore accepts nodes without an entry point (`Restore.RebuiltIsSound`).
- Asked for zero results, a search that walks the graph returns every match the
  walk found (`Query.WalkIsSound`).
- A filter can list an id twice when a metadata key contains a NUL character
  (`Candidates.OnceIffClear`, `Candidates.ConfusableExists`).

## Model
| member | source | states |
|---|---|---|
| Wal.DecodeEncode | internal/storage/wal/wal.go:335-392 | a payload within the size bound decodes back to its record, every field included |
| Wal.EncodeDecode | internal/storage/wal/wal.go:352-392 | any bytes that decode are the encoding of the record they decode to: the format is canonical |
| Wal.PayloadLayout | internal/storage/wal/wal.go:335-350 | the payload byte by byte: little-endian number, operation byte 1, 2 or 3 for insert, delete and metadata, id, dimension, words, sidecar length and sidecar |
| Bytes.OneByteChangesTheSum | internal/storage/wal/wal.go:318-333 | changing any one byte of any data changes its CRC-32 |
| Bytes.CheckValue | internal/storage/wal/wal.go:318-333 | the checksum has the standard check value of CRC-32 (IEEE) |
| Wal.WrongByteIsCaught | internal/storage/wal/wal.go:490-513 | a frame with any one byte past its length field changed never reads as a frame |
| Wal.FrameRoundTrip | internal/storage/wal/wal.go:318-350 | a frame followed by anything reads back as its record if and only if the record is within the 256 MiB bound, which only the reader enforces |
| Wal.FrameCanonical | internal/storage/wal/wal.go:490-513 | every byte string that reads as a frame begins with that record's encoding, of exactly the size reported |
| Wal.StrictPrefixIsBad | internal/storage/wal/wal.go:490-513 | a strict prefix of a frame never reads as a frame |
| Wal.ScanWholeFrames | internal/storage/wal/wal.go:410-445 | over whole frames with consecutive numbers followed by any tail, recovery delivers those frames and then whatever it makes of the tail |
| Wal.RecoverTornLog | internal/storage/wal/wal.go:410-482 | whole frames followed by a strict prefix of one more: recovery delivers exactly the whole frames and ends at their last byte, or refuses because the torn bytes hold a newer valid frame or exceed the 64 MiB scan window |
| Wal.ScanStops | internal/storage/wal/wal.go:396-482 | for every byte string, the exact outcome: recovery reads whole frames with consecutive numbers; it refuses at a frame out of sequence, and at bytes that are no frame if more than 64 MiB follow or a newer frame is readable later, and otherwise accepts what it has read |
| Wal.RecoverNeverDropsAFrame | internal/storage/wal/wal.go:396-482 | for every byte string: what is accepted is a chain of whole frames, and no readable newer frame starts past the accepted end; a rest longer than the 64 MiB scan window is refused |
| Wal.RecoverAfterTruncate | internal/storage/wal/wal.go:139-181 | truncating at the accepted end and recovering again gives the same records and end |
| Wal.AppendedIsRecovered | internal/storage/wal/wal.go:257-286 | one more record appended to a good log is recovered if and only if it is within the size bound |
| Wal.OversizedLogIsCorrupt | internal/storage/wal/wal.go:410-482 | whatever follows it, a record over the reader's bound whose length fits its field makes recovery refuse the log instead of cutting it short |
| Wal.EncodePayload | internal/storage/wal/wal.go:335-350 | the buffer filled field by field at a moving offset equals the payload format |
| Wal.DecodePayloadLoop | internal/storage/wal/wal.go:352-392 | the decoding loop accepts and refuses exactly as the format function, with the same record |
| Wal.FindValidFrame | internal/storage/wal/wal.go:451-482 | finds a newer valid frame at a later offset if and only if there is one, or the rest is longer than the scan window |
| Wal.Recover | internal/storage/wal/wal.go:410-445 | the loop over frames computes the recovery function of the whole file |
| Wal.EncodeBatch | internal/storage/wal/wal.go:257-286 | numbers are consecutive from the given one and the buffer is the frames of the numbered records in order |
| Wal.Writer.AppendBatch | internal/storage/wal/wal.go:257-286 | all or nothing: on success the file grows by the whole batch and the numbers are returned; any failure leaves the counter and poisons the writer |
| Wal.Writer.AppendRecord | internal/storage/wal/wal.go:226-244 | only the next number is appended; any other is refused with the file untouched; an I/O failure poisons the writer |
| Log.FoldAppend | internal/engine/engine.go:104-161 | the reference meaning of a log is a fold: a longer log means the fold continued |
| Log.ApplyOneIsApply | internal/engine/engine.go:507-539 | applying one streamed record does to the database what the reference step says |
| Log.LastTouchWins | internal/engine/engine.go:115-161 | after replay an id's metadata is settled by the last record naming it, whatever the metadata file held before |
| Log.ReplayIsFold | internal/engine/engine.go:104-161 | replay from an index at one point of the log and a metadata file written up to j records later gives the fold, for every log and every j |
| Log.CommitIsFold | internal/engine/engine.go:332-369 | queued runs of inserts flushed before deletes, then one metadata pass over the final index, equal applying the records one by one |
| Log.ThreeWaysAgree | internal/engine/engine.go:507-539 | batched commit, startup replay and one-by-one application agree on live vectors and metadata |
| Log.Engine.ApplyToIndex | internal/engine/engine.go:332-369 | the loop with its pending queue leaves the live map of the record-by-record function |
| Log.Engine.CommitLocked | internal/engine/engine.go:332-369 | the in-memory half of a commit equals the commit function of old memory and the batch |
| Log.Engine.ReplayAll | internal/engine/engine.go:115-161 | the startup loop and its closing drop of non-live ids equal the replay function |
| Log.Engine.ApplyReplicated | internal/engine/engine.go:507-539 | one replicated record changes memory as the reference step does |
| Durability.Open | internal/engine/engine.go:84-182 | startup as code, refusals included, computes the recovery function of the disk and the log bytes |
| Durability.OpenOutcome | internal/engine/engine.go:84-182 | for every disk and log: startup refuses exactly when the log is not recovered or its first record past the snapshot does not follow on from it; otherwise it replays that record and all after it, and no other |
| Durability.RecoveryRefinesTheLog | internal/engine/engine.go:84-182 | from any reachable state and any surviving prefix of a failed write, startup gives the fold of all acknowledged records plus a prefix of that write; it refuses exactly when torn bytes hide a newer frame or exceed the scan window |
| Durability.StepKeepsInv | internal/engine/engine.go:1046-1137 | commit, failed commit, capture, metadata write, graph write, rotation, abort and crash each keep the protocol invariant, given records within the reader's bound and no rotation over whole frames of a failed write |
| Durability.RunKeepsInv | internal/engine/engine.go:332-369 | the invariant holds after every run of such steps in any order |
| Durability.AcknowledgedRecordsSurvive | internal/engine/engine.go:1046-1137 | a record acknowledged at any point of any such run is in every later history, memory is the fold of the history, and one more crash recovers it |
| Durability.CommittedReadsBackIff | internal/storage/wal/wal.go:257-286 | whatever a batch holds, startup reads an acknowledged batch back if and only if each of its records is within the reader's 256 MiB bound, and then opens the database with the batch in it; otherwise it refuses the log, if the lengths fit their field |
| Durability.RotationAfterFailedWrite | internal/engine/engine.go:1088-1115 | rotating after a failed write: the next acknowledged commit is readable at startup if and only if that write left no whole frame |
| Durability.FailedWriteCanLeaveAFrame | internal/engine/engine.go:1088-1115 | that situation is reachable from an empty database, for every record within the size bound |
| Install.InstallIsAllOrNothing | internal/engine/engine.go:577-756 | crash the three-file install after any operation, crash any number of recoveries anywhere, let one finish: all files old or all new, decided by the marker, nothing left over |
| Install.InstallFinishes | internal/engine/engine.go:577-677 | left alone, the install ends with the incoming files in place and no backup, incoming file or marker left |
| Install.CrashedInstall | internal/engine/engine.go:577-677 | after any prefix of the install the disk still rolls back to the old files before the commit point and keeps the new ones after it |
| Install.RecoverIsHarmless | internal/engine/engine.go:714-756 | no operation of a recovery changes which files the disk will end up with |
| Install.PrefixRollsBack | internal/engine/engine.go:690-756 | however far such a program got, the outcome is unchanged |
| GroupCommit.StepKeepsInv | internal/engine/engine.go:221-265 | each step of each caller keeps the protocol invariant |
| GroupCommit.GroupCommitIsSafe | internal/engine/engine.go:221-265 | in every reachable state: one leader at most; not flushing means an empty queue and no pending hand-off; one value per channel; a returned caller was committed in exactly one group and got its result |
| GroupCommit.GroupCommitNeverStalls | internal/engine/engine.go:221-265 | while a call is unfinished some step other than a new call is enabled |
| GroupCommit.RankDecreases | internal/engine/engine.go:221-265 | every step except a new call lowers a natural-number rank |
| GroupCommit.EveryCallIsAnswered | internal/engine/engine.go:221-265 | runs without new calls are bounded by the rank, and one that cannot continue has answered every call |
| Commits.StepKeepsInv | internal/engine/engine.go:221-265 | callers, logged, failed and rejected group commits and snapshot steps keep both protocols' invariants and every successful group's records standing in the history in queue order |
| Commits.SuccessIsDurable | internal/engine/engine.go:190-265 | a caller that got success has its record in the durable history, numbered by its place, memory is the fold of that history, and a crash at that moment recovers a database folded from a history that has it |
| Replication.StepKeepsInv | internal/cluster/replication/replication.go:88-168 | writes, acknowledgements, failed writes, captures, rotations, dials, snapshot or log service, reads, reopen, delivery and drops keep the leader-follower invariant as long as no rotation keeps whole frames of a failed write |
| Replication.FollowerIsAPrefix | internal/cluster/replication/replication.go:259-313 | for every such schedule the follower's database is the fold of exactly the first records the leader wrote, no gap, no repeat; it is a prefix of the acknowledged log if and only if it has not gone past it |
| Replication.AheadOnlyByReadingAhead | internal/storage/wal/wal.go:568-647 | on a stream without a gap the follower ends up a prefix of the acknowledged log if and only if the stream has not read past it |
| Replication.FollowerHoldsOnlyLeaderFrames | internal/cluster/replication/replication.go:259-313 | from any follower and for every schedule whatever, each record the follower applied is the leader's record of that number, a frame of a failed write that a rotation left in the log, or one it started with; it is a prefix of the acknowledged log if and only if it has not gone past it and every such frame and record equals the leader's |
| Replication.RotationOverFailedWrite | internal/engine/engine.go:1088-1115 | after a rotation and the next acknowledged record, a stream of the new file hands out that record under its number if and only if it is within the reader's bound and the rotation kept no whole frame of a failed write or the kept one is the same record |
| Replication.StreamSendsNext | internal/storage/wal/wal.go:568-647 | reading on over frames within the reader's bound, a stream sends the first record past its number that its file still holds |
| Replication.FailedWriteForks | internal/storage/wal/wal.go:257-286 | from every state at rest and for all records within the reader's bound, one failed fsync and one rotation leave the follower with the failed record where the leader acknowledged another, taking everything after it without a gap |
| Replication.ForkIsReachable | internal/cluster/replication/replication.go:88-168 | a new leader and a new follower get there by connecting |
| Replication.ForkGoesUnnoticed | internal/engine/engine.go:441-467 | a follower forked by a failed write is served again when it reconnects while the file still has the failed frame |
| Replication.ForkIsHealed | internal/engine/engine.go:441-467 | after the next rotation it is refused, and the snapshot gives it the record the leader acknowledged |
| Replication.StalledStaysStalled | internal/storage/wal/wal.go:600-631 | a stream at a torn frame with a whole header, or at a frame over the reader's bound, never sends or moves to a later file again until its connection ends, whatever the leader does |
| Replication.OversizedRecordStalls | internal/storage/wal/wal.go:607-617 | acknowledging one more record stalls an up-to-date stream if and only if the record is over the reader's bound |
| Replication.RefusedOnlyAfterAGap | internal/storage/wal/wal.go:226-244 | the follower refuses a record only on a stream that stepped over one |
| Replication.ReconnectHealsGaps | internal/engine/engine.go:441-467 | whatever the follower, a connection served from the log starts without a gap and right behind a record of the follower's that has the checksum of the leader's record of that number |
| Replication.ServedIff | internal/engine/engine.go:441-467 | in any state: a follower is served from the log if and only if its number is neither before the last snapshot nor past the acknowledged log and it is 0 or the first readable record of that number in the current file has the checksum offered; otherwise it is refused |
| Replication.SumOfLog | internal/storage/wal/wal.go:677-712 | that record is the leader's record of that number, written since the last snapshot, and all frames up to it are readable |
| Replication.MismatchIsRefused | internal/engine/engine.go:441-467 | a follower that offers no checksum, another one, or a number the leader has not reached is never served the log, can be refused, and keeps what it holds until then |
| Replication.RefusedIsResynced | internal/cluster/replication/replication.go:88-168 | a refused follower of a leader at rest holds exactly the acknowledged log once the snapshot is delivered, whatever it held |
| Replication.SnapshotHeals | internal/cluster/replication/replication.go:88-168 | from any follower and for every schedule, delivering a snapshot makes the follower a prefix of the acknowledged log with an empty log of its own |
| Replication.AnyFollower | internal/cluster/replication/replication.go:88-168 | from any follower and every schedule without a rotation over whole frames of a failed write: it holds a prefix of the leader's log, still what it started with, or that with the leader's records on top, the last only if its log had its newest record and that has the leader's checksum at that number |
| Replication.ReopenIsLosslessIff | internal/storage/wal/wal.go:568-647 | moving on to the current file loses nothing if and only if that file starts no later than what was sent |
| Replication.QuietMeansCaughtUp | internal/storage/wal/wal.go:568-647 | on a gap-free stream with nothing left to read or deliver the follower has everything |
| Replication.TwoRotationsSkipARecord | internal/storage/wal/wal.go:568-647 | from every up-to-date stream, two rotations around one append make the stream step over that record |
| Heap.Heap.Push | internal/index/hnsw/heap.go:28-45 | adds one element and keeps heap order |
| Heap.Heap.Pop | internal/index/hnsw/heap.go:47-70 | removes the root, which no element precedes, and keeps heap order and the rest |
| Heap.RootFirst | internal/index/hnsw/heap.go:36-70 | heap order between parents and children puts the first element of the order at the root |
| Heap.Drain | internal/index/hnsw/graph.go:639-642 | emptying a max-heap back to front gives its elements sorted closest first |
| TopK.Offer | internal/index/hnsw/graph.go:912-923 | the bounded scan step: the heap goes on holding k nearest of everything seen |
| TopK.TopKUnique | internal/index/hnsw/graph.go:892-930 | any two top-k lists of one collection have the same distances, ties or not |
| TopK.TopKIsBruteForce | internal/index/hnsw/graph.go:892-930 | a top-k list has exactly the distances of sort-and-cut |
| Beam.VisitedSet.Reset | internal/index/hnsw/graph.go:530-540 | an empty set over n slots, also when the 32-bit generation wraps around |
| Beam.VisitedSet.Visit | internal/index/hnsw/graph.go:543-549 | adds the slot and reports whether it was there |
| Beam.SearchLayer | internal/index/hnsw/graph.go:580-644 | the two-heap loop ends in the exit condition the theorem below is about |
| Beam.BeamSearchExit | internal/index/hnsw/graph.go:580-644 | results are sorted, distinct, live; live visited nodes left out are no closer; visited nodes strictly closer than some result were expanded; fewer than ef means exactly the live nodes reachable from the entry |
| HnswState.InsertUpserts | internal/index/hnsw/graph.go:337-437 | an insert is an upsert on the live map and keeps ids and slots in bijection and the live count exact |
| HnswState.DeleteRemoves | internal/index/hnsw/graph.go:809-821 | a delete removes exactly that id from the live map and keeps the same invariant |
| HnswState.BatchUpserts | internal/index/hnsw/batch.go:29-57 | inserting pairs in order does to the live map what the engine's log fold says |
| HnswState.SetLinksKeeps | internal/index/hnsw/graph.go:218-232 | storing a valid list keeps every list valid: existing slots, no self-link, no repeat, at most 2M at layer 0 and M above |
| HnswState.LinkBudget | internal/index/hnsw/graph.go:444-449 | in a valid graph every list has at most 2M links at layer 0 and M above, to other existing nodes, each once |
| Hnsw.ChosenIsSpread | internal/index/hnsw/graph.go:663-682 | no kept neighbour is closer to an earlier kept one than to the base node |
| Hnsw.ChosenIsMaximal | internal/index/hnsw/graph.go:663-682 | a candidate passed over while there was room is closer to some kept one than to the base node |
| Hnsw.ChosenIs | internal/index/hnsw/graph.go:663-682 | the exact choice: in order, a candidate is kept if and only if there is room left and no earlier kept one is closer to it than the base node is |
| Hnsw.ChosenTakesNearest | internal/index/hnsw/graph.go:663-682 | from candidates sorted closest first, one passed over is no closer than any kept one or has a kept one closer to it than the base node |
| Hnsw.ChosenDistinct | internal/index/hnsw/graph.go:653-682 | distinct candidates stay distinct |
| Hnsw.Graph.GreedyClosest | internal/index/hnsw/graph.go:499-514 | the greedy walk function's end: reachable from the entry, no farther than it, with no closer neighbour at that layer |
| Hnsw.GreedyWalks | internal/index/hnsw/graph.go:499-514 | the greedy walk moves each time to a nearest neighbour that is closer, and ends where no neighbour is closer |
| Hnsw.DescendPasses | internal/index/hnsw/graph.go:369-384 | descent is one such walk per layer from the top down, each from where the last one ended |
| Hnsw.OnwardIsNearest | internal/index/hnsw/graph.go:385-406 | the next lower search starts at the nearest node found other than the inserted one, or where this one started if there is none |
| Hnsw.ListedIs | internal/index/hnsw/graph.go:385-406 | a planned list has at most 2M ids at layer 0 and M above, all found by the search, and leaves a found node out only if full or if a listed one is closer to it |
| Hnsw.Graph.Search | internal/index/hnsw/graph.go:575-578 | a layer search of the current graph meets the beam search exit condition |
| Hnsw.Graph.Diverse | internal/index/hnsw/graph.go:663-682 | the double loop keeps exactly the candidates that had room and no closer kept one before them, in order |
| Hnsw.Graph.SelectNeighbors | internal/index/hnsw/graph.go:653-660 | the ids of that choice, which form a valid neighbour list within the cap |
| Hnsw.Graph.StoreLinks | internal/index/hnsw/graph.go:218-232 | the new state is the old one with that list stored, links still valid |
| Hnsw.Graph.AddLinks | internal/index/hnsw/graph.go:472-495 | the list becomes old members plus missing new ones, kept if it fits, else re-picked closest first; no other list changes, no layer is added if the node reaches it |
| Hnsw.JoinedIs | internal/index/hnsw/graph.go:472-495 | the joined list is the old one followed by the new members it lacks, in order and each once |
| Hnsw.RelinkedIs | internal/index/hnsw/graph.go:472-495 | a list over its budget keeps members nearest first with none closer to an earlier kept one, and drops one only for a kept one closer to it or because it is full of nearer ones |
| Hnsw.GainedIs | internal/index/hnsw/graph.go:417-421 | after linking back, a list with room holds its old members and the new node, and one over its budget is pruned in just that way |
| Hnsw.Graph.Plan | internal/index/hnsw/graph.go:369-406 | the searches form one trail, the highest starting where greedy descent from the entry point ends and each lower one at the nearest node found above; each layer's links are the heuristic's pick from its search without the node itself, empty above the old top, and reach their layer if all links did |
| Hnsw.Graph.LinkBack | internal/index/hnsw/graph.go:417-421 | exactly the lists the node links to gain an edge back to it, each pruned on its own |
| Hnsw.Graph.Place | internal/index/hnsw/graph.go:454-467 | the new state is the placed state, for new and existing ids |
| Hnsw.Graph.InsertLocked | internal/index/hnsw/graph.go:337-437 | keeps the graph invariant, has the skeleton of the insert function, links as planned plus back-links, and the entry point moved exactly on a new top or an unlinked node; a fresh insert into a graph without tombstones keeps levels exact |
| Hnsw.Graph.Insert | internal/index/hnsw/graph.go:323-333 | a refused vector changes nothing; otherwise as the locked insert |
| Hnsw.Graph.Delete | internal/index/hnsw/graph.go:809-821 | found if and only if the id was live; only the tombstone and count change; exact levels stay exact |
| Hnsw.InsertExact | internal/index/hnsw/graph.go:337-437 | a fresh insert keeps one list per layer, links within their layer and a full-height entry point if and only if it reaches the top layer or finds a layer-0 link |
| Hnsw.LinkFoundIff | internal/index/hnsw/graph.go:369-437 | a new node gets a layer-0 link if and only if something live can be reached there from where its search arrives |
| Hnsw.InsertFindsLink | internal/index/hnsw/graph.go:369-437 | with no tombstones and M above zero a new node always gets a layer-0 link |
| HnswBatch.MergeClosest | internal/index/hnsw/batch.go:208-224 | the two-index merge of a sorted and an unsorted list is a top-n of both together |
| HnswBatch.FreshIds | internal/index/hnsw/batch.go:59-73 | true if and only if no id is in the graph and none repeats |
| HnswBatch.FindCandidates | internal/index/hnsw/batch.go:93-110 | one trail of searches of the graph before the chunk, each layer's result thinned by the heuristic |
| HnswBatch.LinkForward | internal/index/hnsw/batch.go:112-143 | each member's list at each of its layers is picked from all its candidates and earlier chunk-mates, closest first, whatever order members are handled in |
| HnswBatch.MatesAre | internal/index/hnsw/batch.go:112-143 | a member's chunk-mates are exactly the earlier members that reach the layer, each once, at their true distances |
| HnswBatch.PicksAre | internal/index/hnsw/batch.go:112-143 | each forward list comes from a merge of all candidates and mates, has at most 2M ids at layer 0 and M above, and leaves one out only if full or if a listed one is closer to it |
| HnswBatch.CollectBackLinks | internal/index/hnsw/batch.go:145-169 | the groups hold every new edge and nothing else, one group per list they land on |
| HnswBatch.LinkBackAll | internal/index/hnsw/batch.go:170-173 | each group changes its own list as a function of that list at the start, so groups commute; no other list changes |
| HnswBatch.InsertChunk | internal/index/hnsw/batch.go:76-186 | a chunk of new ids leaves slots, vectors, levels, counters and top level of inserting them one by one, with links made by the stages above; in a graph without tombstones exact levels stay exact |
| HnswBatch.ChunkExact | internal/index/hnsw/batch.go:128-173 | placing, forward links and back-links keep one list per layer and links within their layer |
| HnswBatch.ChunkFinds | internal/index/hnsw/batch.go:93-173 | with no tombstones and M above zero every member of a chunk ends up with a layer-0 link, back-link pruning included |
| HnswBatch.InsertBatch | internal/index/hnsw/batch.go:29-57 | for every batch, repeated and present ids included, the same slots, vectors, levels, live count and top level as sequential inserts; all vectors are validated before anything changes; new ids keep a tombstone-free graph's levels exact |
| HnswBatch.Replay | internal/index/hnsw/graph.go:323-437 | over every run of inserts, batches and deletes the graph invariant holds and the live map is what the operations mean; from a graph without tombstones, inserts and batches of new ids followed by deletes keep levels exact |
| Compaction.LivePairs | internal/index/hnsw/graph.go:256-272 | inserting the live pairs in slot order into nothing gives the live map |
| Compaction.Compact | internal/index/hnsw/graph.go:256-272 | the new graph has the same live map, no tombstones and exact levels; the old one is untouched |
| Compaction.CompactIfDue | internal/engine/engine.go:1144-1155 | keeps the live map; compacts if and only if there are at least 256 tombstones and more of them than live nodes; fails only on a stored vector that validation refuses, and then keeps the graph |
| Restore.Snapshot | internal/index/hnsw/graph.go:699-726 | the export names every link by id and keeps vectors, levels and tombstones in slot order |
| Restore.BeginRestore | internal/index/hnsw/graph.go:737-746 | succeeds if and only if no id repeats, and then maps the i-th id to slot i |
| Restore.ReadLayerIds | internal/index/hnsw/graph.go:765-777 | stamped marks refuse exactly an unknown id, the node itself or a repeat |
| Restore.RestoreNode | internal/index/hnsw/graph.go:750-785 | accepts a node if and only if it is next, has one list per layer, the right dimension and sound lists; the graph then has it appended |
| Restore.EndRestore | internal/index/hnsw/graph.go:788-803 | refuses missing nodes and an unknown entry point, otherwise sets entry point and top level |
| Restore.RestoreExport | internal/index/hnsw/graph.go:699-803 | export then restore is the identity on every valid graph with one list per layer |
| Restore.RebuiltIsSound | internal/index/hnsw/graph.go:728-803 | whatever nodes are offered, an accepted restore has ids and slots in bijection, an exact live count, one list per layer and sound links; nodes without an entry point are accepted too and are the only thing that can be amiss |
| Rebuild.RestoredExactly | internal/index/hnsw/graph.go:728-803 | a restore accepts exactly exports with distinct ids, one list per layer, the right dimension, layers naming other nodes once each and a known entry point; the graph then has these nodes in order, linked as named, layer 0 cut at 2M |
| Segment.SkipAgrees | internal/storage/segment/snapshot.go:397-478 | over every byte string the reading pass succeeds if and only if the skipping pass does and the node's own marks are right, and then both advance alike with the same id and dimension |
| Segment.NodeRoundTrip | internal/storage/segment/snapshot.go:142-183 | a written node reads back as itself if and only if it has one list per layer, a level of at most 64 and sizes that fit their fields |
| Segment.SnapshotRoundTrip | internal/storage/segment/snapshot.go:104-395 | writing then loading gives the same graph and log position if and only if every node has one list per layer and no level exceeds 64 |
| Segment.UnsavableIsRefused | internal/storage/segment/snapshot.go:262-395 | the file written for a valid graph with a node that does not have one list per layer, or a level over 64, is refused, if sizes fit their fields |
| Segment.LoadedIsSound | internal/storage/segment/snapshot.go:262-395 | any file that loads, in either version, gives a sound graph of savable shape |
| Canonical.LoadsExactly | internal/storage/segment/snapshot.go:262-395 | a file of either version loads as a graph at a log position if and only if it is byte for byte what that version writes for a storable snapshot with that position that restores to that graph; version 2 with the configured dimension and metric |
| Canonical.OtherFiles | internal/storage/segment/snapshot.go:262-306 | no other beginning loads, and only an empty file is a fresh database |
| Canonical.WrongByteIsRefused | internal/storage/segment/snapshot.go:262-306 | a version 2 file with any one byte after its first eight changed is refused |
| Segment.ExactLoads | internal/storage/segment/snapshot.go:460-462 | graphs with exact levels, which compaction and tombstone-free runs of new ids produce, load back unchanged |
| Segment.ReinsertLowerBreaksSaving | internal/index/hnsw/graph.go:337-437 | insert a node at level 1, insert it again at level 0, insert another at level 1: for every metric, limit and vector the graph is then one that no file loads as, and the file written for it is refused |
| Loader.WriteNodeTo | internal/storage/segment/snapshot.go:142-183 | the writer's loops append exactly the node format |
| Loader.WriteSnapshot | internal/storage/segment/snapshot.go:104-140 | header, nodes and checksum trailer make the file format |
| Loader.Cursor.SkipOne | internal/storage/segment/snapshot.go:399-429 | the cursor skips as the skipping function says, failing on the same bytes |
| Loader.Cursor.ReadOne | internal/storage/segment/snapshot.go:432-478 | the cursor decodes as the reading function says, independent of the reused buffers |
| Loader.LoadHead | internal/storage/segment/snapshot.go:308-355 | the header is accepted and read as the header function says |
| Loader.SecondPass | internal/storage/segment/snapshot.go:381-390 | reading and restoring node by node equals reading all nodes and then restoring them |
| Loader.Load | internal/storage/segment/snapshot.go:262-395 | the whole loader, refusals included, computes the load function of the file |
| Filters.EqIsFixed | internal/engine/filter.go:64-93 | equality holds exactly of metadata that setting the key to the value leaves unchanged |
| Filters.ValueOperators | internal/engine/filter.go:64-93 | not-equal, in, not-in and exists in terms of equality alone: its negation, some value, no value, any value; a missing key matches not-equal and not-in |
| Filters.NumberOperators | internal/engine/filter.go:64-93 | each comparison for a number above, below and at the bound; a missing value or one that is no number matches none |
| Filters.ValidFilters | internal/engine/filter.go:40-61 | which filters are refused: the wrong number of values for the operator, or a bound that is no number |
| Filters.MatchesAllIs | internal/engine/filter.go:96-103 | metadata matches a list of filters exactly when it matches each |
| Filters.IndexedUnique | internal/engine/engine.go:989-1028 | the postings are determined by the metadata: any history of updates and a rebuild give the same map |
| Filters.Index.SetMeta | internal/engine/engine.go:1010-1028 | metadata is replaced or cleared and the postings stay exactly its index |
| Filters.BuildPostings | internal/engine/engine.go:989-1006 | the built postings are exactly the index of the metadata |
| Candidates.OnceIffClear | internal/engine/engine.go:910-957 | every Eq or In filter lists each of its matches exactly once if and only if no stored metadata has a pair whose posting key reads as another stored key with a different value |
| Candidates.NoNulIsClear | internal/engine/engine.go:987 | keys without a NUL character are never in that situation |
| Candidates.ConfusableExists | internal/engine/engine.go:987 | such metadata exists |
| Candidates.CandidatesCover | internal/engine/engine.go:910-957 | whatever the metadata, candidates are matches only and every match is among them |
| Candidates.BestIsLeast | internal/engine/engine.go:914-934 | the picked filter allows no more ids than any other Eq or In filter |
| Candidates.PoolIs | internal/engine/engine.go:910-947 | a limited pool is offered if and only if some Eq or In filter lists no more ids than the limit, and is the list of one with fewest; without a limit it is that, or all live ids if there is no such filter |
| Candidates.FilterCandidates | internal/engine/engine.go:910-957 | refuses exactly the too broad filters, and returns the pool members matching every filter as often as the pool lists them |
| Candidates.CandidatesExact | internal/engine/engine.go:910-957 | with clear metadata the candidates are the matching ids, each once |
| Query.ExactSearch | internal/index/hnsw/graph.go:892-930 | the scan has brute force's distances over the live listed ids, and returns only such ids at their true distances |
| Query.LiveIdsAre | internal/index/hnsw/graph.go:287-297 | the id listing holds each live id once and nothing else |
| Query.ScanIsExact | internal/engine/engine.go:864-871 | on the scan path the answer is a top-k of all live matches and has brute force's distances |
| Query.ScanIsSound | internal/engine/engine.go:864-871 | whatever the metadata, a scanned answer holds only live matches at true distances, nearest first, and misses a live match only when full of entries no farther; repeats are all that can go wrong |
| Query.GraphSearch | internal/index/hnsw/graph.go:838-880 | nothing for a topK of zero or less; otherwise the first topK of a layer-0 beam search of width max(ef, topK) from where greedy descent ends: live nodes at true distances, nearest first, none left out that the search saw and is nearer than a hit; fewer than asked for means everything live reachable there |
| Query.FirstOfBeam | internal/index/hnsw/graph.go:838-880 | the first topK a beam search found: no live node it saw is left out for a farther one, and if fewer, every live node reachable is among them |
| Query.FilterMatches | internal/engine/engine.go:969-985 | the first topK matching hits in order, or all of them when topK is zero, where matching is as the operators' rows say |
| Query.Search | internal/engine/engine.go:845-904 | validation; a filter listing few enough ids is scanned for at once; otherwise at most three walks, all but the last too short, each of the stated width, then a scan of all matches; the answer is of the last of them |
| Query.WidthGrows | internal/engine/engine.go:851-895 | a first walk is max(ef or 64, topK) wide, four times that with filters, and each later one four times as wide |
| Query.WalkIsSound | internal/engine/engine.go:874-895 | an answer found by walking holds only live matches at true distances, nearest first, at most topK unless topK is zero; a live match the walk saw is missing only from a full answer with no farther hit; if short, every live match layer 0 reaches is in it |
| Ring.RingIsUnique | internal/cluster/ring/ring.go:84-116 | without hash ties between nodes the node set alone determines the ring |
| Ring.OwnersAre | internal/cluster/ring/ring.go:154-182 | owners are distinct ring members, min(n, nodes) of them, and shorter lists are prefixes of longer ones |
| Ring.AddMovesOne | internal/cluster/ring/ring.go:84-98 | a joining node enters each shard's full order at one place, nothing else moves, and every owner list is a cut of that order |
| Ring.AddIsMinimal | internal/cluster/ring/ring.go:147-182 | an owner list changes only by taking in the joining node at one place and cutting off the overflow |
| Ring.RemoveUndoesAdd | internal/cluster/ring/ring.go:100-116 | removing a joined node gives the old ring back point for point |
| Ring.AddUndoesRemove | internal/cluster/ring/ring.go:84-116 | adding a removed node gives the old ring back point for point |
| Ring.JoinOrderIsIrrelevant | internal/cluster/ring/ring.go:84-98 | two nodes may join in either order |
| Ring.FirstAtLeast | internal/cluster/ring/ring.go:167 | binary search splits the sorted points at the hash |
| Ring.OwnersClockwise | internal/cluster/ring/ring.go:154-182 | for every ring and hash, owners are in the order of their first points clockwise from the hash |
| Ring.HashRing.AddNode | internal/cluster/ring/ring.go:84-98 | keeps exactly the virtual points of the node set, sorted; a present node is a no-op |
| Ring.HashRing.RemoveNode | internal/cluster/ring/ring.go:102-116 | drops exactly that node's points |
| Ring.HashRing.OwnerOf | internal/cluster/ring/ring.go:133-145 | None on an empty ring, else the node of a point that faces the shard's hash: the nearest clockwise from it, or the lowest of all if none is at or past it; the first of the owners |
| Ring.HashRing.OwnersOf | internal/cluster/ring/ring.go:154-182 | the loop with wrap-around gives min(n, nodes) owners, each with a point no later clockwise from the shard's hash than any point of a node not yet listed |
| Topology.Node.Apply | internal/cluster/raft/fsm.go:124-160 | the in-place edits equal the command's function of the state |
| Topology.CommandsKeepReplicasApart | internal/cluster/raft/fsm.go:124-160 | no command lists a replica of a shard twice |
| Topology.FixShard | internal/cluster/cluster.go:201-242 | one shard's proposals balance it, touch no other shard, and are none if it is balanced |
| Topology.Cluster.Refresh | internal/cluster/cluster.go:82-95 | the new ring covers exactly the known nodes, in whatever order they are added |
| Topology.Cluster.Rebalance | internal/cluster/cluster.go:195-244 | from any state a completed call leaves every shard led and replicated exactly as the ring asks; on a balanced state nothing is proposed |
| Topology.Cluster.Leave | internal/cluster/cluster.go:330-347 | after a completed leave with survivors the node leads and replicates no shard |
| Topology.Cluster.Join | internal/cluster/cluster.go:312-325 | after a completed join every shard is balanced on a ring of exactly the known nodes |
| Topology.JoinMovesLittle | internal/cluster/cluster.go:187-244 | between balanced states a join moves a shard's leadership and replicas only onto the node that joined |
| Topology.Cluster.Failover | internal/cluster/cluster.go:253-285 | no-op unless the dead node leads; otherwise a replica takes over that no answering replica is ahead of |
| Kmeans.Nearest | internal/index/pq/kmeans.go:16-23 | the first of the nearest centroids |
| Kmeans.NearestIsCheapest | internal/index/pq/kmeans.go:15-28 | the nearest assignment costs no more than any other |
| Kmeans.MeanIsCheapest | internal/index/pq/kmeans.go:42-50 | any coordinate value costs n times its squared distance to the mean more than the mean |
| Kmeans.MeansAreCheapest | internal/index/pq/kmeans.go:42-50 | for a fixed assignment means beat every other choice of centroids, empty clusters included |
| Kmeans.LloydDescends | internal/index/pq/kmeans.go:13-55 | one iteration never raises the total squared distance |
| Kmeans.Tally | internal/index/pq/kmeans.go:30-41 | the pass computes every cluster's size and coordinate sums |
| Kmeans.MoveToMeans | internal/index/pq/kmeans.go:42-50 | non-empty clusters end at their means, empty ones stay, the cost does not rise |
| Kmeans.Run | internal/index/pq/kmeans.go:8-57 | each round assigns every point to a nearest centroid and moves the non-empty ones to their means, costs never rise from round to round; an early exit leaves every non-empty centroid the mean of its points and every point at a nearest centroid |
| Kmeans.EarlyExitIsLocallyBest | internal/index/pq/kmeans.go:52-54 | after an early exit neither other centroids nor another assignment alone would be cheaper |
| Quantizer.AdcIsExact | internal/index/pq/codebook.go:217-235 | the sum of table lookups is the squared distance to the decoded vector |
| Quantizer.EncodeIsOptimal | internal/index/pq/codebook.go:151-170 | no code of all K^M decodes closer to the vector than the encoder's |
| Quantizer.Encode | internal/index/pq/codebook.go:151-170 | a nearest centroid index per subspace, or a refusal exactly of lengths other than subspaces times sub-dimension |
| Quantizer.Decode | internal/index/pq/codebook.go:175-188 | the assigned centroids in order, or nothing for a malformed code |
| Quantizer.Distance | internal/index/pq/codebook.go:223-235 | the squared distance to the decoded vector, infinite exactly for malformed codes |
| Quantizer.FlatIndex.Insert | internal/index/pq/index.go:35-44 | stores a nearest code under the id and changes no other entry |
| Quantizer.FlatIndex.Search | internal/index/pq/index.go:81-113 | a top-k of all stored codes by distance to the query |
| Ivf.ProbesAre | internal/index/pq/ivf.go:61-76 | probed lists are distinct, min(n, lists) of them, and none left out is nearer |
| Ivf.IvfIndex.Insert | internal/index/pq/ivf.go:80-95 | the index as one map changes at that id only, the id is in exactly one list, a nearest one |
| Ivf.IvfIndex.Delete | internal/index/pq/ivf.go:98-105 | the index as one map loses that id only |
| Ivf.IvfIndex.Search | internal/index/pq/ivf.go:117-149 | a top-k of the codes filed under the probed lists |
| Ivf.ProbingAllIsFlat | internal/index/pq/ivf.go:114-149 | probing every list has the same sorted distances as the flat scan of the same contents |
| Router.ReplacePart | internal/cluster/router/router.go:236-250 | cutting one part of a collection to its own top k does not change the top k of the whole |
| Router.SameShardIff | internal/cluster/router/router.go:42-51 | ids share a shard exactly when their hashes differ by a multiple of the number of shards |
| Router.MergeIsTopK | internal/cluster/router/router.go:304-323 | sorting and cutting what the answering shards sent, however ties fall, is a top-k of everything they hold |
| Router.ScatterGatherIsExact | internal/cluster/router/router.go:42-51 | if each shard answers exactly for the ids hashed to it, the merged list, however ties fall, is a top-k of the whole collection with no id twice |
| Router.Merge | internal/cluster/router/router.go:251-331 | refused exactly on invalid arguments, an error exactly when no shard answered, partial exactly when some did and some did not; failed shards are reported exactly and the rest is gathered, sorted and cut |

## Left out
- Float rounding, normalisation of cosine vectors (`prep`), NaN and infinity: distances are reals and validation is a predicate parameter.
- Wrap-around of 64-bit sequence numbers and of the 32-bit restore stamp; slots are unbounded numbers.
- Storage layout of vector and link blocks, of flattened centroid matrices and distance tables, mmap arenas, prefetching and SIMD kernels.
- Locks, contexts and cancellation, goroutine pools and the pool of visited sets; a parallel stage is modelled by showing its pieces independent of order.
- JSON encoding of metadata and topology commands: treated as lossless.
- Directory fsync failures: a rename is atomic and ordered; the log's own fsync and short writes are modelled.
- CRC-32 is modelled exactly; that different records can share a checksum is part of every statement.
- Durability.StepKeepsInv: records are within the reader's bound and no rotation keeps whole frames of a failed write, because Durability.CommittedReadsBackIff and Durability.RotationAfterFailedWrite show that startup fails exactly there.
- Durability.RunKeepsInv: the same two conditions on every step of the run.
- Durability.AcknowledgedRecordsSurvive: the same two conditions on every step of the run.
- Commits.StepKeepsInv: the same two conditions on every step of the log.
- Commits.SuccessIsDurable: the same two conditions; one life of the engine, on a disk any earlier life may have left.
- Replication.StepKeepsInv: no rotation keeps whole frames of a failed write; Replication.FollowerHoldsOnlyLeaderFrames is the statement without that condition.
- Replication.FollowerIsAPrefix: one leader that stays up and a follower that starts empty or as a prefix, because a checksum match at one number does not compare earlier records (Replication.AnyFollower is the statement for any follower); a follower whose own append fails is one whose connection drops before or after that record; a frame of 4 GiB or more, whose length field wraps around, counts as unreadable.
- Hnsw.Graph.InsertLocked: recall and connectivity are not stated, because pruning may drop links.
- Hnsw.Graph.AddLinks: equal distances are ordered stably when a list is pruned, where the code's sort leaves their order open.
- Segment.SnapshotRoundTrip: metric names of 256 bytes and more are excluded, because the length field is one byte.
- Loader.Load: the three error kinds of the loader are one refusal.
- Filters.Index.SetMeta: number parsing is a parameter, so NaN and infinite filter bounds are not modelled.
- Query.Search: a negative topK is left out, because the code then asks for a buffer of negative size; metadata read after the index answered is the same metadata.
- Query.FilterMatches: a negative topK is left out for the same reason.
- Ring.AddMovesOne: assumes no two nodes share a point hash, because the sort is not stable.
- Topology.Cluster.Failover: a replica with the empty id is excluded, because the code reads it as none.
- Kmeans.Run: k-means++ seeding is left out; initial centroids are a parameter.
- Quantizer.FlatIndex.Search: the re-ranking stage is left out; it would only add a sort and a cut.
- Ivf.ProbesAre: lists at equal distances are probed in index order, where the code's sort leaves their order open.
- Ivf.IvfIndex.Search: replacing the heap root in place is modelled as pop and push.
- Router.Merge: retries, dialing, match metadata and match ids that are no numbers are left out; an unanswered shard is one that stayed failed; equal distances are ordered stably, where the code's sort leaves their order open.
- Raft itself, transports, gRPC, the HTTP gateway, authentication, tenants, quotas, health probing, the CLI, clients and benchmarks.
