# lug, proved

lug is an append-only log daemon. This project models the slice of it that is hard to
get right, from bytes on a disk to a mirror in a client, and proves what each layer
promises. Where one layer stands on another the step is proved too: the segment store
keeps the contract the log assumes of a storage (`storage_contract.dfy`), every run of the
actor is a run of the steps its streams are proved against (`shared.dfy`), and a follower
fed what a stream pushes keeps up with it (`end_to_end.dfy`).

| layer | files |
|---|---|
| segment store | `wal_format.dfy`, `wal_sys.dfy`, `wal_segment.dfy`, `wal_store.dfy`, `wal_segment_store.dfy`, `wal_runs.dfy` |
| persistent maps, patches, versioned store | `avl.dfy`, `value.dfy`, `patch.dfy`, `patch_code.dfy`, `mvcc.dfy` |
| log over a structure and a storage | `log.dfy`, `reducible.dfy`, `storage_contract.dfy` |
| group commit and fan-out | `shared.dfy`, `group_commit.dfy`, `queue.dfy`, `actor.dfy`, `slips.dfy`, `ring.dfy`, `stream.dfy` |
| client | `credit.dfy`, `follower.dfy`, `end_to_end.dfy` |
| checkers and codecs | `ledger.dfy`, `codec.dfy`, `ts_fold.dfy` |
| shared by all | `common.dfy` |

`dafny verify dfyconfig.toml` checks everything.

**Segment store.** A file is its bytes and, for each byte, every value it has had since the
last flush; a power cut leaves any of them. That is harsher than the repository's own fault
model, which only drops unflushed ranges to zero. Every vectored write and every zeroing
write follows an arbitrary schedule of short writes, interruptions and errors. The checksum
is a parameter; after a power cut, a failed cleanup or on a directory not yet scanned,
recovery assumes `Format.Detects`: the first slot of the last segment that does not hold
exactly the record laid down there does not parse. Otherwise nothing is assumed of the
checksum. A run is any sequence of appends, flushes, checkpoints, reclamations, restarts and
power cuts.

**Maps, values, patches.** Nodes and values are objects with constant fields, so reference
equality is pointer equality and an old map cannot change. What a patch means is stated key
by key (`Patches.Allows`, `Patches.After`); the loops, the shared path buffer and the pointer
tests are proved against that. A version is minted exactly when the document changes.

**Log.** The structure is a fold function, and the versioned store is proved to keep what
that structure keeps. The storage is an object whose every call may fail; a schedule it
carries (`fates`) says which calls do, whether they write, flush, publish, load or read, and
every operation of the log says what it does for each. A log carries its whole history as
ghost state and is proved to stay on it.

**Group commit, fan-out.** `Actor.Commit` and `Actor.Drain` refine one request at a time
(`SerialView`, `SerialMade`, `SerialVerdicts`), applied to the requests whose write the
storage did not refuse (`KeptJobs`, `KeptOf`). What an actor lets others see moves only by
`SharedState.Step`; a stream runs against a server that takes any number of these between
any two steps of the stream, and against a storage that may refuse any read. What happens
around a turn of the stream is an argument (`Streams.Turn`), and what the stream does is
stated exactly for each (`Streams.Turned`, `Streams.TurnedAll`).

**Client.** Credit is a link with two queues, and a command queue that may be full at any
try. The follower is fed any sequence of frames a correct server could send, over an event
channel that may stall at any moment, while its consumer and its holders may leave at any
moment. All of that is given as arguments (`Credit.Act`, `Followers.Move`), and where it
leads is stated exactly (`Credit.Reached`, `Followers.Subscribed`, `Followers.Followed`).

Some statements of the repository turn out to need a condition:

- The documentation of `truncate` (`crates/cavlc/src/mvcc.rs:129-132`) says that a batch
  based on a discarded version is always rejected. It is not when the version has been minted
  again: `Mvcc.HeldAcrossTruncate` builds such a store, and `Mvcc.Store.ApplyBatch` states
  when the log still replays, namely when the batch's patches take the current document to
  the batch's.
- The storage contract says that a failed append leaves the store as it was
  (`crates/lug-core/src/storage.rs:48-52`). Where the cleanup fails too, a load brings back
  the records of the batch that are still there byte for byte, and no others
  (`SegmentStore.SegmentStore.Append`): the store is as it was exactly when the first of them
  is not. `WalRuns.RefusedReturns` is a run in which refused records return.
- Group commit is one request at a time exactly when no flush fails after its write. Where
  one does, the records stay, are not handed to the ring, and the requests are submitted
  again (`crates/lug-core/src/log.rs:168-183`, `crates/lug-server/src/actor.rs:200-203`).
  The log counts such failures in `slips`. `Actors.Actor.Commit`, `Actors.Actor.Isolate` and
  `Actors.Actor.Drain` have the serial effect if and only if the count does not move, however
  many writes fail: every slip leaves a version that was acknowledged to nobody. The flush of
  a whole group fails so exactly when the group is accepted and changes something, its
  strongest durability asks for a flush, its write works and the next call does not
  (`Logs.Log.Slips`, in `Actors.Actor.Attempt` and `Actors.Actor.Commit`); the log then holds
  the group and on top of it each request once more. `Slips.Strand` builds such a run for any
  three numbers.
- A read of the ring is to give the records just above a cursor
  (`crates/lug-server/src/ring.rs:53-73`). It counts from the front, so the ring has to be
  the end of the log, and is until such a flush fails: the ring is given what is
  acknowledged and nothing else. In `Slips.Strand` it then holds versions 1, 4 and 5, and a
  read above 1 hands out 4 and 5: a stream there passes over 2 and 3 without a gap. The ring
  is the end of the log again exactly once the versions it never saw lie below its front
  (`Actors.Actor.WholeWhen`), and until then a read hands out the log's own run exactly when
  its last version lies as far above the cursor as it is long (`SharedState.ReadAcross`).
  What a stream was pushed before, and what the actor answers from storage, stay right in
  any case (`Streams.AcrossDrain`, `Actors.Actor.CatchUp`).
- A follower's events leave no silent jump (`crates/lug-client/src/follower.rs:236-243`)
  unless a gap is abandoned because every handle closes while it waits for room and the
  consumer keeps its receiver. What is given after that jumps exactly when the consumer
  stands below what is due to it (`Followers.Task.EmitRecord`, `Followers.Task.EmitGap`): a
  record keeps the events without a silent jump if and only if they had none and the consumer
  stood at the cursor, or at what it was owed (`Followers.Task.FoldOne`). In every run the
  events tell of the log alone, and there are no more jumps than abandoned gaps
  (`Followers.Task.Accounted`). `Followers.SilentAfterClose` reaches a jump by the frames of a
  plain log, for every history of three patches.
- After a jump inside a batch the rest of the batch is left unfolded; on a plain log the
  cursor then stands just below the record that jumped (`Followers.Task.Fold`). A stream
  never sends such a batch (`EndToEnd.FrameIsFair`).
- A frame limit above the decoder's own (`ts/src/codec.ts:11`) lets frames be made that a
  decoder refuses or, past four bytes of length, reads short: `Codec.FrameTaken` says which.
- The load tester's payload check (`crates/lug-load/src/check.rs:171-185`) reads upper-case
  digits and a leading plus as well. `Ledgers.ReadExact` states when a payload that passes is
  the payload that was sent; `Ledgers.ChangedUnnoticed` gives one that is not.

## Model

| member | source | states |
|---|---|---|
| Format.SplitInvertsPrefix | crates/lug-wal/src/format.rs:50-64 | splitting a record prefix gives back length, checksum and version |
| Format.PrefixBytes | crates/lug-wal/src/format.rs:50-56 | byte by byte, what a prefix holds: length, checksum and version, the lowest byte of each first |
| Format.ScanFindsIntact | crates/lug-wal/src/segment.rs:40-91 | whatever a crash did to the slots, a scan returns exactly the leading records that are still intact and stops just past them |
| Format.ScanInvertsEncode | crates/lug-wal/src/segment.rs:54-91 | scanning encoded records followed by any zero padding returns them all and their end |
| Format.IntactAtLeast | crates/lug-wal/src/segment.rs:86-89 | records that are there byte for byte are never missed |
| Format.LandedIntact | crates/lug-wal/src/segment.rs:54-91 | of records of which some landed whole on zeros, exactly these are intact, and no checksum at all could take the zeros for more |
| Sys.Disk.PwritevAll | crates/lug-wal/src/sys.rs:19-34 | for every schedule of short and interrupted writes and batches over 1024 buffers, exactly a prefix of the bytes lands at the offset, all of them exactly when the schedule lets the last of them through; one short write and an error leave exactly the short write |
| Sys.Disk.ZeroRange | crates/lug-wal/src/sys.rs:53-63 | a prefix of the range becomes zero in 64 KiB steps, all of it exactly when the schedule lets every step through |
| Sys.Disk.Fdatasync | crates/lug-wal/src/sys.rs:66-71 | a flush that works leaves each byte one possible value; one that fails promises nothing |
| Sys.Disk.PowerCut | crates/lug-wal/src/sys.rs:184-216 | each file comes back as any of the things its unflushed bytes allow |
| Segment.WriteBatch | crates/lug-wal/src/lib.rs:469 | a batch, or any part of it that landed, keeps the segment's byte invariant |
| Segment.BatchWritten | crates/lug-wal/src/lib.rs:463-469 | what landed of a batch stands on zeros |
| Segment.ZeroBatch | crates/lug-wal/src/lib.rs:476-478 | zeroing a failed batch and flushing makes every byte above the logical end zero and nothing else |
| Segment.CrashHolds | crates/lug-wal/src/lib.rs:9-16 | a power cut keeps the byte invariant of a segment |
| Segment.ScanRecovers | crates/lug-wal/src/segment.rs:40-91 | recovery of one file finds everything flushed and everything showing, and never more than was laid down |
| Wal.CrashOnDisk | crates/lug-wal/src/lib.rs:9-16 | a power cut keeps the invariant of the whole directory |
| SegmentStore.ScanSegment | crates/lug-wal/src/segment.rs:40-91 | the scan loop computes the scan function, or stops just past the first record where the visitor asks, and then reports nothing torn |
| SegmentStore.SegmentStore.Recover | crates/lug-wal/src/lib.rs:260-332 | never fails on what a run can leave; accepts exactly what a scan finds byte for byte, keeps all that was durable and all that was accepted, cuts the torn tail, lifts the poison |
| SegmentStore.SegmentStore.Load | crates/lug-wal/src/lib.rs:524-531 | returns the header and exactly the accepted records above it; what is accepted is what was intact on disk; a store that is not poisoned needs no assumption of the checksum |
| SegmentStore.SegmentStore.Rotate | crates/lug-wal/src/lib.rs:344-361 | closes the active segment and starts an empty one named for the next version, changing no record |
| SegmentStore.SegmentStore.Append | crates/lug-wal/src/lib.rs:410-490 | accepts exactly the batches that fit the next version, and says what is wrong with the first record that does not; on success adds them, on a cleaned failure restores the store with all of it flushed; on a failed cleanup refuses every append until a load, which will bring back exactly the leading records still there byte for byte; says which these are when the write stopped after whole records, which of these outcomes the faults lead to, and in which segment the batch is laid |
| SegmentStore.SegmentStore.Place | crates/lug-wal/src/lib.rs:440-490 | a batch goes into the last segment unless there is none or it has reached its size, and then into a new one named for its first version; no batch is split, and the other segments keep their names and ends |
| SegmentStore.SegmentStore.WholeShows | crates/lug-wal/src/segment.rs:40-91 | unless a cleanup has failed a scan finds exactly what was accepted, whatever the checksum |
| SegmentStore.SegmentStore.Cleanup | crates/lug-wal/src/lib.rs:469-486 | either everything above the logical end is zero and flushed or the store is poisoned |
| SegmentStore.SegmentStore.Sync | crates/lug-wal/src/lib.rs:517-522 | a flush that works makes all that is accepted durable |
| SegmentStore.SegmentStore.ReclaimOne | crates/lug-wal/src/lib.rs:369-374 | drops the oldest segment exactly when the header covers all of it |
| SegmentStore.SegmentStore.Reclaim | crates/lug-wal/src/lib.rs:369-380 | drops exactly the segments the header covers, from the front and never the last, and only records the header covers |
| SegmentStore.SegmentStore.WriteHeader | crates/lug-wal/src/lib.rs:492-515 | for any version: the header appears only over flushed records, and exactly the segments it covers go; the store stays sound exactly when nothing above the header's version was dropped and everything up to it is flushed; a failed flush changes nothing |
| SegmentStore.SegmentStore.SegmentFor | crates/lug-wal/src/lib.rs:383-385 | the last segment named at or below a version |
| SegmentStore.SegmentStore.ReadAfter | crates/lug-wal/src/lib.rs:533-562 | exactly the first `limit` records above the cursor of those a scan would find, across segments, which are the accepted ones unless a cleanup has failed; a refusal below the oldest |
| WalRuns.Machine.Append | crates/lug-wal/src/lib.rs:410-490 | an append with any faults is a step of a run; one that stops after whole records and cannot be zeroed leaves exactly these to be found |
| WalRuns.Machine.Restart | crates/lug-wal/src/lib.rs:524-531 | a reload accepts exactly what a scan finds and resumes a contiguous run above the header; the checksum matters only after a failed cleanup |
| WalRuns.Machine.PowerCut | crates/lug-wal/src/lib.rs:260-332 | a power cut and a fresh store resume a contiguous run above the header |
| WalRuns.Machine.SegmentsFull | crates/lug-wal/src/lib.rs:442-448 | in every state of every run each segment but the last has reached the size at which it is closed |
| WalRuns.DurableForever | crates/lug-wal/src/lib.rs:9-16 | over whole runs, a flushed record stays until a header covers it |
| WalRuns.DurableOrGone | crates/lug-wal/src/lib.rs:369-380 | over whole runs, a flushed record stays until its whole segment goes, and no version below the first one stored is stored again |
| WalRuns.NothingComesBack | crates/lug-wal/src/lib.rs:469-475 | over whole runs, no record appears that was not there before and not offered since |
| WalRuns.AcceptedAcrossRestarts | crates/lug-wal/src/lib.rs:524-531 | without a power cut an accepted record stays until a header covers it |
| WalRuns.DurableUnique | crates/lug-wal/src/lib.rs:293-303 | no later state of a run holds another record at the version of a durable one, whether that one is still stored or long reclaimed |
| WalRuns.HeaderGrows | crates/lug-wal/src/lib.rs:492-515 | over whole runs the header never goes back |
| WalRuns.RefusedReturns | crates/lug-wal/src/lib.rs:469-486 | for any batch, write and zeroing that stop after some whole records of it: the append is refused and a reload returns these records |
| StorageContract.Append | crates/lug-core/src/storage.rs:41-64 | under any faults, to the log that writes it a batch is appended whole or not at all; to a load or a read it is so exactly unless the write stopped after some whole records that could not be cleaned up |
| StorageContract.Sync | crates/lug-core/src/storage.rs:75-76 | a flush that works puts all that was written out of reach of a power cut |
| StorageContract.WriteHeader | crates/lug-core/src/storage.rs:66-73 | a checkpoint at a written version stands over flushed records and drops only what it covers |
| StorageContract.Load | crates/lug-core/src/storage.rs:78-79 | of what a scan would find, a load gives the header and at least the records above it and changes nothing; the store stands by all of it afterwards |
| StorageContract.ReadAfter | crates/lug-core/src/storage.rs:81-83 | of what a scan would find, a read gives the first records above the cursor; it is refused exactly below the oldest version |
| StorageContract.PowerCut | crates/lug-core/src/storage.rs:53-55 | a power cut loses only what no flush covers and keeps at most a beginning of a batch that could not be cleaned up |
| StorageContract.HigherIsAbove | crates/lug-core/src/storage.rs:81-83 | reading the records above a version and reading the decoded ones above it is the same |
| StorageContract.OldestIsFloor | crates/lug-core/src/storage.rs:85-86 | the oldest version of the store is the first record's, or the next one when there is none |
| Avl.Make | crates/cavlc/src/avl.rs:41-49 | a node over two separated trees is ordered with exact height and size |
| Avl.RotateLeft | crates/cavlc/src/avl.rs:51-58 | keeps the map and the order, and rearranges the subtrees |
| Avl.RotateRight | crates/cavlc/src/avl.rs:60-67 | the mirror image |
| Avl.Balance | crates/cavlc/src/avl.rs:69-93 | restores balance after a change of one level, keeps the map, costs at most one level, and returns the same node when nothing is to do |
| Avl.Insert | crates/cavlc/src/avl.rs:95-112 | map update on a valid tree, as a new root; height grows by at most one |
| Avl.RemoveMin | crates/cavlc/src/avl.rs:114-123 | removes exactly the least key |
| Avl.Remove | crates/cavlc/src/avl.rs:125-162 | map deletion on a valid tree; an absent key gives the very same root |
| Avl.RemoveRoot | crates/cavlc/src/avl.rs:145-160 | the root's place taken by its successor |
| Avl.Get | crates/cavlc/src/avl.rs:185-198 | finds what the map holds, with one step for each node on the way and so at most height steps |
| Avl.InOrderLists | crates/cavlc/src/avl.rs:224-242 | the in-order walk lists every entry once, by ascending key, and has the cached size |
| Avl.ListsUnique | crates/cavlc/src/avl.rs:224-242 | there is only one such listing of a map |
| Avl.Iter.PushLeft | crates/cavlc/src/avl.rs:227-234 | descending puts a subtree's in-order walk in front of what is still to come |
| Avl.Iter.Next | crates/cavlc/src/avl.rs:235-242 | hands out the in-order walk entry by entry |
| Avl.Populous | crates/cavlc/src/avl.rs:69-162 | a valid tree of height h has at least Fibonacci(h + 2) - 1 entries |
| Avl.LookupIsLogarithmic | crates/cavlc/src/avl.rs:185-198 | so two to the power of half the height is at most the size plus one |
| Values.Equal | crates/cavlc/src/value.rs:62-75 | pointer test, length test and entry-by-entry comparison decide exactly equality of documents |
| Values.FromJson | crates/cavlc/src/value.rs:78-91 | builds a value that stands for the document |
| Values.ToJson | crates/cavlc/src/value.rs:52-59 | reads the document back, so conversion is a round trip |
| Values.SameListing | crates/cavlc/src/value.rs:68-71 | two maps have equal documents exactly when their listings read the same |
| Patches.AppliedAt | crates/cavlc/src/patch.rs:161-217 | after a patch each key holds what that key's operation makes of it |
| Patches.FailureIsReal | crates/cavlc/src/patch.rs:161-165 | a reported failing path is one where the patch does not apply |
| Patches.MergedApplies | crates/cavlc/src/patch.rs:105-152 | on every document the merged patch applies exactly when the two in sequence do, with the same result |
| Patches.MergeCommutes | crates/cavlc/src/patch.rs:105-152 | merging is commutative |
| Patches.MergeAssociates | crates/cavlc/src/patch.rs:105-152 | merging is associative |
| Patches.GroupingIsFree | crates/cavlc/src/patch.rs:105-152 | one grouping of three patches merges exactly when the other does |
| Patches.MergeableSymmetric | crates/cavlc/src/patch.rs:141-145 | conflict is symmetric |
| Patches.ConflictIsReal | crates/cavlc/src/patch.rs:141-145 | a reported conflicting path is a conflict |
| Patches.MergedWellFormed | crates/cavlc/src/patch.rs:77-103 | what merging returns validates |
| Patches.SortUnique | crates/cavlc/src/patch.rs:130 | sorting forgets the order of the deletes |
| PatchCode.Validate | crates/cavlc/src/patch.rs:77-103 | accepts exactly patches that name each key once and never put an object under a leaf update |
| PatchCode.CreateAll | crates/cavlc/src/patch.rs:170-177 | succeeds exactly when every key is absent, then adds them all |
| PatchCode.UpdateAll | crates/cavlc/src/patch.rs:178-203 | succeeds exactly when every key is there and admits its update; stores back only values that changed |
| PatchCode.ApplyUpdate | crates/cavlc/src/patch.rs:183-198 | one update; the result is the same value exactly when the document is |
| PatchCode.DeleteAll | crates/cavlc/src/patch.rs:204-211 | succeeds exactly when every key is present, then removes them all |
| PatchCode.RanAt | crates/cavlc/src/patch.rs:170-211 | the three loops do to each key what its operation means |
| PatchCode.ApplyAt | crates/cavlc/src/patch.rs:161-217 | succeeds exactly when the patch applies, yields the patched document, returns the same pointer exactly when nothing changes, and fails with a path that does fail |
| PatchCode.Apply | crates/cavlc/src/patch.rs:154-159 | the same, with validation first and every error accounted for |
| PatchCode.MergeAt | crates/cavlc/src/patch.rs:113-152 | the loops succeed exactly when the patches merge, return the merge, and fail with a path that conflicts |
| PatchCode.Merge | crates/cavlc/src/patch.rs:107-111 | the same, both sides validated first |
| PatchCode.ViewMerged | crates/cavlc/src/patch.rs:105-152 | merging patches over values is merging what they say |
| Mvcc.Batch.Apply | crates/cavlc/src/mvcc.rs:63-70 | a failing patch leaves the batch alone and is refused for what is wrong with it; a patch is recorded exactly when it changes the document |
| Mvcc.Store.ApplyBatch | crates/cavlc/src/mvcc.rs:165-202 | every refusal and its condition, the minted version and record, and exactly when the log still replays |
| Mvcc.Store.Truncate | crates/cavlc/src/mvcc.rs:129-143 | cuts versions and records together, keeps replay, ignores versions never reached |
| Mvcc.Store.SnapshotAt | crates/cavlc/src/mvcc.rs:113-116 | a retained version and only that |
| Mvcc.Store.PatchesBetween | crates/cavlc/src/mvcc.rs:120-128 | exactly the records of a half-open range, or nothing for bounds outside the store |
| Mvcc.Store.FromValue | crates/cavlc/src/mvcc.rs:93-104 | only an object may be a root |
| Mvcc.Store.constructor | crates/cavlc/src/mvcc.rs:145-154 | a resumed store starts at the snapshot's version with an empty log |
| Mvcc.OwnLogRebuilds | crates/cavlc/src/mvcc.rs:207-242 | a store's own records rebuild each of its own snapshots |
| Mvcc.Replay | crates/cavlc/src/mvcc.rs:207-242 | succeeds exactly on contiguous records none of which is empty or idle; otherwise says which record is the first that does not follow, and why |
| Mvcc.ReplayOwn | crates/cavlc/src/mvcc.rs:207-242 | replaying a store's log gives equal snapshots at every version |
| Mvcc.HeldAcrossTruncate | crates/cavlc/src/mvcc.rs:129-143 | a batch whose base is no longer among the snapshots, but whose base version is current again, is accepted by a faithful store, which then no longer replays |
| StoreReducible.Commit | crates/lug-core/src/cavlc_impl.rs:20-55 | the store takes exactly the patches that apply and mints exactly when they change something, as the log assumes |
| StoreReducible.Apply | crates/lug-core/src/cavlc_impl.rs:26-37 | after any patch the store keeps the documents the log's structure keeps |
| StoreReducible.ViewAt | crates/lug-core/src/cavlc_impl.rs:43-45 | the store retains a version exactly when the log's structure does, with the same document |
| StoreReducible.Truncate | crates/lug-core/src/cavlc_impl.rs:47-50 | truncating leaves the documents the log's structure keeps, and the store still replays |
| StoreReducible.Resume | crates/lug-core/src/cavlc_impl.rs:52-54 | a resumed store keeps one document at one version, as a structure built on a view does |
| Logs.Data.Apply | crates/lug-core/src/reducible.rs:24-70 | stage and commit: reject, leave alone, or mint the next version |
| Logs.Data.Truncate | crates/lug-core/src/reducible.rs:58-66 | forgets the versions above one that was reached |
| Logs.Storage.Append | crates/lug-core/src/storage.rs:41-64 | whole or not at all, as the schedule says, with a flush allowed in passing |
| Logs.Storage.PowerCut | crates/lug-core/src/storage.rs:53-55 | keeps everything flushed and a beginning of the rest, of a batch being appended as well |
| Logs.Storage.WriteHeader | crates/lug-core/src/storage.rs:66-73 | works as the schedule says; a header stands only over flushed records and drops only what it covers |
| Logs.Storage.Load | crates/lug-core/src/storage.rs:13-19 | works as the schedule says; the header and at least the records above it, with nothing changed but what is flushed |
| Logs.HistoryGrows | crates/lug-core/src/log.rs:150-166 | folding a run of patches extends a history by exactly what it mints |
| Logs.Log.FoldAll | crates/lug-core/src/log.rs:146-166 | folds all or puts the structure back |
| Logs.Log.Append | crates/lug-core/src/log.rs:138-186 | structure, watermark and storage stay in step through rejections, failed writes and failed flushes, and each of these happens exactly when it must; a failed append moves them exactly when it is accepted, changes something, asks for a flush, its write works and that flush does not; a durable success is flushed; one append is one write and at most one flush |
| Logs.Log.InStep | crates/lug-core/src/log.rs:24-30 | in every reachable state the structure's version is the watermark |
| Logs.Log.Checkpoint | crates/lug-core/src/log.rs:190-196 | works exactly when the storage publishes and then flushes; puts the current view in the header, losing no record it does not cover |
| Logs.Log.Sync | crates/lug-core/src/log.rs:199-203 | works exactly when the storage flushes, and moves the synced frontier to the watermark or not at all |
| Logs.Log.ReadAfter | crates/lug-core/src/log.rs:119-122 | the first records above a version, exactly when the storage serves the read |
| Logs.Log.ViewAt | crates/lug-core/src/log.rs:112-117 | a past view is the state of the history at that version |
| Logs.Replay | crates/lug-core/src/log.rs:79-93 | succeeds exactly when each record above the view mints the version it names; otherwise names the first that does not and what it minted |
| Logs.StoredFits | crates/lug-core/src/log.rs:79-93 | the end of a history fits on any view of it that it reaches down to, and leads to its end |
| Logs.Log.Open | crates/lug-core/src/log.rs:70-96 | opens exactly when the storage loads: a storage that holds a history opens to the end of it, on the header's view and wherever the checkpoints fell |
| Logs.Log.Reopen | crates/lug-core/src/log.rs:70-96 | the same history, view and watermark as before closing, exactly when the storage loads |
| Logs.Log.CutAndReopen | crates/lug-core/src/log.rs:70-96 | for each number of unflushed versions a power cut may take: exactly the history without them, which holds everything flushed |
| Logs.Log.CutInAppend | crates/lug-core/src/storage.rs:53-55 | the same in the middle of an append, with the batch folded onto the history first |
| GroupCommit.FoldJoin | crates/lug-core/src/log.rs:150-166 | folding a run is folding its halves |
| GroupCommit.GroupIsSerial | crates/lug-server/src/actor.rs:188-241 | an accepted group does what its requests do one at a time |
| GroupCommit.VersionsPartition | crates/lug-server/src/actor.rs:205-233 | acknowledged versions are the minted interval, each once, in order |
| GroupCommit.Acknowledge | crates/lug-server/src/actor.rs:205-233 | splits an append back into its requests: verdicts, versions, and the fan-out entries |
| GroupCommit.VerdictsWithin | crates/lug-server/src/actor.rs:215-233 | no request is told a version outside what was minted |
| GroupCommit.SerialJoin | crates/lug-server/src/actor.rs:245-264 | committing requests one at a time on top of others is committing them all: the same view, records and verdicts |
| GroupCommit.ServedJoin | crates/lug-server/src/actor.rs:245-264 | what was served first and what was served on top, without what the storage refused, is served together |
| GroupCommit.LeavesJoin | crates/lug-server/src/actor.rs:245-264 | history, patches and replies of requests served on top of others are those of serving them all |
| GroupCommit.ServedCounts | crates/lug-server/src/actor.rs:205-233 | what is acknowledged is what the requests that were not lost mint, every new version once and in order |
| GroupCommit.ServedAt | crates/lug-server/src/actor.rs:245-264 | each request that was not refused by the storage gets the verdict of meeting those before it that were not |
| Actors.Actor.Publish | crates/lug-server/src/actor.rs:266-283 | the ring is given the entries and nothing else, the watermark told is the log's, a checkpoint is taken if one is due, and the floor told is the storage's after it; if the ring was the end of the log it still is, and others see records written, handed over, announced and reclaimed, in that order |
| Actors.Actor.CheckpointDue | crates/lug-server/src/actor.rs:273-278 | an automatic checkpoint is taken exactly when as many versions as configured have been written since the last one that worked, and counts exactly when the storage publishes and flushes it |
| Actors.Actor.Commit | crates/lug-server/src/actor.rs:189-241 | exactly when no flush fails after its write: history, verdicts and versions of committing alone, in order, the requests whose write was not refused, and a flush behind every durable acknowledgement; at most one request is lost for each refused write. An accepted group costs one write, at most one flush and the checkpoint that is due. No acknowledgement names a synced version above the log's, and where every call works all name exactly it. Says when the group's own flush fails after its write, and that the group then stays and is committed once more on top. The ring is given exactly what is acknowledged, nothing is acknowledged before it is announced, and while the ring is the end of the log others see only steps of an actor |
| Actors.Actor.FanOut | crates/lug-server/src/actor.rs:205-233 | an append that was written is published and then answered: each acknowledgement names exactly the version that was synced when it was written |
| Actors.Actor.Isolate | crates/lug-server/src/actor.rs:245-264 | the same, if and only if no flush slips, when each is committed alone after a rejection or a refused write: only the guilty request fails, and none is told of a flush there was not |
| Actors.Actor.Attempt | crates/lug-server/src/actor.rs:189-203 | the group append: rejected, refused, written and flushed, or written and not flushed, each exactly when, by one write and at most one flush; the last leaves a hole in the ring |
| Actors.Actor.WholeWhen | crates/lug-server/src/actor.rs:266-283 | the ring is the end of the log, and all of it is announced, exactly when nothing awaits announcement and the versions never handed over lie below the ring's front; always, before the first failed flush |
| Actors.Actor.Look | crates/lug-server/src/actor.rs:285-316 | what a view, a catch-up or a checkpoint answers on the log as it stands, and exactly when the storage lets it: a checkpoint that is saved covers everything written |
| Actors.Actor.Drain | crates/lug-server/src/actor.rs:166-186 | a whole queue agrees with one command at a time, but for appends the storage refused to write, if and only if no flush fails after its write; a read observes the appends ahead of it, a catch-up gets the log's own records at that point, a checkpoint covers them; no answer names a synced version above the log's, and where every call works no command fails for the storage |
| Actors.Actor.CatchUp | crates/lug-server/src/actor.rs:318-349 | exactly what is answered, and that only a refused read is no answer: whatever has failed, a stretch of the log just above the cursor, or a gap that ends above the cursor and below the storage floor |
| SharedState.RingGrows | crates/lug-server/src/ring.rs:39-47 | pushing the next records keeps the ring the end of the log |
| SharedState.StepOnward | crates/lug-server/src/actor.rs:266-283 | each step of an actor keeps the ring the end of what it was given and takes nothing back |
| SharedState.ReachesOnward | crates/lug-server/src/actor.rs:266-283 | over any run of an actor, records, announcements, storage floor and ring front never go back |
| SharedState.HandedOut | crates/lug-server/src/actor.rs:266-283 | publishing is a run of such steps |
| SharedState.WholeAgain | crates/lug-server/src/ring.rs:39-47 | a ring that some records never entered is the end of the log exactly when they lie below its front |
| SharedState.HoledGrows | crates/lug-server/src/ring.rs:39-47 | pushing the next records keeps the ring's records the log's own, and those above the hole its last |
| SharedState.HoleOpens | crates/lug-core/src/log.rs:174-183 | records written and never handed over leave a hole at their end |
| SharedState.ReadAcross | crates/lug-server/src/ring.rs:54-73 | over any hole, a read hands out the log's own run above the cursor exactly when its last version lies as far above the cursor as it is long |
| CommandQueue.SettledAgrees | crates/lug-server/src/actor.rs:166-186 | what waited agrees with one command at a time once committed together |
| CommandQueue.AgreedCount | crates/lug-server/src/actor.rs:166-186 | where every response agrees with one command at a time, as many versions were acknowledged as the kept appends mint |
| Slips.Strand | crates/lug-server/src/actor.rs:200-203 | for any three numbers, a run in which the flush of a group of two fails after its write: no serial order gives its log and replies, and a read of the ring passes over two versions |
| Rings.Ring.Push | crates/lug-server/src/ring.rs:39-47 | the last `capacity` entries |
| Rings.Ring.ReadAfter | crates/lug-server/src/ring.rs:54-73 | the shortest run above the cursor that reaches the byte cap, within the limit; too old below the front |
| Rings.ReadContiguous | crates/lug-server/src/ring.rs:54-73 | on consecutive entries a read starts just above the cursor and is empty only when nothing is there |
| Streams.Stream.Serve | crates/lug-server/src/stream.rs:52-132 | for every interleaving with the actor and every refusal of the storage, exactly where the loop leads; what is pushed tiles the interval from the start to the cursor, and no more is pushed than granted; it fails only where a read is refused, and otherwise each wakeup with credit brings the cursor nearer to what was announced |
| Streams.Stream.Wake | crates/lug-server/src/stream.rs:72-132 | exactly what one turn does, whatever happens around it: with credit left and something announced above the cursor the cursor moves unless a read is refused, which is the only way to fail; it pushes one frame at most |
| Streams.Stream.Gather | crates/lug-server/src/stream.rs:92-123 | the ring is read first and the actor asked where it has nothing; a hole is told at once |
| Streams.AcrossDrain | crates/lug-server/src/stream.rs:98-119 | whatever fails, what a stream has pushed still tiles the log after any queue the actor itself takes, and the catch-up the actor then answers is one more tile |
| Streams.Stream.FromRing | crates/lug-server/src/stream.rs:92-94 | what the ring gives is the log's own, within the limits; when it gives nothing the cursor is below it |
| Streams.Stream.FromStorage | crates/lug-server/src/stream.rs:98-119 | exactly what the actor answers, whatever it did meanwhile; only a refused read is no answer |
| Streams.TilesCover | crates/lug-server/src/stream.rs:72-132 | each version of the interval is in exactly one frame: the log's own record, or a gap below the floor |
| Streams.TilesStay | crates/lug-server/src/stream.rs:72-132 | commits and reclamation after a push cannot make it wrong |
| Streams.Server.Happen | crates/lug-server/src/session.rs:180-188 | what an event around a stream makes of what it sees: credit only grows, saturating, and the actor moves by its own steps |
| Credit.Link.MaybeGrant | crates/lug-client/src/sub.rs:164-175 | once half a window is drained it becomes credit; with room in the command queue all the credit there is goes out as one grant and none is left waiting; none is ever lost |
| Credit.Link.PollNext | crates/lug-client/src/sub.rs:181-221 | hands over exactly the first message that is not plumbing, or waits; each record handed out is drained once, nothing else costs credit, and every message taken is a chance to grant |
| Credit.OutstandingBounded | crates/lug-client/src/sub.rs:112-114 | credit outstanding and records in flight never exceed the window |
| Credit.NoDeadlock | crates/lug-client/src/sub.rs:164-175 | after a poll that waits and found room to grant, and once the server has taken the grants on the wire, credit is left exactly when the window is not zero: all of it but what was drained since |
| Credit.AnyRun | crates/lug-client/src/sub.rs:164-221 | any acts of server, wire and consumer, endings and breaks included, lead exactly where they should and keep the balance |
| Followers.Task.EmitRecord | crates/lug-client/src/follower.rs:479-494 | which events are given and what is owed then, in every case; what is given jumps exactly when the consumer stands below what is due |
| Followers.Task.EmitGap | crates/lug-client/src/follower.rs:470-478 | a gap also covers what was owed, and jumps exactly when it starts above the consumer; it is abandoned exactly when the handles close first |
| Followers.Task.Adopt | crates/lug-client/src/follower.rs:373-377 | a view replaces what was held, and is shown |
| Followers.Task.FoldOne | crates/lug-client/src/follower.rs:393-413 | the record moves the cursor; with room the consumer is given what it is owed and then the record, and owes nothing; otherwise what it is owed grows. What is given leaves no silent jump exactly when there was none before and the consumer stood at the cursor or at what it was owed |
| Followers.Task.Fold | crates/lug-client/src/follower.rs:381-416 | without a jump every record is held afterwards, the cursor is where the batch ends, and with room the consumer is given what it was owed and then exactly the records that are news; replays are skipped; at the first jump the hole is recovered from and the rest left |
| Followers.Task.Recover | crates/lug-client/src/follower.rs:424-453 | exactly what a gap does: it is stepped over or replaced by a view at or above its end, exactly its end on a plain log; it is announced first, in one event from what was owed up to the new cursor, and nothing is owed for it any more |
| Followers.Task.Take | crates/lug-client/src/follower.rs:323-367 | exactly what each frame does to the cursor, the mirror and the events; a view that is newer announces the gap up to it; a batch without a jump and a gap carry the cursor to their end |
| Followers.Task.Session | crates/lug-client/src/follower.rs:306-369 | exactly where a subscription leads, turn by turn: after every frame the store is the server's state at the cursor, the events tell of the log alone, and they hold no more silent jumps than gaps were abandoned; a dropped event receiver does not end it, every handle closing does |
| Followers.Task.Run | crates/lug-client/src/follower.rs:272-303 | the same across reconnects |
| Followers.Task.Accounted | crates/lug-client/src/follower.rs:236-243 | in every reachable state, no version is skipped in silence exactly when no event jumps, and there are no more jumps than gaps abandoned at close |
| Followers.SilentWhen | crates/lug-client/src/follower.rs:236-243 | truthful events skip nothing in silence exactly when none of them starts above where the ones before it end |
| Followers.EveryVersionTold | crates/lug-client/src/follower.rs:468-494 | every version up to where the consumer stands was delivered as the log's record or inside an announced gap |
| Followers.SilentAfterClose | crates/lug-client/src/follower.rs:470-478 | for every history of three patches, three frames of a plain log after which an abandoned gap is followed by a delivered record |
| EndToEnd.Follow | crates/lug-client/src/follower.rs:306-369 | a follower fed one stream's view and frames in order finds each one it assumes, passes over none, and ends at or above where the stream stands, on a plain log exactly there, unless a view cannot be read for a gap |
| EndToEnd.TilesUpTo | crates/lug-server/src/stream.rs:72-132 | each frame of a stream starts where the ones before it end |
| EndToEnd.FrameIsFair | crates/lug-server/src/stream.rs:105-129 | a frame meets what a follower assumes that stands no lower than the stream did before it, holds no jump, and carries the follower to where the stream stands |
| Ledgers.PayloadRead | crates/lug-load/src/check.rs:8-10 | a payload reads back as its sequence number |
| Ledgers.PayloadDigits | crates/lug-load/src/check.rs:8-10 | character by character: sixteen digits, the highest first, then filler |
| Ledgers.ReadExact | crates/lug-load/src/check.rs:171-185 | a payload that reads is the one sent exactly when its digits are lower case and plain |
| Ledgers.ChangedUnnoticed | crates/lug-load/src/check.rs:171-185 | a changed payload that passes |
| Ledgers.Ledger.Bind | crates/lug-load/src/check.rs:84-115 | accepts exactly the bindings that contradict nothing |
| Ledgers.Ledger.Acknowledge | crates/lug-load/src/check.rs:117-141 | accepts exactly an acknowledgement of an append not yet acknowledged, at one version that contradicts nothing, flushed if the run is durable |
| Ledgers.Ledger.Deliver | crates/lug-load/src/check.rs:145-188 | accepts exactly the next version of a known stream, within credit, with a payload that reads and contradicts nothing |
| Ledgers.Ledger.Records | crates/lug-load/src/check.rs:143-190 | a batch is accepted exactly when each record may come after those before it, and then binds and delivers each of them |
| Ledgers.AlongRuns | crates/lug-load/src/check.rs:143-190 | records that come along carry the next versions of their stream, within its credit, and leave it that much further with their payloads delivered in order |
| Ledgers.Ledger.Subscribe | crates/lug-load/src/check.rs:57-73 | a stream id is new |
| Ledgers.Ledger.Grant | crates/lug-load/src/check.rs:75-82 | credit is added to a known stream |
| Ledgers.Ledger.Done | crates/lug-load/src/check.rs:192-200 | nothing more is expected exactly when all is acknowledged and every stream is at its log's end |
| Ledgers.Ledger.Finish | crates/lug-load/src/check.rs:202-229 | a clean finish means versions 1 to n in bijection with the payloads, each append acknowledged once, each stream the same order to the end within its credit |
| Ledgers.AllRight | crates/lug-load/src/check.rs:202-229 | why the three checks at the end are enough |
| Ledgers.AllAcked | crates/lug-load/src/check.rs:203-209 | counting acknowledgements finds a lost one |
| Ledgers.Packed | crates/lug-load/src/check.rs:221-227 | comparing the highest version with the count finds a hole |
| Codec.DecodeJoin | ts/src/codec.ts:41-76 | bytes that arrive later change nothing already decoded |
| Codec.FrontByBytes | ts/src/codec.ts:45-66 | by its bytes: a stream waits for the four of a length, the highest first, then for as many more as they say, and refuses a length over the limit |
| Codec.FrameDecoder.Append | ts/src/codec.ts:85-108 | keeps the pending bytes and adds the chunk; the buffer grows, by doubling, only where it is too short, and slides only where there is no room behind |
| Codec.FrameDecoder.Slide | ts/src/codec.ts:101-105 | the overlapping copy moves the pending bytes intact |
| Codec.FrameDecoder.Push | ts/src/codec.ts:41-76 | the complete frames, the remainder kept, or the first frame's error; a buffer with nothing left in it starts over at its front |
| Codec.FrameDecoder.Finish | ts/src/codec.ts:78-83 | a stream may end exactly where nothing is pending |
| Codec.PushAll | ts/src/codec.ts:41-76 | for any chunking, the frames and the remainder of the whole stream |
| Codec.Queue.DecodeOne | crates/lug-proto/src/codec.rs:50-67 | one frame off the front, or why not |
| Codec.Queue.Drain | crates/lug-proto/src/codec.rs:50-67 | the same frames, remainder and errors as the sliding decoder |
| Codec.Queue.Encode | crates/lug-proto/src/codec.rs:73-83 | appends the four bytes of the length, the highest first, and the body, unless it is too long |
| Codec.EncodeFrame | ts/src/codec.ts:11-33 | the four bytes of the length, the highest first, and the body, unless it is longer than the caller's limit |
| Codec.FrameTaken | ts/src/codec.ts:11-76 | when a decoder takes a frame, takes it short or refuses it, by its length modulo two to the thirty-second |
| Codec.DecodeInvertsEncode | ts/src/codec.ts:11-76 | encoded values decode to themselves, whatever incomplete frame follows |
| InPlaceFold.Define | ts/src/cavlc.ts:145-152 | sets one property and nothing else |
| InPlaceFold.CloneObject | ts/src/cavlc.ts:127-143 | an equal copy that shares nothing |
| InPlaceFold.ValidatePatch | ts/src/cavlc.ts:34-82 | accepts exactly well-formed patches |
| InPlaceFold.UpdateProp | ts/src/cavlc.ts:93-116 | folds into an object where it stands or replaces a leaf, leaving its siblings alone |
| InPlaceFold.EndedMeans | ts/src/cavlc.ts:84-125 | the three loops do what the patch means |
| InPlaceFold.ApplyAt | ts/src/cavlc.ts:84-125 | succeeds exactly when the patch applies and leaves the patched document in place |
| InPlaceFold.ApplyPatch | ts/src/cavlc.ts:24-32 | the patched document as a new object; the input is never altered, even on failure |
| InPlaceFold.BothFolds | ts/src/cavlc.ts:24-125 | the in-place and the path-copying fold take the same patches and give the same document |

## Left out

- Keys are integers: the code sees them only through comparison. Leaves are integers: the code sees them only through equality. Arrays are leaves, as in the repository.
- The order in which ordered maps and objects are walked decides which of several failing operations is reported; error paths are proved to fail, not to be the first.
- JSON text, the wire conversions of patches and the three shapes of a view payload: encoding is taken as total and injective.
- CRC-32 itself, the header file's bytes and the segment names: the header is one version, published atomically.
- Rotation, file creation, renaming and removal are single successful steps; failures are injected into record writes, zeroing and flushes.
- Short reads while scanning, directory locking and the vectors the scan borrows.
- SegmentStore.SegmentStore.Load: what it makes of a directory whose header was published outside the range that keeps the store sound, which no log does, is not modelled.
- Logs.Storage.Load: promises the records appended; the segment store keeps this promise until a cleanup fails, and what a log would do with refused records that return is not modelled.
- Logs.Log.Open: what was synced is not claimed for the moment of opening, where the code sets it to the watermark without a flush; `openedAt` marks that boundary.
- Logs.Log.Append: encoding a patch never fails, so the early exit that skips unwinding is not modelled.
- Actors.Actor.Commit: after a second flush has failed after its write, where the records that stayed lie among the others is not said, only that they stay and that nobody was given them.
- Actors.Actor.Drain: the end of a gap a catch-up reports is only bounded by the history it would meet one at a time: when the automatic checkpoint falls, and so what is reclaimed, depends on the batching.
- Streams.Stream.Serve: the frame limit is positive; it is proved against an actor none of whose flushes fails after its write, so that the ring is the end of the log (what such a failure does to a read of the ring is in `SharedState.ReadAcross` and `Slips.Strand`); waiting is modelled as another wakeup.
- Credit.OutstandingBounded: credit asked for explicitly through `grant` is not part of the balance; the channel that frames share with acknowledgements may overrun and is not modelled.
- Credit.NoDeadlock: stated until two to the sixty-fourth records have been granted, where the server's counter saturates.
- EndToEnd.Follow: the stream opens with a view no older than the cursor it was asked from.
- Followers.Task.Session: views are never older than the cursor, gaps start at or below it, and a log does not change kind while it is followed; the out-of-range reset is not modelled.
- Ledgers.Ledger.Finish: issue times are not kept; a call that was refused voids the conclusion, as a run stops at the first error.
- The rest of the session's stream table, authorization, sockets, HTTP, timeouts, backoff, the pool, metrics, configuration, the terminal interface and the load runner are not part of this model.
- The degenerate counter structure, value accessors and the path walk of `at` would only add easy members.
