# Verification of the DeOSS gateway

DeOSS is a storage gateway: it takes files over HTTP, cuts them into fragments, places the fragments on
storage miners, declares them to a chain, and brings them back. This project models the parts of it that
hold state across failures and proves what they guarantee, for every input, every run and every
interleaving. The chain, the peers, LevelDB and the file system are open: each call may fail, and what
it answers is a parameter (`Faults`, `Tick`, `Turn`, `Net`, `World`). `dafny verify dfyconfig.toml`
checks everything.

| file | what it models |
|---|---|
| `ChunkUpload.dfy` | the resumable upload: directory, `chunk-info` record, chunk files, the request handler |
| `ChunkRuns.dfy` | what the upload means: a partial map from index to chunk, over all runs of requests |
| `ChunkRaces.dfy` | the same handler taken apart, with requests interleaving under no lock |
| `FileProcess.dfy` | `fileProcess`, `deduplication`, `RenameDir`: from upload directory to tracked record |
| `BlockIndex.dfy` | `syncBlock`: chain events to per-user lists in two tiers, checkpoints, crashes, replays |
| `BlockLog.dfy` | the scanner against the chain's own log, over any number of runs |
| `RestoreList.dfy` | the merge and difference loops of `getRestoreHandle` |
| `Placement.dfy` | `storageData`: grouping fragments and placing the batches on peers |
| `TrackLifecycle.dfy` | `trackFile`: one worker and one record against the chain |
| `TrackScheduler.dfy` | the bounded set of tracked files, the scanner and its workers |
| `TrackDirectory.dfy` | `WriteTrackFile` step by step, with readers, removals, writers in place and crashes |
| `FetchFiles.dfy` | `fetchFiles`: slots of fragment paths, segments written back, the last one cut |
| `RestoreCharge.dfy` | what `postRestoreHandle` charges, and the records it writes |
| `Text.dfy` | decimal text, `Atoi`, `Split`, directory order |

Code that updates state is modelled as classes and loops (`UploadDir`, `Index`, `TrackedFile`,
`TrackFileType`, and the loops over lists), each proved against a specification function or an outright
property; interleavings are state machines over their steps.

## What does not hold

The code was kept as it is. Where it does not do what its design suggests, the exact condition is proved.

- A file whose name stands for a chunk (`chunk-file-<k>`, or a name with that text that ends in `-<k>` and
  does not sort before the chunk file) cannot be uploaded in pieces unless that chunk and all before it
  are empty: the combined file is created in the directory that is then scanned
  (`ChunkRuns.LastMissingPieceDelivers`, `ChunkRuns.AssembleExact`, `ChunkRuns.ChunkFileNameIsNotHarmless`).
- First write wins only as long as `chunk-info` can be seen. If its existence test fails, a recorded chunk
  can be overwritten under an unchanged record (`ChunkRuns.RecordedChunkChangesIff`).
- A `chunk-info` that was torn by a failed write blocks its upload until the directory is removed by other
  means: the sweep of old uploads skips it too (`ChunkRuns.TornRecordBlocks`). This and a harmful name are the
  only two things that keep a failed upload from being finished (`ChunkRuns.CanBeFinishedIff`).
- The errors of `os.RemoveAll` are not looked at. A removal of an upload directory that leaves chunk-info but not
  every chunk it records leaves an upload that is inconsistent, and only that does (`ChunkRuns.RemainingValidIff`):
  SavedFileSize is then wrong, and a chunk can be missing when the last one arrives. Data whose removal fails
  outlives its record in the track directory (`TrackLifecycle.TrackedFile.TrackFile`).
- Nothing locks an upload. The record stays self-consistent under all interleavings, but the size account
  does not (`ChunkRaces.SizesDisagreeUnderRaces`), and a chunk the record counts on can be missing
  (`ChunkRaces.ChunkMissingUnderRaces`), so that the missing-chunk branch, dead when requests are
  serialized, is reachable. With a lock both hold (`ChunkRaces.SerializedAgrees`); without one,
  `ChunkRaces.BreaksSizesIff` and `ChunkRaces.LosesIff` say exactly which steps break them. A chunk that was
  answered as saved can also be forgotten (`ChunkRaces.ForgetsIff`, `ChunkRaces.UpdateLostUnderRaces`).
- The deletion merge, unlike the upload merge, compares the two lists at the same index in its inner loop. It
  runs out of range exactly when the fallback list of an account is neither empty nor at least as long as
  its database list (`RestoreList.MergeDeletions`), which the scanner brings about (`BlockLog.PanicIsReached`).
- A list that cannot be read counts as empty: with an unreadable deletion list deleted files are offered for
  restoring (`BlockIndex.FailedReadsChangeIff`).
- When an owner has no list yet and the first Put fails, the event is only logged, although a fallback
  exists (`BlockIndex.RecordedMeans`). When a fallback file exists but cannot be read, it is started anew
  and its entries are gone (`BlockIndex.FallbackKeepsIff`).
- `storageData` sets its failure flag once per peer. A peer counts as a success as soon as fragment 0 is
  accepted (`Placement.SendBatch`), and holds its batch exactly when every fragment got through
  (`Placement.SuccessDeliversIff`), which success guarantees only for files of one segment
  (`Placement.SuccessGuaranteesDeliveryIff`). Batches are keyed with eight bits:
  the grouping is a transposition exactly up to 256 columns (`Placement.TransposesIff`), and the keys count
  from one exactly up to 255 (`Placement.KeysCountFromOneIff`).
- The writer in `deduplication` does not go through `WriteTrackFile`: its record can be seen half written
  (`TrackDirectory.InPlaceRecordIsSeenPartial`). A crash leaves a temporary name that is then listed
  (`TrackDirectory.CrashLeavesTemporary`), and a worker on it can take it for the record of another file
  (`TrackDirectory.CrashedWriteCanMismatch`); under its own hash no record is ever another one's.
  No other step breaks the guarantee (`TrackDirectory.ExposesIff`).
- `fileProcess` replaces the record another account has for the same file if the chain has no order for it and
  this account has no directory for it (`FileProcess.FileProcess`).
- `RenameDir` moves only the files whose Stat succeeds and removes the rest with the old directory; those the
  removal gets to are lost even if it fails half way (`FileProcess.RenameDir`). The record of a duplicate made
  by a chunked upload points into the upload directory, which the end of the request removes
  (`FileProcess.FinishChunks`).
- A metadata row leaves paths of earlier segments in the slots that `RSRestore` reads exactly if one of their
  rows was longer (`FetchFiles.OwnFragmentsOnlyIff`).
- `fetchFiles` does not look at the errors of its writes: after a failed write a shorter file is returned as a
  success (`FetchFiles.DownloadIsTheFileIff`). A restored segment that cannot be read back ends the process.

## Model

| member | source | states |
|---|---|---|
| `ChunkUpload.EntryIndexOfChunkName` | `node/putChunksHandle.go:232-271` | the name printed for chunk i is read back as i by the scan, for every int |
| `ChunkUpload.ChunkNameInjective` | `node/putChunksHandle.go:232` | two chunks never share a file |
| `ChunkUpload.Pigeonhole` | `node/putChunksHandle.go:190-246` | if Finished is one short of BlockNum and the current index is not saved, every other chunk is |
| `ChunkUpload.ScanEntries` | `node/putChunksHandle.go:255-271` | the map has an index exactly if some entry parses to it, and keeps the last such entry in directory order |
| `ChunkUpload.ScanFinds` | `node/putChunksHandle.go:249-275` | over chunk files and the combined file, what is looked up for i is chunk file i unless the combined file's own name takes its place |
| `ChunkUpload.CopyChunks` | `node/putChunksHandle.go:272-296` | the copy loop yields the chunks in index order, or stops at the first that is missing, unreadable, or the file itself |
| `ChunkUpload.UploadDir.CombineChunks` | `node/putChunksHandle.go:246-302` | creating, scanning, copying and comparing sizes gives the reply of `Combine`, the reference the theorems speak about |
| `ChunkUpload.UploadDir.Handle` | `node/putChunksHandle.go:127-326` | one request takes directory and reply exactly to `Step`, through every error branch, and with removals that stop half way |
| `ChunkRuns.NoChunkIsMissing` | `node/putChunksHandle.go:246-279` | serialized and in a consistent directory, the request that brings the last chunk finds an entry for every index, whatever the file is called: the "does not exist" branch is not taken |
| `ChunkRuns.LastChunkCompletes` | `node/putChunksHandle.go:246-298` | serialized, when the last chunk arrives all chunk files are there, join to what was got, and are SavedFileSize plus the last size long |
| `ChunkRuns.AssembleExact` | `node/putChunksHandle.go:249-296` | the combined file is the concatenation if and only if its name hides no chunk, or only one with nothing in it or before it; otherwise it is missing or too short |
| `ChunkRuns.LastChunkDeliveredIff` | `node/putChunksHandle.go:246-302` | a request that gets as far as combining, for an upload of one chunk or of many, delivers if and only if the sizes add up to TotalSize, no file operation fails, and the name is harmless; the directory is empty afterwards if it can be removed |
| `ChunkRuns.GotCounts` | `node/putChunksHandle.go:304-306` | SavedFileSize is the length of the chunks got, and BlockNum minus Finished is how many are missing |
| `ChunkRuns.AcceptRefines` | `node/putChunksHandle.go:232-320` | an accepted chunk leaves a consistent directory, and exactly one more chunk got, or the whole file delivered; a failure changes nothing that is recorded, unless the last chunk was combined or chunk-info torn |
| `ChunkRuns.StepRefines` | `node/putChunksHandle.go:127-326` | every request keeps the directory consistent with its record; exactly which answer it gets and exactly what becomes of the abstract upload: one chunk more if that is recorded, nothing left after combining (unless the removal failed), a torn record if its write broke off, and in every other case, whatever fails or is refused, the upload as it was after the sweep |
| `ChunkRuns.RecordedChunkChangesIff` | `node/putChunksHandle.go:149-247` | under an unchanged record a recorded chunk changes if and only if the existence test failed and the request got to write different bytes, or the removal at the end left chunk-info but not the chunk |
| `ChunkRuns.RemainingValidIff` | `node/putChunksHandle.go:247` | what a removal leaves of a consistent upload is consistent if and only if chunk-info went or every recorded chunk stayed |
| `ChunkRuns.ReplyIgnoresLeft` | `node/putChunksHandle.go:247-326` | the reply does not depend on how the deferred removal goes |
| `ChunkRuns.StepWellFormed` | `node/putChunksHandle.go:127-326` | even when the existence test fails, the record keeps counting its bits within TotalSize and only chunk names appear |
| `ChunkRuns.ServeValid` | `node/putChunksHandle.go:127-326` | after every run with any failures, but for failed existence tests and removals that leave chunk-info without a chunk, SavedFileSize is the sum of the recorded chunks and each of them is on disk |
| `ChunkRuns.UploadFromRun` | `node/putChunksHandle.go:237-318` | whatever the upload holds as chunk i was sent as chunk i by a request of the run that was answered with i |
| `ChunkRuns.DeliveredComesFromRun` | `node/putChunksHandle.go:246-326` | a file that reaches `fileProcess` is the concatenation, in index order, of recorded chunks of the run and the final one |
| `ChunkRuns.DeliveredIsTheFile` | `node/putChunksHandle.go:246-326` | if all requests carry pieces of one file, in any order with repeats, refusals and failures, what is delivered is that file |
| `ChunkRuns.ArrivalOrderIsImmaterial` | `node/putChunksHandle.go:260-297` | two runs over the same pieces never deliver different files |
| `ChunkRuns.StaysResumable` | `node/putChunksHandle.go:127-326` | after any run of requests with pieces of one file, whatever failed, the record is torn or the upload is exactly an incomplete set of the pieces |
| `ChunkRuns.HoldsWhatWasSaved` | `node/putChunksHandle.go:127-326` | the answers tell the truth: after any run of requests with pieces of one file, in which failures may do anything but sweep, combine or tear the upload, it holds exactly the pieces answered as saved; a dropped connection costs none |
| `ChunkRuns.SweepStartsAnew` | `node/putChunksHandle.go:605-637` | after a sweep that goes through, a request works as on an upload that never was |
| `ChunkRuns.HoldsWhatArrived` | `node/putChunksHandle.go:148-320` | from whatever incomplete set of pieces earlier failures left, requests that meet no failure add exactly the indices that arrive, each answered as saved or already saved |
| `ChunkRuns.LastMissingPieceDelivers` | `node/putChunksHandle.go:246-326` | however the upload got where it is, the request that brings the last missing index delivers the file if and only if its name is harmless, and else resets the upload |
| `ChunkRuns.CanBeFinishedIff` | `node/putChunksHandle.go:127-326` | after any run with any failures some further requests deliver the file if and only if the record is not torn and the name is harmless |
| `ChunkRuns.ChunkFileNameIsNotHarmless` | `node/putChunksHandle.go:250-271` | a two-piece file called `chunk-file-0` is such a name |
| `ChunkRuns.TornRecordBlocks` | `node/putChunksHandle.go:173-182` | after a record was torn, nothing any later request sends is saved or delivered, and the directory never changes |
| `ChunkRaces.MoveKeepsInv` | `node/putChunksHandle.go:148-320` | no step of any request breaks the consistency of the stored record or of the copies in flight |
| `ChunkRaces.RecordStaysConsistent` | `node/putChunksHandle.go:148-317` | under every interleaving Finished counts the true bits, stays below BlockNum, which is their number, and SavedFileSize stays within TotalSize |
| `ChunkRaces.SerializedAgrees` | `node/putChunksHandle.go:148-317` | if no request begins while another is in flight, SavedFileSize is always the sum of the recorded chunk files and no request combines while a chunk is missing |
| `ChunkRaces.BreaksSizesIff` | `node/putChunksHandle.go:232-317` | a step breaks the size account if and only if it empties or lengthens the file of a recorded chunk, or writes a record that does not add up with the chunk files then there |
| `ChunkRaces.CurrentWritesWrongSumIff` | `node/putChunksHandle.go:304-313` | a request whose copy of the record is current writes such a record if and only if its chunk file no longer has its length |
| `ChunkRaces.LosesIff` | `node/putChunksHandle.go:246-278` | a chunk comes to be missing for a combining request if and only if the last chunk is written beside a gap, or into a directory that was removed, or another request ends while one is about to combine |
| `ChunkRaces.ForgetsIff` | `node/putChunksHandle.go:303-313` | a stored record forgets a saved chunk if and only if a request whose copy of the record is older writes it back |
| `ChunkRaces.UpdateLostUnderRaces` | `node/putChunksHandle.go:303-318` | some interleaving does so: two requests are both answered as saved, and one of them is forgotten |
| `ChunkRaces.SizesDisagreeUnderRaces` | `node/putChunksHandle.go:232-317` | without a lock some interleaving ends with SavedFileSize different from the lengths of the recorded chunk files |
| `ChunkRaces.ChunkMissingUnderRaces` | `node/putChunksHandle.go:246-278` | without a lock some interleaving brings a request to combining while a chunk it needs is not there |
| `FileProcess.RenameDir` | `pkg/utils/common.go:129-155` | success moves exactly the files whose Stat succeeded; at every end a file is lost if and only if its Stat failed and the removal of the old directory got to it; when it succeeds |
| `FileProcess.MoveAll` | `pkg/utils/common.go:146-152` | at every exit of the loop the files split into moved and left, with their bytes |
| `FileProcess.RewritePaths` | `node/putChunksHandle.go:419-424` | every path of every segment is redirected to the new directory under its own name, in place |
| `FileProcess.Deduplicate` | `node/putHandle.go:219-278` | exactly when it comes to each of its six ends: new if and only if the chain has neither owners nor an order, known if and only if the account is an owner, or its declaration goes through, or the order is its own, and so on; no existing record changes, and a new one is marked duplicate under its own hash |
| `FileProcess.Relocate` | `node/putChunksHandle.go:392-424` | when it succeeds; after success each rewritten path leads to the bytes its fragment had if and only if its Stat succeeded (or they were there before), and the combined file lies under the root hash unless it went to the cache; which files a failure loses |
| `FileProcess.FileProcess` | `node/putChunksHandle.go:328-468` | exactly when it gives each of its answers, in terms of the chain and of what fails; a new record is written after relocation, alone, under its own hash, with paths that lead to the fragments and the combined file under the root hash; it replaces the record another account may have, exactly then and only without its directory; otherwise no record that was there changes, and what a failure leaves alone |
| `FileProcess.FinishChunks` | `node/putChunksHandle.go:247-326` | when a record is written; after the deferred removal a new record still has its fragments; a path of a duplicate's record leads to its fragment if and only if the removal failed on it |
| `BlockIndex.KeysApart` | `node/types.go:106-111` | keys of different kinds or owners, and the checkpoint key, have different text |
| `BlockIndex.CheckpointText` | `node/syncBlock.go:268-274` | the decimal text of a checkpoint is read back as the same block |
| `BlockIndex.Index.SaveToFile` | `node/syncBlock.go:305-381` | the fallback file of the owner is extended, replaced or left as `Appended` says, and the other directory is untouched |
| `BlockIndex.FallbackKeepsIff` | `node/syncBlock.go:305-381` | a fallback file keeps its entries if and only if it is not the case that reading fails, writing succeeds, and it had other entries |
| `BlockIndex.MisnamedFileMoves` | `node/syncBlock.go:323-336` | a fallback file that names another user is kept under that user's name, and the owner gets a new one with the one entry; when this succeeds and what else changes |
| `BlockIndex.RecordedMeans` | `node/syncBlock.go:127-174` | an event is found afterwards if it is recorded; exactly when it is lost; no other key, owner or kind changes |
| `BlockIndex.RecordedInOrder` | `node/syncBlock.go:127-174` | entry by entry: exactly when the event goes to the end of the list in the database, when to the end of the fallback list, and when nowhere; the other entries keep their order and number |
| `BlockIndex.RecordedKeeps` | `node/syncBlock.go:127-264` | over both tiers nothing but the event appears, and nothing disappears unless a fallback file of the same owner and kind could not be read |
| `BlockIndex.RecordedStaysAccounted` | `node/syncBlock.go:127-264` | what can be found was retrieved, and what was retrieved can be found, was logged, or was in a fallback file that was started anew |
| `BlockIndex.Index.Record` | `node/syncBlock.go:122-264` | the loop body does what `Recorded` says and enters the event in the history |
| `BlockIndex.Index.RecordEvent` | `node/syncBlock.go:122-264` | every list stays with its owner and every retrieved event accounted for; a failure changes nothing |
| `BlockIndex.Index.RecordAll` | `node/syncBlock.go:119-265` | the same for a whole event loop; with no failure all its events can be found |
| `BlockIndex.Index.RecordBlock` | `node/syncBlock.go:119-265` | replaying a block whose events are recorded changes nothing that can be found |
| `BlockIndex.Index.Start` | `node/syncBlock.go:50-83` | the scan starts at the larger of the checkpoints that can be read, and every block from 200 up to there has been processed |
| `BlockIndex.Index.SaveCheckpoint` | `node/syncBlock.go:267-279` | the checkpoint goes to the database or, after two failures, to the file; the lists do not change, and no checkpoint passes an unprocessed block |
| `BlockIndex.Index.ScanBlock` | `node/syncBlock.go:118-279` | a block is processed before its checkpoint is moved, so a crash between repeats it; unless all three writes fail a checkpoint passes the block |
| `BlockIndex.Index.Turn` | `node/syncBlock.go:98-280` | a turn retrieves the next block if and only if its hash is given and it lies below the height known, or below the one the chain reports when asked again; it is then told the events of the block, passes it unless it crashes, and moves a checkpoint; otherwise nothing changes |
| `BlockIndex.Index.SyncBlock` | `node/syncBlock.go:35-281` | over a whole run with any failures and a crash anywhere: all invariants; where it starts and where the checkpoints stand afterwards; exactly the blocks between start and end are newly processed, and exactly their events retrieved; nothing is forgotten unless a fallback read fails; if each tick can retrieve the block that is next, n ticks pass exactly n blocks, exactly what they bring is retrieved, and without failures it can be found |
| `BlockIndex.RestartGoesOn` | `node/syncBlock.go:50-83` | if one of the three checkpoint writes succeeds each time, a restart that can read both checkpoints starts no earlier than the run before it stopped, and exactly there if that run started at the larger checkpoint |
| `BlockIndex.WalkBelow` | `node/syncBlock.go:98-116` | no block at or above every height the chain reported during the run is passed |
| `BlockIndex.WalkProgresses` | `node/syncBlock.go:98-280` | progress: while the hash is given, nothing crashes, and the first height or the one reported is above the block, k ticks pass exactly the k blocks from the first, and exactly their events are told |
| `BlockIndex.Index.GetRestore` | `node/getRestore.go:66-147` | whichever of the four reads fail: the answer has a file if and only if its upload is in a list that can be read and its deletion in none; None is the index panic, and exactly when |
| `BlockIndex.FailedReadsChangeIff` | `node/getRestore.go:66-88` | failed reads change the answer about a file if and only if they hide the upload of one not deleted, or the deletion of one whose upload is seen |
| `BlockLog.RestoreAfterRuns` | `node/syncBlock.go:35-281` | after any runs, which start at the blocks and leave the checkpoints that the boots determine: if they were told what the log of the chain has, every event of every scanned block can be found unless a failure on its owner's list excuses it, nothing else can, every block from 200 up to the larger checkpoint is scanned, and the answer is the log's uploads minus its deletions but for excused events and blocks a run crashed on; exactly that without failures; if every tick can retrieve its block, over any restarts n ticks scan exactly the n blocks from 200, and the answer is the uploads minus the deletions of these |
| `BlockLog.RunsProgress` | `node/syncBlock.go:35-281` | over any number of runs that read both checkpoints and write one each time, n ticks that can retrieve their block scan exactly the blocks 200 to 200 + n - 1 |
| `BlockLog.WalkTold` | `node/syncBlock.go:98-280` | what one run is told is the log of the blocks it passes, and perhaps some of the block it crashes on |
| `BlockLog.FirstRunStarts` | `node/syncBlock.go:50-83` | the first run of all starts at block 200 |
| `BlockLog.PanicIsReached` | `node/getRestore.go:114-118` | from an empty index, three deletions of one account, the last with a failing Put, leave lists on which the deletion merge panics |
| `RestoreList.Subtract` | `node/getRestore.go:134-145` | the quadratic loops keep, in order, exactly what the other list does not have |
| `RestoreList.WithoutEach` | `node/getRestore.go:134-145` | what it computes keeps or leaves out each entry on its own, so that order and repetitions stay |
| `RestoreList.MergeUploads` | `node/getRestore.go:90-109` | the fallback list, then what only the database has |
| `RestoreList.MergeDeletions` | `node/getRestore.go:110-127` | panics if and only if the fallback list is non-empty and shorter than the database list; otherwise the union of both |
| `RestoreList.Answer` | `node/getRestore.go:90-147` | as a set the answer is uploads minus deletions over both tiers; as a list it has first what the fallback file has, then what only the database has, each in its order; when it panics |
| `Placement.GroupFragments` | `node/tracker.go:267-272` | panics if and only if there is no segment or a row is shorter than the first; else each key holds its columns, and all keys together hold each fragment as often as the segments do |
| `Placement.KeysCountFromOneIff` | `node/tracker.go:268-270` | the keys are 1 to F if and only if F is at most 255 |
| `Placement.TransposesIff` | `node/tracker.go:267-272` | each batch is one column of the fragment matrix if and only if there are at most 256 |
| `Placement.FragmentsConserved` | `node/tracker.go:267-272` | the multiset of fragments over all batches is that over all segments, also where keys collide |
| `Placement.SendFragment` | `node/tracker.go:321-329` | a fragment is accepted if and only if one of ten tries is; each call is one try in order, all but the last are refused, and an unaccepted fragment was tried ten times |
| `Placement.SendBatch` | `node/tracker.go:308-342` | the peer counts as failed if and only if fragment 0 never got through; which calls and which one feedback are made |
| `Placement.PlaceBatch` | `node/tracker.go:307-343` | a batch is placed or the iterator is used up, and earlier placements stand |
| `Placement.PlaceBatches` | `node/tracker.go:281-346` | over all batches in any map order: later attempts use later peers, after a success neither its batch nor its peer again, and no peer the iterator gives is passed over unless it reported or succeeded before |
| `Placement.CallHasAttempt` | `node/tracker.go:307-343` | every call belongs to an attempt, an accepted one to a successful attempt |
| `Placement.OnePeerPerBatch` | `node/tracker.go:283-343` | two accepted sends went to the same peer if and only if they are of the same batch |
| `Placement.NothingSentTwice` | `node/tracker.go:281-311` | nothing is sent for a reported batch, or to the resolved peer of a miner that reported |
| `Placement.CallsBounded` | `node/tracker.go:320-336` | at most ten calls per segment and attempted peer |
| `Placement.SuccessDeliversIff` | `node/tracker.go:308-342` | a successful peer has its whole batch if and only if each fragment got through in ten tries; always with one segment |
| `Placement.SuccessNeedNotDeliver` | `node/tracker.go:308-342` | with two or more segments a peer can be successful with nothing but the first fragment |
| `Placement.SuccessGuaranteesDeliveryIff` | `node/tracker.go:308-342` | that a peer counts as a success guarantees that it has its batch if and only if the file has one segment |
| `Placement.StorageData` | `node/tracker.go:263-347` | the whole call for any map order, iterator and network: when it panics; nothing is sent for a batch that is in the complete list, or to a peer that was resolved from it; free and distinct peers; one feedback per attempted peer; the bound on calls; a batch that is neither placed nor in the list is left only with the iterator used up |
| `TrackLifecycle.ExitIsDue` | `node/tracker.go:108-260` | a turn ends in each of its twelve ways, or lets the next one follow, if and only if the answers of the chain, the record and the failing calls are the ones stated |
| `TrackLifecycle.EndingMeans` | `node/tracker.go:121-219` | at each end exactly what is removed and in which order: the shared copy only of a stored file, the combined file kept as the shared copy only for a declared duplicate, each before the data, the record last |
| `TrackLifecycle.AfterMeans` | `node/tracker.go:137-236` | field by field the record a turn leaves: the file never changes, progress is reset if and only if there was no order, a duplicate becomes primary if and only if its order is gone |
| `TrackLifecycle.TrackedFile.TrackOrder` | `node/tracker.go:191-260` | the part of a turn after an order was found: its end, its writes and its removals |
| `TrackLifecycle.TrackedFile.OneTurn` | `node/tracker.go:108-260` | the end of a turn, what is done to the disk in which order, and the record that is left |
| `TrackLifecycle.TrackedFile.TrackFile` | `node/tracker.go:100-261` | a run goes on exactly while the turns call for it and ends as the last one says: the record goes if and only if the file is stored, declared, deauthorised or mismatched and its removal succeeds; the data goes if and only if there is some, it is due and its removal succeeds, and stopped anywhere it outlives a record that is gone exactly if its removal failed; the shared copy is removed if and only if the file is stored, and made from the combined file if and only if it is declared, before the data goes; otherwise owner, hash and segments are unchanged, and the record is the last one written, with the progress fields the turns call for |
| `TrackScheduler.TrackFileType.AddTrackFile` | `inter/trackfile.go:37-49` | adds if and only if there are fewer than ten and the file is not among them, and says which |
| `TrackScheduler.TrackFileType.DelTrackFile` | `inter/trackfile.go:58-62` | removes just this file |
| `TrackScheduler.NextKeepsInv` | `node/tracker.go:58-98` | each step of scanner and workers keeps the invariant |
| `TrackScheduler.NoMoreWorkersThanFiles` | `node/tracker.go:76-81` | workers with different files are no more than the files |
| `TrackScheduler.AtMostTenWorkers` | `node/tracker.go:58-98` | at every point of every interleaving the tracked set is the files being worked on or started, no file has two workers, and there are at most ten |
| `TrackScheduler.FreeFileIsTracked` | `node/tracker.go:71-99` | a listed file that is there and not tracked gets a worker when there is room, and is free again when the worker is done |
| `TrackScheduler.OtherFilesArePassedOver` | `node/tracker.go:71-79` | a file that is missing, tracked, or one too many is passed over, and with ten tracked no list is looked at |
| `TrackDirectory.RunKeepsInv` | `node/node.go:210-276` | writers under the lock never leave a temporary or half-written file behind when they release it |
| `TrackDirectory.ReadersSeeWholeRecords` | `node/node.go:210-276` | for every interleaving through `WriteTrackFile`, readers list no temporary name and parse only whole records under their own hash |
| `TrackDirectory.RecordsUnderTheirHash` | `node/node.go:210-240` | between writes the directory holds only whole records, each under its own hash |
| `TrackDirectory.WriteLeavesRecord` | `node/node.go:210-240` | a write that meets no failure leaves the whole record under its name, everything else as it was, and the lock free |
| `TrackDirectory.FailedWriteLeavesRecords` | `node/node.go:210-240` | a write that fails at creating, filling, syncing or renaming leaves all records as they were and the lock free |
| `TrackDirectory.WrittenRecordIsRead` | `node/node.go:242-270` | what was written is then listed, and parsed with the hash it carries |
| `TrackDirectory.RemovedRecordIsGone` | `node/node.go:272-276` | a removal removes just this record, under the lock only when it is free |
| `TrackDirectory.ExposesIff` | `node/putHandle.go:256-273` | from a directory in order a step exposes a partial or temporary file if and only if it begins a write in place, or is a crash while a temporary file is there |
| `TrackDirectory.KeepsGuaranteeIff` | `node/node.go:210-276` | a run keeps the guarantee at every point if and only if none of its steps is of these kinds |
| `TrackDirectory.CompleteRecordsUnderTheirHash` | `node/node.go:210-252` | with all five writers, the worker that writes back what it parsed among them, and through crashes: a complete record under a hash is the record of that hash, on disk and in what is parsed |
| `TrackDirectory.WrittenBackUnderItsHash` | `node/tracker.go:137-146` | what the worker writes back carries the name it is written under, because what it parsed did |
| `TrackDirectory.NoWorkerMismatches` | `node/tracker.go:191-194` | over every interleaving of writers, removals and crashes and every answer of the chain, a worker finds a record of another file only on the leftover of a crashed write |
| `TrackDirectory.NoWorkerMismatchesOrderly` | `node/tracker.go:191-194` | without crashes and writes in place it never does, under any name |
| `TrackDirectory.CrashedWriteCanMismatch` | `node/tracker.go:191-194` | on such a leftover it can |
| `TrackDirectory.InPlaceRecordIsSeenPartial` | `node/putHandle.go:256-273` | a reader can meet the record of `deduplication` half written |
| `TrackDirectory.CrashLeavesTemporary` | `node/node.go:217-238` | after a crash a temporary name can be listed |
| `FetchFiles.FullRowFillsSlots` | `node/getHandle.go:419-424` | with a full row, a segment is restored from its own fragments |
| `FetchFiles.OwnFragmentsOnlyIff` | `node/getHandle.go:419-453` | a segment is restored from its own fragments only if and only if no row before it is longer |
| `FetchFiles.ShortRowMixesSegments` | `node/getHandle.go:419-424` | the smallest case: a row of one after a row of two |
| `FetchFiles.WriteSegments` | `node/getHandle.go:463-476` | the write loop ends the process if and only if a segment cannot be read back, else panics if and only if the file size less all segments but the last is negative or longer than the last, else leaves what the writes left, failed ones included |
| `FetchFiles.WholeUnlessCut` | `node/getHandle.go:470-474` | what the writes leave is what was meant if and only if none failed before its end, and shorter otherwise |
| `FetchFiles.FetchFiles` | `node/getHandle.go:418-481` | it succeeds only if no query failed, all rows fit and every segment was restored from its slots, and then yields the segments written back; each error and each panic has one of the stated causes |
| `FetchFiles.CutAndWriteBack` | `node/getHandle.go:463-476` | cutting any file into zero-padded segments and taking them together with the last one cut gives the file, byte for byte |
| `FetchFiles.DownloadIsTheFileIff` | `node/getHandle.go:418-481` | with full rows and exact restoring, no slice is out of range, and what is returned is the original file if and only if no write failed; otherwise a shorter file is returned as a success |
| `RestoreCharge.SumBounds` | `node/postRestore.go:134-147` | the rounded sum is a multiple of the segment size, at least the bytes, and less than one segment more for each file |
| `RestoreCharge.ChargeBounds` | `node/postRestore.go:134-149` | for an even segment size the charge is one and a half times the rounded sum without remainder, and so bounded by the bytes |
| `RestoreCharge.UsedSpace` | `node/postRestore.go:134-149` | the loop computes that charge; files that are not there cost nothing |
| `RestoreCharge.RecordedIsCharged` | `node/postRestore.go:134-193` | the files that get a record, as often as they do, cost no more than was charged |
| `RestoreCharge.WriteRecords` | `node/postRestore.go:163-193` | exactly the listed files that exist, have a hash for a name and could be written get a record |
| `RestoreCharge.PostRestore` | `node/postRestore.go:134-193` | nothing is recorded unless the charge fits; exactly the listed files that exist, have a hash for a name and could be written get a record, with their hash, owner, bucket and size, no segments and no progress; what is recorded is charged for and fits; no other record changes |
| `Text.AtoiOfItoa` | `node/putChunksHandle.go:266` | `strconv.Atoi` undoes `%d` for every non-negative int |
| `Text.LastFieldAfterSeparator` | `node/putChunksHandle.go:265-266` | the last field of a split is the text after the last separator, whatever comes first |
| `Text.AtoiReadsIff` | `node/putChunksHandle.go:266` | exactly which decimal texts are read, and as what |
| `Text.LessByFirstDifference` | `node/putChunksHandle.go:255` | names are listed by their first difference |

## Left out

Parts of the gateway:

- HTTP, gin, headers, status codes, logging, CLI and configuration, beyond the decisions that change state.
- Signature, account, bucket, space and authorisation checks: one Boolean per request (`admitted`). Memory,
  disk-space and expiry checks: Booleans (`tooMany`, `expired`).
- The chain, libp2p, the peer scheduler, the file cache, sharding and encryption: parameters or Booleans.
  `erasure.RSRestore` is assumed to be exact or to fail. `fetchFiles` does not use its cipher.
- `wantFiles` bookkeeping, the request channels, peer map, blacklist, access list, the other handlers, and
  the small helpers of `pkg`.
- `TaskMgt` does not start `syncBlock` at present; the function itself is modelled.

What the model takes for granted:

- Whole records and lists survive JSON encoding and decoding. A failed write of a whole file leaves the old
  value; only `chunk-info` and the record of `deduplication` may also be left torn.
- Integers are unbounded except where stated (`uint8` batch keys, `uint32` blocks, header ints): overflow of
  `int64` sizes and sums and allocation of a huge `SavedBlocks` are not modelled. The length of a file name
  is counted in characters.
- Account names, file names and hashes are plain directory entries, without separators or `..`. A file called
  `chunk-info` would have its combined file replace the record of its upload; the model keeps the two apart.

Members with a narrower reading than the code:

- ChunkUpload.UploadDir.Handle: after a removal that stops half way only chunk-info and the chunk files are
  followed; a combined file or fragments left beside them are not, and matter only to an upload of another file
  name that shares the directory. The branch for a body that is not multipart, which dereferences a nil header,
  is not part of this model.
- ChunkRuns.ServeValid: assumes that the existence test of `chunk-info` does not fail and that no removal leaves
  chunk-info without a chunk it records (`Steady`); ChunkRuns.RecordedChunkChangesIff and
  ChunkRuns.RemainingValidIff say exactly what such failures do, and ChunkRuns.StepWellFormed what holds
  regardless.
- ChunkRuns.StaysResumable: assumes the same, and with it ChunkRuns.CanBeFinishedIff; ChunkRuns.TornRecordBlocks
  assumes the first: after a failed existence test a torn record is replaced by a new one.
- ChunkRaces.RecordStaysConsistent: whole-record reads and writes are atomic, combining is one step, and only
  lengths of chunk files are kept. The sweep of old uploads is not part of the interleavings, and the removal at
  the end of an upload succeeds in them.
- ChunkRuns.CanBeFinishedIff: for a client that always announces the same name, number of chunks and total
  size, with a name that is not too long and numbers that fit the headers.
- FileProcess.FileProcess: sharding is taken to leave the fragments beside the combined file under other names.
  The order declared to the chain after the record is written changes nothing on disk and is not part of it.
- FileProcess.FinishChunks: the chunk files themselves are relocated with the directory; only fragments are
  followed.
- BlockLog.RestoreAfterRuns: a turn that retrieves a block is told its events exactly, or some of them before a
  crash (`AllFollow`); events the chain fails to return, an error the code ignores, are not in that log.
  Checkpoints are kept as the number their text stands for. A height query that fails yields 0. The question at
  the end is asked with reads that succeed.
- Placement.StorageData: a fragment is identified by its place in its batch, and the network by which try it
  accepts; a failing iterator, which returns before anything is sent, is not part of it.
- TrackLifecycle.TrackedFile.TrackFile: data whose removal fails counts as left, even if only in part. That
  another party removes the record meanwhile appears as a failed parse. The result of `storageData` is a
  Boolean here.
- TrackDirectory.ReadersSeeWholeRecords: excludes the writer in `deduplication` and crashes, which break it.
  The removal of the temporary file is taken to succeed.
- FetchFiles.FetchFiles: begins where the target is known to be absent and no copy is at hand. A slice past
  the length of the buffer counts as a panic even within its capacity, and so does the wrap-around of a
  negative length.
- RestoreCharge.PostRestore: the file directory does not change between the two loops.
