# A verified model of knoxite

knoxite is a deduplicating backup tool. It cuts a file into chunks with concurrent workers, compresses, encrypts and
erasure-codes each chunk, spreads the parts over several storage backends, keeps an index of which snapshot uses which
chunk, reads chunks back in full or by offset, and deletes the parts of chunks that no snapshot uses any more.

This project models that chain in Dafny and proves what it is for: that a backup restores to the original bytes after
any tolerated loss of backends, that a restore is never silently wrong, that garbage collection never deletes what a
listed snapshot needs, and, over whole runs of commands, all of this together (`Safekeeping.HealthyBackupRestores`,
`Safekeeping.ListedSnapshotRestores`).
Where the code does not keep such a promise, the project proves exactly when it does, and exhibits what happens
otherwise.

`dafny verify dfyconfig.toml` checks everything.

## How it is built

| file | what it models |
|---|---|
| `Basics.dfy`, `Libraries.dfy` | shared vocabulary; the third-party libraries as a record of functions with their laws |
| `Chunking.dfy`, `Batching.dfy` | the goroutines of `chunkFile` and `gatherTargetInformation` as transition systems with rendezvous steps |
| `Codec.dfy` | CFB mode (section 6.3 of NIST SP 800-38A) over an arbitrary block function, processors and pipelines |
| `Erasure.dfy` | splitting, joining and the law of the erasure code; bytewise xor as an instance of it |
| `Backends.dfy`, `Resilience.dfy`, `Naming.dfy` | backends with a fault oracle, the class `BackendManager`, what its retries and its round robin guarantee, file names |
| `Archives.dfy`, `Decoding.dfy`, `Reading.dfy`, `Verifying.dfy` | chunk numbers and offsets, `loadChunk`, restore, verification, the cached random access |
| `Storing.dfy` | the consumer loop of `Snapshot.Add`, for one file and for all files of a snapshot, and what it leaves on the backends |
| `Enduring.dfy`, `Surviving.dfy`, `RoundTripping.dfy` | what becomes of a stored part while the backends go on being used; fault tolerance of a chunk; the round trip of a file and of a snapshot |
| `ChunkIndexing.dfy`, `Packing.dfy`, `Reindexing.dfy` | the class `ChunkIndex`, what a pack deletes, what a rebuilt index holds |
| `Repository.dfy`, `Collecting.dfy`, `Hazards.dfy` | the commands as steps over replicated stored files with crash points; when each keeps the invariant; what goes wrong |
| `Commands.dfy`, `Linking.dfy` | the commands statement by statement, proved to be those steps; what storing gives to a store step, and what saving a file on backends with faults gives to its writes |
| `ReadingBack.dfy` | a stored file read back at any offset through the cache |
| `Safekeeping.dfy`, `FirstBackup.dfy` | runs of commands on metadata and backends together: every file of every listed snapshot restores; a first backup as a run that meets all that this asks for |

Code that changes things in place is modelled by classes and loops: `BackendManager`, `ChunkIndex`, `ChunkCache`, the
repository object `Repo` and the stored files `Storage`. Each of their methods is proved equal to a function of its
inputs and of the old state, and the properties are lemmas about these functions. Goroutines are transition systems:
an interleaving is a sequence of actions, and the theorems are about every sequence.

## Assumptions

* No two byte strings in play have the same hash (`CollisionFree`). Each theorem names them: the encoded pieces for the
  round trip of a file or a snapshot, those of everything that is stored for a whole run, the pieces and what was
  restored for a restore, the pieces and what is cached for a cached read.
* Each compressor and its decompressor are inverse (`CompressionLaws`); AES maps blocks to blocks and SHA-256 gives 32 bytes
  (`CipherLaws`). Nothing else is asked of the ciphers: CFB needs only the forward block function.
* Any k of the k + m shards of the erasure code determine all of them (`Lawful`), and k or more shards of one size, whatever
  they hold, are completed to k + m of that size (`Completes`); `XorCodeIsLawful` and `XorCodeCompletes` show that this
  can be met.
* The id of a new snapshot is new (`Fresh`).
* Stores into one repository that use the same number of data parts use the same number of parity parts (`SameCounts`); a
  constant tolerance is enough for that.
* A torn metadata file, a proper prefix of what was written, cannot be read as one (`ReadsBack`).
* One client at a time works on a repository.

## What was found

* `Snapshot.Clone` shares the archives but never adds their chunks to the index under the new id. `StoreExact` gives the
  exact condition for a clone to be safe, `CloneLoses` and `CloneTrace` the loss of data after clone, remove and pack,
  whatever files the clone adds, and
  `RegisteringCloneKeeps` and `CloneThenReindexKeeps` two ways in which a clone is safe.
* Removing a snapshot or a volume saves the index before the repository. Between the two there is a gap (`RemovalExact`)
  in which a pack loses data (`RemovalGapLoses`); in the other order there would be none (`RepositoryFirstHasNoGap`).
* A store that fails can leave a torn copy of a part behind. If the part is later stored on another backend, the torn copy
  may be the one that is served, and the chunk cannot be read although every backend is healthy (`TornCopyIsServed`).
  It is the same the other way round: a later backup that fails can destroy what an earlier one has stored
  (`LaterFailureDestroys`), since round robin sends the same chunk to other backends each time. `StillServedExactly` and
  `StillLoadsExactly` say exactly when a stored part is still served and a chunk still loads, after any later operations:
  no copy may be torn ahead of every right one. A torn copy takes a store of that very part that has failed on that
  backend (`TornNeedsFailure`). Fault tolerance and the round trips ask for that and no more.
* One corrupted part of the right size among the first that are loaded makes a chunk unreadable, although enough intact
  parts exist and losing that part would have been harmless (`CorruptPartHidesIntactOnes`), unless the decompressor
  happens to make the same data of it.
* A pack that is stopped half-way can never be completed: the parts it has deleted cannot be deleted again
  (`FailedPackSticks`).
* `DeleteChunk` deletes one copy of a part; a part that has copies on several backends outlives the pack (`PackExact`).
* A reindex that reads a stale copy of the repository forgets snapshots that other copies list (`ReindexExact`).
* `AddArchive` keeps the part counts of the first chunk it sees with a hash, so that a rebuilt index depends on the order
  of a map iteration (`OrderMattersOnlyForCounts`, `OrderCanMatter`), and parts that were stored under other counts are
  never deleted (`LeakExact`).
* The workers ignore the error of the pipeline's constructor: with AES and no password a pipeline without processors stores
  each piece as it is (`EncodedExact`).
* A chunk that a worker fails to encode is dropped without an error for the caller (`DroppedAndReported`), and an archive
  that lost its last chunks restores without an error to a prefix of the file (`DroppedChunks`).
* A failed load leaves the cache's mutex locked, and every later lookup waits for ever (`MutexLostExactly`,
  `LostForEver`); the cache is keyed by the encoded hash alone
  (`CacheKeyIgnoresSettings`).
* The number of failed backends in a reconstruction error wraps around if and only if no round of the loop can put the
  chunk together and more than DataParts parts could be loaded (`FailureReportExact`, `FailureReportWraps`).
* `StoreChunk` returns the size of the largest part it has written, which is what it has written in all only if it has
  written at most one (`StoreReportsLargest`, `ReportIsWhatWasWritten`), and `Pack` counts
  the size of the whole chunk once per part (`PackExact`).
* `executeVolumeRemove` fails on a volume that lists a snapshot twice, because each iteration of its loop replaces the list
  (`Commands.RemoveEach`).

## Model

| member | source | states |
|---|---|---|
| Chunking.ChannelSafety | chunk.go:98-138 | in every state that any interleaving of producer, four workers, closer and consumer reaches: the WaitGroup equals the active producer plus the jobs in flight, no goroutine is about to send on a closed channel, no outcome is delivered twice, and after the close each has been delivered exactly once |
| Chunking.StepKeepsInvariant | chunk.go:98-138 | every step of every goroutine keeps the count of the WaitGroup and the account of where each job is |
| Chunking.EveryRunEnds | chunk.go:100-138 | with a draining consumer every run has at most six steps per piece and eleven more, and a run that cannot go on has ended all goroutines with every outcome delivered once |
| Chunking.SomeStepEnabled | chunk.go:100-138 | no deadlock: until all goroutines have ended, one of them can move |
| Chunking.EveryRunCanEnd | chunk.go:100-138 | every run of producer, workers, closer and consumer can be continued to its end |
| Batching.ChannelSafety | snapshot.go:62-118 | the same for the collector and its unbounded number of batch senders: nothing is sent after the close, and each scan result is delivered exactly once |
| Batching.BatchSizes | snapshot.go:104-116 | batches are full: a sender that starts while results are still coming in has 128 of them, the last one fewer |
| Batching.EveryRunEnds | snapshot.go:62-118 | every run of collector, senders and consumer ends, with everything delivered |
| Codec.CfbCharacterised | encryption.go:60-70 | the equation of CFB mode between a plaintext and a ciphertext of any length, a partial last block included, holds if and only if one is the encryption of the other, and if and only if the other is the decryption of the one |
| Codec.CfbRoundTrip | encryption.go:60-114 | for every block function, IV and length: decryption and encryption undo each other and keep the length |
| Codec.PipelinesUsable | pipeline.go:26-57 | the two constructors fail together, exactly for AES with an empty password, and otherwise build pipelines that do not panic |
| Codec.Process | pipeline.go:60-70 | the processor loop computes the composition of the processors up to the first error |
| Codec.PipelineRoundTrip | pipeline.go:26-70 | the decoding pipeline undoes the encoding pipeline for every valid pair of algorithms, every accepted password and every input; encoding fails only where the compressor does |
| Codec.EncodingExact | encryption.go:36-70 | what the encoding pipeline gives, for every algorithm, password and input: an error if and only if the compressor refuses the data; otherwise exactly the compressed data itself without encryption, and with AES exactly the bytes that satisfy the equation of CFB mode with it, under the SHA-256 of the password as the key and its first block as the IV |
| Codec.DecodingExact | encryption.go:81-114 | what the decoding pipeline makes of any bytes at all: there is exactly one text that they are the encryption of under that equation, and the result is what the decompressor makes of it, or its error |
| Erasure.JoinSplit | redundancy.go:12-29 | joining the data shards of a chunk gives its bytes without the padding, for every number of shards and every nonempty chunk |
| Erasure.SplitExact | redundancy.go:18-21 | every byte of every shard: the shards have one size, the least that is enough, and hold the data in order, the last ones padded with zeros |
| Erasure.AnyShardsSuffice | redundancy.go:12-29 | any k intact shards of the k + m rebuild all of them and join to the chunk |
| Erasure.DataShardsSuffice | redundancy.go:12-29 | the k data shards alone join to the chunk without a rebuild |
| Erasure.XorCodeCompletes | redundancy.go:12-29 | the law about sizes is met by xor too |
| Erasure.XorCodeIsLawful | redundancy.go:12-29 | the law that is asked of the erasure code is met by one xor parity shard over any number of data shards |
| Backends.BackendManager.AddBackend | backendmanager.go:37-39 | the backend becomes the last one; the others and their order stay |
| Backends.BackendManager.LoadChunk | backendmanager.go:52-63 | the backends are asked in order, each up to three times, and the first answer is returned; all effects on the backends are those of these attempts |
| Backends.BackendManager.StoreChunk | backendmanager.go:66-96 | part after part goes to the next backend, with up to three attempts each; the new contents, the new round-robin position and the result are those of the specification for every fault pattern |
| Backends.BackendManager.DeleteChunk | backendmanager.go:99-110 | the deletion is tried on the backends in order until one succeeds |
| Backends.BackendManager.AskFirst | backendmanager.go:113-124 | the loop that all Load methods share: up to three attempts on each backend in order, ending with the first answer |
| Backends.BackendManager.AskEvery | backendmanager.go:127-142 | the loop that all Save methods share: up to three attempts on each backend in order, ending with the first backend on which all fail |
| Resilience.FirstLoad | backendmanager.go:52-63 | loading changes nothing but time, returns some backend's own copy, and on backends that are each healthy or dead returns exactly the copy of the first live one that has it |
| Resilience.TryLoadHealthy | backendmanager.go:54-59 | fewer than three failures in a row are invisible to a load |
| Resilience.SaveEvery | backendmanager.go:127-142 | a successful save leaves the new bytes on every backend; a failed one has a backend i that failed three times in a row, with the new value before it and the old one after it |
| Resilience.FailedSaveTears | backendmanager.go:127-142 | a save that fails can leave any proper prefix of the new file, the old one being lost |
| Resilience.SavedFileIsRead | backendmanager.go:113-174 | after a successful save every later successful load returns the saved bytes, whichever backends have failed since, and one healthy backend is enough for it to succeed |
| Resilience.HealthySaveSucceeds | backendmanager.go:127-142 | a save succeeds on backends that never fail three times in a row |
| Resilience.PlaceNear | backendmanager.go:69-72 | up to n parts go to n different backends, cyclically from any position |
| Resilience.StoreEffect | backendmanager.go:66-96 | what a successful StoreChunk leaves of any part on any backend, whatever was there: the part's bytes where round robin put it, unless a copy of that size was there already, and what was there everywhere else |
| Resilience.StorePlaces | backendmanager.go:66-96 | after a successful StoreChunk each part is on the backend that round robin picks for it |
| Resilience.StorePosition | backendmanager.go:69-72 | a successful StoreChunk moves the round-robin position by one for each part |
| Resilience.StoreGrows | backendmanager.go:66-96 | StoreChunk, successful or not, makes no backend lose a part |
| Resilience.StoreFrame | backendmanager.go:66-96 | StoreChunk, successful or not, changes no metadata and no part of another chunk on any backend |
| Resilience.StoreReportsLargest | backendmanager.go:85-87 | on backends that do not fail StoreChunk reports the size of the largest part that it has written, whatever was stored before |
| Resilience.ReportIsWhatWasWritten | backendmanager.go:85-95 | that is what it has written in all if and only if at most one part was missing and not empty |
| Resilience.StoreReportsNoMore | backendmanager.go:85-87 | whatever fails and whatever was there, it never reports more than the largest part |
| Resilience.HealthyStoreSucceeds | backendmanager.go:76-94 | on backends that never fail three times in a row, whatever torn copies the failures in between leave, every StoreChunk succeeds |
| Resilience.DeleteTakesOneCopy | backendmanager.go:99-110 | a successful deletion takes away exactly one copy of its part, a failed one none, and no copy of another part |
| Resilience.DeletableIffStored | backendmanager.go:99-110 | on healthy backends a part can be deleted if and only if some backend has it |
| Resilience.DeadDeleteNothing | backendmanager.go:99-110 | on backends that have failed for good every deletion fails, whatever they hold |
| Naming.FileNameInjective | storage_filesystem.go:73 | different parts have different file names, whatever characters the hashes consist of |
| Naming.DecimalDenotes | storage_filesystem.go:73 | the numbers in a file name are read in base 10, without leading zeros |
| Naming.PathInjective | storage_filesystem.go:71-73 | two parts share a file of a backend if and only if they are the same part |
| Naming.SubDirExact | storage_filesystem.go:155-157 | two parts share a directory if and only if their hashes begin with the same four characters |
| Archives.IndexOfChunk | archive.go:46-54 | the index of the first chunk with the number, or the error if there is none |
| Archives.ChunkForOffset | archive.go:58-76 | on a complete archive in any order: end of file exactly when the offset is past the file or the file is empty, otherwise the chunk and the place in it where the byte is, a negative place in the first chunk for a negative offset; the seek error only for a missing number |
| Archives.CompleteIffNumbers | archive.go:46-54 | chunks with different numbers can all be found by number if and only if their numbers are 0, 1, ... up to their count |
| Decoding.DecodedEncoded | decode.go:109-125 | decoding what was encoded with the archive's settings gives the data back if its checksum is the recorded one and a checksum error if not |
| Decoding.EncodedExact | chunk.go:46-51 | what is stored of a piece: an error exactly where the compressor refuses it, otherwise the bytes that Codec.EncodingExact says; with AES and no password the pipeline has no processors and the piece itself is stored |
| Decoding.UnpackedExact | decode.go:109-119 | what is made of any stored bytes: their one decryption, decompressed, or the error of the decompressor |
| Decoding.DecodeChunk | decode.go:109-125 | for any input a result has the recorded checksum, and on the encoded form of some data the result is that data exactly if its checksum is the recorded one |
| Decoding.LoadChunk | decode.go:127-178 | with any fault pattern only time passes on the backends and a result has the recorded checksum; on steady backends the result is the one that their contents determine |
| Decoding.BadCountsExactly | decode.go:128-132 | the erasure library refuses the counts if and only if there is parity and either no data part or more than 256 parts in all, whatever the backends hold |
| Decoding.LoadedExactly | decode.go:127-170 | for any contents whose first DataParts parts can be put together: loadChunk decodes those if there are so many, asks for no more, and otherwise has the exact numbers found and missing in its error |
| Decoding.ReconstructionBySize | decode.go:127-170 | when the parts that can be loaded have one size, whatever they hold: failing to reconstruct is the outcome if and only if fewer than DataParts parts can be loaded, with exact counts that do not wrap around; otherwise the first DataParts of them are put together and decoded |
| Decoding.ReconstructionExact | decode.go:127-170 | when parts are intact or lost: the chunk is returned if and only if at least DataParts parts can be loaded, no part is asked for after the DataParts-th success, and otherwise the error has the exact numbers found and missing |
| Decoding.CorruptPartHidesIntactOnes | decode.go:149-166 | for every compressor: with one data part corrupted and all others intact loadChunk asks for DataParts parts and returns the decoder's error, or a checksum error unless the decoder happens to give the same data, which without compression it never does; with that part lost instead it returns the chunk |
| Decoding.FailureReportExact | decode.go:127-170 | for any contents at all: the first round that can put the chunk together decides the outcome; loadChunk fails to reconstruct if and only if there is no such round, and then names the number of parts found; the count of failed backends wraps around if and only if moreover more than DataParts parts could be loaded |
| Decoding.FailureReportWraps | decode.go:170 | a concrete chunk and contents for which the unsigned subtraction wraps around |
| Decoding.DecodeArchive | decode.go:222-243 | whatever the backends return: success means that every chunk number was found and every piece written has its recorded checksum |
| Decoding.RestoreIntegrity | decode.go:109-125 | pieces with the recorded checksums are the original ones, so a restore either fails or writes the original bytes |
| Decoding.VerifyArchive | verify.go:187-207 | the checking loop returns what the contents of steady backends determine and changes nothing |
| Decoding.VerifyAgreesWithRestore | verify.go:187-207 | VerifyArchive returns nil if and only if what it is given is not a file or the restore loop would succeed on the same contents, and otherwise the error of the restore |
| Decoding.CompleteRestores | decode.go:222-243 | a complete archive in any order restores to its pieces in the order of their numbers |
| Decoding.DroppedChunks | decode.go:222-232 | with chunks missing the restore succeeds if and only if the surviving numbers have no gap, and gives a prefix of the file; otherwise the error names the first gap |
| Reading.CacheCoherence | decode.go:269-342 | over every sequence of lookups and prefetches: cached data is what loading the chunk would return, if equal encoded hashes mean equal data |
| Reading.MutexLostExactly | decode.go:295-307 | over every sequence of lookups from the start: the mutex is held for ever if and only if one of them asks for a chunk that cannot be loaded and that no earlier lookup has loaded |
| Reading.LostForEver | decode.go:324-333 | once that has happened every later lookup of a chunk that exists waits for ever |
| Reading.CacheKeyIgnoresSettings | decode.go:294-304 | without that condition a lookup returns another chunk's data, which has the right checksum if and only if the two chunks hold the same data |
| Reading.ChunkCache.ReadArchiveChunk | decode.go:318-342 | the method's effect on cache, mutex and result is that of the specification; with the mutex held it returns nothing |
| Reading.ChunkCache.DecodeArchiveData | decode.go:279-315 | on a readable archive the cached reader returns the whole file and leaves the cache coherent, with every chunk looked up once in the order of the numbers |
| Reading.ChunkCache.Prefetch | decode.go:379-383 | the goroutine that ReadArchive starts is one more lookup, also of a number past the last chunk, and leaves a readable archive readable |
| Reading.ChunkCache.ReadArchive | decode.go:345-387 | for chunks in any order and every offset and size, prefetch included: exactly the window of the file, end of file past its end, nothing for a size that is not positive, and a panic if and only if the offset is negative and something is asked for; the cache holds in the end just what the lookups of the chunks of the window and of the one after it leave; on any complete archive, where the first chunk cannot be had the read waits for ever if the mutex is held and panics otherwise |
| Reading.ReadsCover | decode.go:345-387 | what ReadArchive answers to consecutive reads, each starting where the one before ended, concatenates to the file from any offset on |
| Reading.CoherentIsReadable | decode.go:318-342 | the hypotheses of ReadArchive follow from a coherent cache and from hashes that do not collide on the pieces and what is cached |
| Verifying.Target | verify.go:159 | the number of archives to verify is the percentage rounded up, all of them for 100 and more, none for 0 and less |
| Verifying.SelectArchives | verify.go:148-166 | for every sequence of draws: never more keys than wanted, an unpicked key whenever the loop goes on, an end once the draws have hit every index, and the whole snapshot for 100 percent |
| Storing.PartCounts | cmd/knoxite/store.go:124-145 | an error exactly if the tolerance leaves no backend; otherwise as many parity parts as the tolerance, at least one data part, and one part for each backend in all |
| Storing.AddChunks | snapshot.go:176-216 | the consumer loop computes chunks, statistics and the new state of the backends from the messages in their order of arrival, for every fault pattern |
| Storing.DroppedAndReported | snapshot.go:177-198 | every message becomes a chunk or is dropped, and the errors that reach the caller fall short of the dropped chunks by exactly those that were lost before they got to the backends |
| Storing.HealthyDropsEarlyLosses | snapshot.go:177-198 | on such backends exactly those chunks are dropped that were lost before they got to the backends |
| Storing.AddedOnBackends | snapshot.go:188-199 | for every fault pattern and whatever was stored before: every part of every chunk that gets into the archive is on some backend, and no backend has lost a part |
| Storing.AddedEffect | snapshot.go:176-216 | if nothing was dropped: the round-robin position, and for every part and every backend what is there in the end, in terms of what was there before |
| Storing.AddedRecords | chunk.go:51-82 | the archive only ever holds records of pieces that were received, right in every field: the length and the checksum of the piece, the length and the checksum of its encoded form, as many parity parts as chosen, and the data parts chosen, or one without parity |
| Storing.ChunkExactly | chunk.go:51-86 | when a message brings a chunk, if and only if: it is a piece, the compressor accepts it, and with parity the counts are right and there is something to split; its parts are then the encoded piece, or its shards followed by their parity |
| Storing.AddedTransferred | snapshot.go:204-209 | the transferred size is the sum of the original sizes of the chunks in the archive |
| Storing.AddedStorageSize | snapshot.go:190-210 | on backends that do not fail the storage size is the sum, over the chunks, of the largest part of each that was not there yet |
| Storing.FiledArchives | snapshot.go:132-219 | every target but files that cannot be opened any more gets one archive, in their order, with its path, kind and size; a file has the settings, chunks and storage size of the store, anything else has none |
| Storing.FiledIsStored | snapshot.go:132-219 | the same as AddedOnBackends for all files of a snapshot, one after the other |
| Enduring.StoreLeaves | backendmanager.go:66-96 | what StoreChunk leaves of any part on any backend whatever its outcome: only a part of the chunk changes, only where round robin puts it, and only from a copy that did not have the part's size to a prefix of the part, which is the part itself if it is whole |
| Enduring.AfterLeaves | backendmanager.go:52-142 | what any sequence of stores with any outcome, loads, saves, new backends, new starts of the program and deletions of other parts makes of a copy: a right one stays right, none vanishes, and a wrong one of the right size stays |
| Enduring.TornNeedsFailure | backendmanager.go:76-94 | a copy that such a sequence has torn was torn by a store of that very part which has failed, on that very backend |
| Enduring.StillServedExactly | backendmanager.go:52-63 | with a right copy on a remaining backend, after any such sequence and any loss, what is served is right if and only if no copy on a remaining backend before that one is torn ahead of every right one |
| Enduring.NoFailureKeepsRight | backendmanager.go:66-96 | operations none of which fails to store the part keep it rightly served |
| Enduring.AfterNoneTorn | backendmanager.go:66-110 | where no copy of a part is torn none ever will be, whatever is stored, deleted and stored again, unless a store of the part fails |
| Enduring.HealthyNeverFails | backendmanager.go:66-142 | on such backends no operation of any sequence fails to store a part |
| Enduring.StoredStays | backendmanager.go:66-96 | after a successful StoreChunk each part has a copy where round robin put it, through everything that follows short of its deletion |
| Enduring.HappenFiles | backendmanager.go:127-142 | of all operations only a save touches a metadata file, its own one, and a successful one leaves the new contents on every backend |
| Surviving.ServedIsFirstCopy | backendmanager.go:52-63 | after any loss what is loaded of a part is the copy on the first remaining backend that has one |
| Surviving.ServedExactly | backendmanager.go:52-96 | what is served of a part right after a store without failure is right or nothing if and only if, before, the first remaining backend that has a copy or gets one had no wrong copy that stays |
| Surviving.TornCopyIsServed | backendmanager.go:76-94 | two backends, no parity: after a store that fails and one that succeeds all backends are healthy, and the chunk cannot be read |
| Surviving.LaterFailureDestroys | backendmanager.go:69-94 | two backends, no parity: after a store that succeeds and a later one of the same chunk that fails all backends are healthy, and the chunk cannot be read any more |
| Surviving.LostBackendsCostOnePartEach | backendmanager.go:69-72 | from any round-robin position, losing backends costs at most one part of a chunk for each of them |
| Surviving.FaultTolerance | cmd/knoxite/store.go:124-145 | a chunk stored with tolerance t on n backends, from any round-robin position and whatever they held, loads to its original data after any later operations that do not delete its parts and after any t backends have failed for good, as long as no part's first remaining copy is torn |
| Surviving.UndisturbedServes | backendmanager.go:66-96 | that is so if the condition of ServedExactly held before and no later operation has failed to store one of its parts |
| Surviving.FaultToleranceExact | cmd/knoxite/store.go:124-145 | the tolerance is exact: a new chunk with t > 0 parity parts loads after the loss of any set of backends if and only if these are at most t; without parity if and only if the backend of its one part is not among them |
| Surviving.StillLoadsExactly | decode.go:173-177 | a chunk without parity, stored with success on a backend that remains, loads after any later operations if and only if the copy that is served decodes to its data; without compression, if and only if no copy is torn ahead of every right one |
| RoundTripping.RoundTrip | chunk.go:45-141 | for every content, every cut into pieces, every interleaving, every sequence of later operations that does not delete or replace its parts and every tolerated loss: if no chunk was dropped and no part's first remaining copy is torn, restoring the archive with its chunks in arrival order gives exactly the original bytes |
| RoundTripping.FiledIsEvents | snapshot.go:132-219 | storing all files of a snapshot does to the backends what the sequence of their stores does, whatever fails |
| RoundTripping.OtherFileSameParts | chunk.go:74-90 | a part of another file with the same name has the same bytes, if encoded pieces do not collide |
| RoundTripping.SnapshotRoundTrip | snapshot.go:132-219 | for all files of a snapshot, stored one after the other and sharing chunks in any way: each of them none of whose chunks was dropped, whatever happened to the others, has an archive that restores to exactly its bytes, after any later operations and any tolerated loss, on the same condition |
| RoundTripping.FileServedExactly | backendmanager.go:52-96 | a part of a file is served rightly right after the file was stored if and only if a condition on what the backends held before holds, and stays so through all operations that do not fail to store it |
| RoundTripping.NewPartServesRight | cmd/knoxite/store.go:124-145 | parts that no backend has yet meet that condition, whatever is lost later |
| RoundTripping.RestoreNeverWrong | decode.go:222-243 | whatever failed while storing, whatever the order of arrival and whatever the backends hold: a restore that succeeds gives a prefix of the file, and the file itself if no chunk is missing from the archive |
| RoundTripping.ArchiveNumbersDistinct | chunk.go:108-130 | no two chunks of an archive have the same number, whatever fails and in whatever order they arrive |
| ReadingBack.StoredIsReady | archive.go:58-76 | a file in nonempty pieces that was stored without loss, in any interleaving, meets all that the cached readers ask for, the recorded sizes included, after any later operations and any tolerated loss, on the condition of the round trip |
| ReadingBack.ReadStored | decode.go:345-387 | store, then ReadArchive: every offset and size gives the window of the original file |
| ChunkIndexing.ChunkIndex.AddArchive | chunkindex.go:113-129 | every chunk of the archive in order is either added to its item's list or becomes a new item with the chunk's own counts |
| ChunkIndexing.ChunkIndex.RemoveSnapshot | chunkindex.go:132-143 | in any order of the items, exactly the occurrences of the snapshot are taken out of every list, the order of the others staying |
| ChunkIndexing.ChunkIndex.DeleteItem | chunkindex.go:79-85 | the part loop's effect on the backends, what it adds up and where it stops |
| ChunkIndexing.ChunkIndex.Pack | chunkindex.go:71-93 | in any order of the items: the backends, the freed size and the error are those of the specification, and the index loses its unused items if every deletion succeeded and nothing otherwise |
| ChunkIndexing.ChunkIndex.Reindex | chunkindex.go:95-111 | fails if and only if a listed snapshot cannot be loaded; otherwise, for any map order, each snapshot is listed under each hash as many times more as the hash occurs in it |
| ChunkIndexing.RefsOfWithUses | chunkindex.go:113-129 | adding chunks counts each use once under its own hash and leaves every other count alone |
| ChunkIndexing.RefsOfWithout | chunkindex.go:132-143 | removing a snapshot takes away all of its references and no other |
| ChunkIndexing.StoreRemovePackCancel | chunkindex.go:71-143 | for an id new to the index: adding any archives under it, removing it and packing gives the index that packing would have given at the start, list order included |
| Packing.PackExact | chunkindex.go:71-93 | a successful pack has taken exactly one copy of every part of every unused item and nothing else, and reports the same size in every order: each unused chunk's whole size times its number of parts |
| Packing.CollectedCopies | chunkindex.go:71-93 | a pack that stops anywhere has taken at most one copy of parts of unused items it has visited, and nothing else |
| Packing.PackSucceedsIff | chunkindex.go:79-83 | on healthy backends a pack succeeds if and only if every part of every unused item is stored |
| Packing.FailedPackSticks | chunkindex.go:79-83 | a pack that failed after it had freed something makes every later pack of the same index fail, in every order, where no part has a second copy |
| Packing.MissingPartBlocksPack | chunkindex.go:79-83 | one part of an unused item that is stored nowhere makes every pack fail |
| Packing.SecondPackIsIdle | chunkindex.go:71-93 | packing a packed index deletes nothing, frees nothing and changes nothing, whatever the backends do |
| Packing.LeakExact | chunkindex.go:79-85 | of a chunk that nobody uses a successful pack takes a copy of every part if and only if the counts of its item cover the chunk's own, and none if the numbers of data parts differ; later packs take nothing either |
| Packing.NothingLeaks | chunkindex.go:115-126 | where equal hashes mean equal counts every part of an unused chunk loses a copy |
| Reindexing.ReindexCanonical | chunkindex.go:95-129 | in the rebuilt index each snapshot that is listed once is under each hash exactly as often as the hash occurs among its chunks, for every visiting order, and every key equals its item's hash |
| Reindexing.CountsOfFirst | chunkindex.go:115-126 | an item's part counts and size are those of the first chunk visited with its hash |
| Reindexing.OrderMattersOnlyForCounts | chunkindex.go:95-129 | two visiting orders give indexes that differ in nothing but list order if and only if they agree on the counts that come first for every hash |
| Reindexing.OrderDoesNotMatter | chunkindex.go:95-129 | they do when equal hashes mean equal counts |
| Reindexing.OrderCanMatter | chunkindex.go:115-126 | two chunks with one hash and different counts give two different indexes |
| Collecting.StoreExact | cmd/knoxite/store.go:250-274 | after any prefix of the writes of a store or a clone every listed snapshot is saved with all its parts, and every index copy references it if and only if it is not listed yet or the command has itself added all of its chunks |
| Collecting.StoreAddsAll | snapshot.go:219-220 | a store that is no clone has always added all chunks of its snapshot |
| Collecting.RemovalExact | cmd/knoxite/snapshot.go:76-95 | after any prefix of the writes of a removal the invariant holds if and only if no copy of the index was written or no unwritten copy of the repository lists a removed snapshot with chunks |
| Collecting.CompleteRemoval | cmd/knoxite/volume.go:129-145 | a removal whose writes are all done keeps the invariant |
| Collecting.PackKeeps | cmd/knoxite/repository.go:183-201 | a pack keeps the invariant, wherever its deletions or its writes stop |
| Collecting.ReindexExact | chunkindex.go:34-47 | a reindex keeps the invariant if and only if it writes nothing or the copy of the repository it reads lists every snapshot with chunks that any copy lists |
| Collecting.ReindexRepairs | chunkindex.go:34-47 | from any state in which nothing is lost, a complete reindex from such a copy restores the invariant |
| Collecting.AddingKeeps | cmd/knoxite/repository.go:136-165 | adding a backend or a volume keeps the invariant, wherever the writes stop |
| Collecting.StepExact | cmd/knoxite/store.go:217-274 | each command, wherever it stops, keeps the invariant if and only if a condition on what it reads and where it stops holds |
| Collecting.GarbageCollectionSafety | chunkindex.go:71-143 | every run of completed stores, removals of snapshots and volumes, new volumes and new backends, and of packs and reindexes that stop anywhere, in any order and reading any copies, keeps the invariant |
| Collecting.NothingIsMissing | chunkindex.go:71-143 | after every such run from a new repository: all parts of every chunk of every snapshot that any copy of the repository lists are stored, and every copy of the index has the snapshot under the chunk |
| Collecting.CrashSafety | cmd/knoxite/store.go:250-274 | every run in which stores stop after any of their writes, with completed removals and with packs from any crash point, and without reindexes, keeps the invariant |
| Hazards.RemovalGapLoses | cmd/knoxite/snapshot.go:86-94 | from every state: the removal of a snapshot or a volume stopped between the index and the repository, followed by a complete pack, loses a part of a listed snapshot, for each chunk only it uses |
| Hazards.CloneLoses | snapshot.go:229-239 | from every state and for any added files: clone, remove and pack, all complete, lose a part that the clone needs, for each inherited chunk that only the original uses and that the clone has not added itself |
| Hazards.CloneTrace | cmd/knoxite/clone.go:75-114 | a run of complete commands from a new repository, with a clone that adds a file, that ends in such a loss |
| Hazards.RegisteringCloneKeeps | snapshot.go:229-239 | a clone that also adds the inherited archives to the index saves the same snapshot and keeps the invariant wherever it stops |
| Hazards.CloneThenReindexKeeps | cmd/knoxite/clone.go:75-114 | a complete clone followed by a complete reindex keeps the invariant |
| Hazards.RepositoryFirstHasNoGap | cmd/knoxite/snapshot.go:76-94 | a removal that saved the repository before the index would keep the invariant wherever it stops |
| Commands.Repo.FindVolume | repository.go:139-151 | the last volume for "latest", otherwise the first with the id, and an error exactly if there is none |
| Commands.Repo.FindSnapshot | repository.go:154-185 | the first volume that lists the snapshot, and an error exactly if none does or it cannot be loaded; for "latest" the listed snapshot with the latest date of all that load, the first of them if dates are equal, and an error exactly if none loads |
| Commands.Repo.AddSnapshot | volume.go:37-40 | the id becomes the last of its volume's list and nothing else changes |
| Commands.Repo.RemoveSnapshot | volume.go:43-61 | every occurrence of the id leaves the list, the order of the others staying, and an error exactly if there was none |
| Commands.Repo.RemoveVolume | repository.go:128-136 | the volume leaves the list, the order of the others staying, and an error exactly if it was not there |
| Commands.Storage.SaveIndex | chunkindex.go:58-68 | copy after copy is written until the writes run out, with at most one copy torn |
| Commands.Storage.SaveRepository | repository.go:214-226 | the same for the repository file |
| Commands.RebuildIndex | chunkindex.go:34-47 | opening the index without any copy is the Reindex step of the state machine, or fails and writes nothing if a snapshot cannot be loaded |
| Commands.StoreTargets | snapshot.go:132-219 | the files are stored one after the other on backends that fail in any way, and each archive is added to the snapshot and the index; backends, archives and index are those of the specification |
| Commands.StoreAndSave | cmd/knoxite/store.go:245-274 | storing the files on faulty backends and then saving snapshot, index and repository is the Store step of the state machine, wherever the writes stop; the parts that the step asks for are there because the files were stored |
| Commands.ExecuteStore | cmd/knoxite/store.go:217-274 | the command is that step for the volume that is meant, the last one for "latest" and the first with the id otherwise; the files are stored with the tolerance as parity parts and data parts for the other backends; it changes nothing without its volume or with a tolerance that leaves no backend, and succeeds exactly if all writes do |
| Commands.ExecuteClone | cmd/knoxite/clone.go:57-114 | the command is that step with the listed snapshot that is meant as its base, for "latest" the first with the latest date, in the volume that lists it; the outcomes are exact |
| Commands.TakeOut | cmd/knoxite/snapshot.go:76-84 | the id that is taken out of its volume is that of the snapshot which is meant: for "latest" of one with the latest date, otherwise of what loads under the name, in the first volume that lists it; an error exactly if nothing loads or the volume does not list the snapshot under its own id |
| Commands.OwnIdsRemovable | cmd/knoxite/snapshot.go:76-84 | where each listed id loads its own snapshot, that error means exactly that nothing by that name loads |
| Commands.ExecuteSnapshotRemove | cmd/knoxite/snapshot.go:66-95 | the command is the RemoveSnapshot step for the snapshot that is meant and the volume it was found in, wherever its writes stop; it fails exactly if there is nothing to remove, and then writes nothing |
| Commands.RemoveEach | cmd/knoxite/volume.go:129-135 | the loop over the list that it replaces gets to its end if and only if no id is listed twice, and then has removed every id from the index |
| Commands.ExecuteVolumeRemove | cmd/knoxite/volume.go:113-145 | the command is the RemoveVolume step for the volume that is meant, the last one for "latest" and the first with the id otherwise, wherever its writes stop; it fails exactly without such a volume or if the volume lists a snapshot twice, and then writes nothing; it succeeds exactly if all writes do |
| Commands.ExecuteVolumeInit | cmd/knoxite/volume.go:90-110 | the command is the AddVolume step: the new, empty volume is the last one |
| Commands.ExecuteRepoAdd | cmd/knoxite/repository.go:136-166 | the command is the AddBackend step: the backend becomes the last one, belongs to the repository once a copy of the repository file names it, and the command succeeds exactly if all copies, its own included, were written |
| Commands.ExecuteRepoPack | cmd/knoxite/repository.go:183-201 | the command is the Pack step: it fails with the deletions exactly if one of them failed on the backends, visiting each unused item at most once, and the index is saved exactly if none did, all items having been visited; on healthy backends it does not fail with them if and only if every part of every unused item is stored, and after a success every copy of the index is the packed one; the parts that lose their last copy belong to unused items |
| Commands.LastCopies | chunkindex.go:71-93 | only parts of unused items lose their last copy in a pack |
| Linking.ArchivesAreStored | snapshot.go:196-219 | whatever fails and however many chunks are dropped, all parts of every chunk of every archive are stored, as the Store step asks |
| Linking.SaveIsWrites | backendmanager.go:127-142 | whatever the backends do while a metadata file is saved on all of them, there is a number of writes that were done, and a next one that tore its copy or not, which account for every copy as the state machine has it; after a success all were done, and nothing else changes |
| Safekeeping.StoreIsTurn | cmd/knoxite/store.go:217-274 | what a store command does to metadata and backends is a step of the whole system |
| Safekeeping.PackIsTurn | cmd/knoxite/repository.go:183-201 | what a pack does to metadata and backends, visiting the items in any order and stopping anywhere, is a step of the whole system that deletes garbage only |
| Safekeeping.ListedIsSpared | chunkindex.go:71-93 | in every run of commands that keep the invariant, no part of a chunk of a snapshot is deleted from when it is saved until it is last listed |
| Safekeeping.ListedSnapshotRestores | decode.go:222-243 | in every run of commands that keep the invariant, wherever they stop: each file of a snapshot that some copy of the repository lists in the end, none of whose chunks was dropped, restores to exactly its bytes after any tolerated loss, as long as none of its parts is served torn |
| Safekeeping.CompletedIsAllOrderly | cmd/knoxite/store.go:250-274 | runs of completed stores, removals, new volumes and backends, and of packs and reindexes that stop anywhere, are such runs |
| Safekeeping.CrashSafeIsAllOrderly | cmd/knoxite/store.go:250-274 | so are runs without reindexes in which stores and packs stop anywhere |
| Safekeeping.BackupRestores | decode.go:222-243 | from a new repository, after every run of either kind, chunks packed away and stored again included: each such file of each listed snapshot restores to exactly its bytes after any tolerated loss, if no store of one of its parts has ever failed |
| Safekeeping.HealthyBackupRestores | decode.go:222-243 | on backends that never fail three times in a row, after every run of either kind from a new repository: every file of every listed snapshot that opened and whose pieces could be encoded restores to exactly its bytes after any tolerated loss that keeps the remaining copies; nothing is asked of what happened on the way |
| FirstBackup.FirstBackupRestores | cmd/knoxite/store.go:217-274 | for every file in pieces that can be encoded, on every healthy empty backend: a run that sets up a repository and a volume and stores the file exists, ends with the snapshot listed, and the file restores |

## Left out

- The concrete backends under storage/ and the server: a backend is a map from parts to bytes with an adversary that decides each attempt. A failed write leaves the old data, or a prefix of the new.
- Backends.Once: the attempt to store a part that is already there at full size leaves it alone even if the attempt fails; the file system's separate Stat, CreatePath and WriteFile calls are one attempt.
- Library internals: the AES block function, SHA-256, HighwayHash, the compressors, the Reed-Solomon arithmetic, the cut points of the content-defined chunker and the encodings of metadata are functions with laws.
- File-system effects of a restore: modes, owners, times, links, and that the file is opened without truncation. What is proved is about the bytes that the chunk loop writes.
- Scanning, excludes and path handling; scan errors, whose nil archive `Add` dereferences.
- The pedantic early return and the shutdown path, which abandon the channels: the consumer is one that drains.
- Clearing a chunk's data after it was stored, progress messages, statistics other than the storage size, the transferred size and the count of errors.
- Integer widths other than in the error of a failed reconstruction, where the wrap-around is visible; tolerances that do not fit into an `int`.
- Reading.ChunkCache.Prefetch: runs at the end of ReadArchive. It could also run later, between any two lookups, which CacheCoherence and MutexLostExactly cover; two lookups that overlap are not modelled, as the mutex keeps them apart.
- Storing.AddedStorageSize: for backends that fail only Resilience.StoreReportsNoMore bounds what each store adds.
- Decoding.LoadChunk: an empty part is a part like any other; the library's habit of treating it as missing is left to the abstract rebuild function.
- Surviving.FaultTolerance: is not an equivalence where a torn part is served and there is parity; what loadChunk then makes of it depends on what the erasure library makes of wrong shards, and is given for any contents by Decoding.FailureReportExact.
- Safekeeping.Turn: the metadata files that a command saves on the backends are in the state machine's copies and in the events, tied together by Linking.SaveIsWrites for each save and not over whole runs.
- Commands.Repo.RemoveVolume: finds the volume by its position in the list, where the program compares pointers; what the pointer of a volume that is not in the list would do is the position past the end.
- Commands.Repo: a volume that the program holds by pointer is a position in the list here; the archive map that a clone shares with its source is a value.
- Commands.Repo.FindSnapshot: the date of a snapshot is a parameter.
- Commands.StoreTargets: scan results are a parameter, and so are the order in which each file's chunks arrive and whether it can be opened.
- Commands.Storage.SaveSnapshot: a snapshot file counts as saved once one backend has all of it; since its id is new, no reader knows it before the repository lists it.
- Commands.RebuildIndex: when the program gets there is left open: a rebuild may happen at any time, since all copies of the index may be unreachable. A torn copy of a file counts as unreadable, which makes the program fail and not rebuild.
- Commands.ExecuteRepoAdd: how a new backend's directories are initialised, and that this fails on one that holds a repository already, is left out.
- Verifying.SelectArchives: the random draws are a parameter, and the percentage is rounded in integers. That VerifyRepo keeps one archive per path over all snapshots, and what is reported for each archive, is not modelled.
- Opening a repository before its backends are attached, version migration, passwords, configuration, logging, the mount tree and the user interface.
- Several processes on one repository: the program has no locking for them.
