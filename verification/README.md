# EZIO raw-disk backend: a verified model

EZIO deploys disk images over BitTorrent. Its libtorrent disk backend copies every
incoming block into a bounded buffer, indexes it in a shared *store buffer*, lets a thread
pool write it to scattered extents of a raw partition, and only then un-indexes and frees
it. Reads and piece hashes race with those writes. This project models that backend and
the NBD plugin that serves a saved image, and proves what they promise.

Dafny 4.11; `dafny verify dfyconfig.toml` checks everything.

| file | contents |
|---|---|
| `Basics.dfy` | bytes, blocks, buffer overlays |
| `HexNames.dfy` | file names as partition offsets: `std::stoll(name, 0, 16)`, Python's `int(name, 16)`, name order |
| `Extents.dfy` | files concatenated to one byte string (the "info dictionary" section of BEP 3), slices, addresses, disks |
| `Torrents.dfy` | pieces, blocks, store-buffer locations |
| `PartitionStorage.dfy` | class `PartitionStorage`: the scatter and gather loops |
| `BufferPool.dfy` | class `BufferPool` and its runs: watermarks, observers, hysteresis |
| `Slots.dfy` | class `StorageTable` and its runs: storage indices and the free list |
| `StoreBuffer.dfy` | class `StoreBuffer`, and the stitching of unaligned reads |
| `DiskJobs.dfy` | the calls and posted jobs of `async_read`, `async_write`, `async_hash` executed on those objects |
| `System.dfy` | the whole backend as a transition system with every interleaving |
| `SliceSteps.dfy` | the slice loop of a write as steps of that system |
| `Safety.dfy` | the inductive invariant; no assumption on overlapping writes |
| `Completion.dfy` | no dangling entries, slot isolation, conservation, completion and rest, back-pressure |
| `Coherence.dfy` | cache, disk and last-write-wins image |
| `FailedWrites.dfy` | the bytes that a failing write does not reach |
| `ImageHistory.dfy` | the last write of a block wins, in the image and on the disk |
| `ReadCoherence.dfy`, `HashCoherence.dfy` | what reads return and what is hashed |
| `Provenance.dfy` | where bytes come from, however writes overlap |
| `Counterexamples.dfy` | two short runs that show what the coherence assumptions are for |
| `Nbd.dfy` | the image directory as a block device |
| `Deployment.dfy` | from a download at rest to the served image |

## How the backend is modelled

Each layer that works in place is a class whose methods are tied to functions on values
(`State()`, `entries`, `disk`); the properties are lemmas about those functions. `System.dfy`
then uses the same functions (`AllocateWatched`, `FreeBuffer`, `InsertEntry`, `EraseEntry`,
`Stitch`, `Slots.Add`, `Slots.Remove`) as the atomic steps of a transition system. A run is
any sequence of enabled steps: add or remove a storage, issue a write, a read or a hash,
transfer some bytes of the current slice, fail on an unparseable name, un-index, free, look
up, feed the hasher, call a handler. A transfer step moves any number of bytes of the
current slice, so whole and torn `pread`/`pwrite` calls are both covered. A job is named by the
moment of its call. Next to the disk each storage carries its *image*, the last-write-wins
contents of the torrent: an asynchronous write changes it at the call, a synchronous one
slice by slice. The image is read by no step; it only states the properties, and
`Provenance.ImageIsLastPaint` and `ImageHistory.LastWriteWins` say which write it shows.

Assumptions on the environment, all visible in the contracts:

- `pread` and `pwrite` transfer all bytes they are asked for; the code ignores their results.
- Different storages are different devices.
- Writes are block aligned and cover a whole block, which is 16 KiB or the rest of the piece
  (`CanIssueWrite`). Reads have at most 16 KiB, as the code asserts, and stay within the piece (`CanIssueRead`).
- A storage is removed only when none of its jobs is in flight (`CanDetach`).
- For coherence only: extents do not overlap on the partition, and writes of the byte's block do
  not overlap in time from a moment on at which the byte was in order (`Watched`). Such
  moments are the addition of the storage (`Coherence.InOrderFromBirth`), any asynchronous write
  of the block issued with no other one outstanding (`Coherence.InOrderFromWrite`), and the end of
  any such write, synchronous ones included (`ImageHistory.InOrderAfterWrite`), so an old overlap
  does no lasting harm. While they overlap, a newer write hides behind the older entry
  (`Coherence.OverlapAgreesOnlyByChance`, `Coherence.SyncOverlapAgreesOnlyByChance`), and the older
  one can be what finally stays on the partition (`Counterexamples.OverlapEndsWithOlderByte`).
  `Safety.dfy`, `Completion.dfy` and `Provenance.dfy` need no such assumption:
  bytes are never made up, and `Provenance.DiskIsImageExactly` says exactly when disk and image
  agree in any run.
- File names may fail to parse anywhere. A write then stops in the middle of its block and its
  entry is erased all the same, so bytes behind the bad name keep their old value on disk
  while the image has the new one: a property of the code, stated exactly by
  `FailedWrites.AgreementExactly` and shown on a concrete run by
  `Counterexamples.StaleReadBehindBadName`. A byte is `Solid` when no name from the start of its
  block up to it fails to parse; that is decided by the file list alone.
- malloc may fail at any call; only the hysteresis results need it not to.

Where code and comments differ the model follows the code:

- A pool has 1024 buffers (16 MiB), low mark 512, high mark 896; the header comment says 256 MB.
- A failing malloc sets the exceeded flag at any level, so an observer can be told to wait
  by a pool with nothing to free (`BufferPools.MallocFailureParksObserver`). At or below the low mark
  observers are waiting if and only if one was passed in after such a failure and no buffer
  has been freed since (`BufferPools.WaitersExactly`).
- `store_buffer::insert` keeps an existing entry and `erase` removes whatever is there.
- The NBD plugin's `bisect_left(...) - 1` picks the previous extent for a request that starts
  exactly at a later extent's start. `Nbd.PreadClassified` gives the exact outcome.
- `remove_torrent` of an index that is not live still pushes it on the free list;
  `StorageSlots.Slots.RemoveKeepsValid` says exactly when the table survives that.

## Model

| member | source | states |
|---|---|---|
| HexNames.PlainNamesAgree | raw_disk_io.cpp:61-66 | on plain hexadecimal names the backend's and the plugin's parsers read the same offset, except that the backend rejects values outside int64 |
| HexNames.ShortNamesParse | raw_disk_io.cpp:61-66 | a name of at most 15 hexadecimal digits always parses, to its value |
| HexNames.FullNamesParse | raw_disk_io.cpp:61-66 | a name of 16 digits parses if and only if its first digit is below 8, and then to its value |
| HexNames.StollReads | raw_disk_io.cpp:61-66 | blanks, a sign and a radix prefix are skipped, what follows the digits is ignored, and the value is that of the digits or an error outside int64 |
| HexNames.StollReadsOnly | raw_disk_io.cpp:61-79 | the converse: every name that parses is written so, with at least one digit |
| HexNames.PyIntReads | utils/ezio-nbd/ezio-nbd.py:57 | the plugin reads blanks, sign, prefix and digits to the same value, without a limit |
| HexNames.NameOrderIsNumericOrder | utils/ezio-nbd/ezio-nbd.py:56-57 | for equal-width names of one case, a name is lexicographically smaller if and only if its offset is smaller, and equal exactly when the offsets are |
| HexNames.NameOrderNeedsWidthAndCase | utils/ezio-nbd/ezio-nbd.py:56-57 | concrete names of mixed width and of mixed case that sort against their offsets |
| Extents.SlicesAreTheRange | raw_disk_io.cpp:53-58 | the slices of a range, flattened, are its logical bytes in order, none lost, doubled or moved |
| Extents.SlicesResume | raw_disk_io.cpp:53-77 | the first slice is where the range starts, and the remaining slices are the slices of the rest of the range |
| Extents.AddressInjective | raw_disk_io.cpp:60-65 | over disjoint extents two logical bytes never share a partition byte |
| Extents.WriteThenRead | raw_disk_io.cpp:82-111 | round trip and frame over any list of disjoint extents: every byte before the first unparseable name reads back, every other logical byte keeps its contents, every disk byte outside the slices is unchanged, and all bytes are written if and only if all their names parse |
| Extents.ReachUnique | raw_disk_io.cpp:56-79 | the number of transferable bytes is characterised by "all before parse, the next does not" |
| Torrents.BlocksTile | store_buffer.hpp:13-28 | a logical byte lies in a block if and only if that block is its location, so blocks tile the torrent |
| Torrents.LocOfIsBlock | raw_disk_io.cpp:191-192 | every byte has a block and lies inside it |
| PartitionStorages.PartitionStorage.Read | raw_disk_io.cpp:48-80 | the returned count is the bytes before the first unparseable name, exactly those bytes of the disk are in the buffer and the rest of the buffer is untouched, and the error names the file of the first byte not transferred |
| PartitionStorages.PartitionStorage.Write | raw_disk_io.cpp:82-111 | the disk is changed by exactly the bytes before the first unparseable name, the later slice winning where extents overlap, with the matching error |
| PartitionStorages.Transfer.Next | raw_disk_io.cpp:56-77 | the next slice is contiguous on disk at the addresses of the next bytes, or its name is where the transfer stops |
| BufferPools.BufferPool.AllocateBufferImpl | buffer_pool.cpp:27-47 | new state and result in each of the full, failing-malloc and high-water cases; a buffer is fresh and 16 KiB; `AllocationAnswer` and `FlagExactly` say what the answers mean |
| BufferPools.BufferPool.AllocateBufferWatched | buffer_pool.cpp:55-68 | the observer waits exactly when the call reports `exceeded`; `WatchedCallAnswers` says when that is |
| BufferPools.BufferPool.FreeDiskBuffer | buffer_pool.cpp:70-76 | one buffer fewer, and the release of all waiting observers at the low mark |
| BufferPools.BufferPool.CheckBufferLevel | buffer_pool.cpp:78-93 | the waiting observers become one posted batch exactly when the flag is set and the size is at most the low mark |
| BufferPools.AllocationAnswer | buffer_pool.cpp:27-47 | an allocation gives a buffer if and only if fewer than 1024 are out and malloc succeeds |
| BufferPools.FlagExactly | buffer_pool.cpp:27-93 | in every run the flag is set if and only if some earlier allocation found more than 896 buffers out or had a failing malloc, and no later free left at most 512 |
| BufferPools.WatchedCallAnswers | buffer_pool.cpp:55-68 | in every run a watched call reports `exceeded`, and registers its observer, if and only if that holds after the call |
| BufferPools.ObserversConserved | buffer_pool.cpp:55-93 | in every run the observers told to wait are, in order, those posted followed by those waiting, whatever malloc does |
| BufferPools.StepReleasable | buffer_pool.cpp:27-47 | a step keeps "exceeded implies more than 512 buffers out" if and only if malloc succeeds or the pool is above the low mark |
| BufferPools.MallocFailureParksObserver | buffer_pool.cpp:40-44 | a failing malloc on an empty pool leaves an observer waiting with no buffer whose free could wake it |
| BufferPools.WaitersExactly | buffer_pool.cpp:27-93 | in every run, at or below the low mark the flag is set if and only if malloc has failed with no free since, observers are waiting if and only if one was passed in after that, and with none waiting everyone told to wait has been posted exactly once |
| BufferPools.WaitersAreReleased | buffer_pool.cpp:27-93 | so if every malloc failure has been followed by a free, at or below the low mark nobody is held back and everyone has been posted exactly once |
| BufferPools.RunReleasable | buffer_pool.cpp:27-93 | in every run whose malloc failures are all above the low mark, the flag implies more than 512 buffers out and waiting observers imply the flag |
| BufferPools.HysteresisBound | buffer_pool.cpp:78-93 | over any run in which malloc succeeds, callback batches times 386 are at most the frees |
| StorageSlots.Slots.AddKeepsValid | raw_disk_io.cpp:138-158 | the index given out is not live, and live and free indices stay a partition of 0..n-1 |
| StorageSlots.Slots.RemoveKeepsValid | raw_disk_io.cpp:160-165 | removal keeps that partition if and only if the index is live or is the next never-used one |
| StorageSlots.IndicesBelowPeak | raw_disk_io.cpp:138-165 | over every run of adds and of removes of live storages, indices are fresh and below the peak number of simultaneously live storages |
| StorageSlots.ReusedInOrder | raw_disk_io.cpp:143-164 | over every run, freed indices are given out again in the order in which they were freed |
| StorageSlots.StorageTable.NewTorrent | raw_disk_io.cpp:138-158 | the class refines `Slots.Add`; a valid table stays valid and only the new index changes |
| StorageSlots.StorageTable.RemoveTorrent | raw_disk_io.cpp:160-165 | the class refines `Slots.Remove`; a valid table stays valid when the index was live |
| StoreBuffers.StoreBuffer.Get | store_buffer.hpp:56-66 | the entry of exactly this location, or none |
| StoreBuffers.StoreBuffer.Get2 | store_buffer.hpp:68-82 | both entries from one state of the map |
| StoreBuffers.StoreBuffer.Insert | store_buffer.hpp:84-88 | an existing entry is kept, and no other location changes |
| StoreBuffers.StoreBuffer.Erase | store_buffer.hpp:90-97 | the location has no entry afterwards, and no other location changes |
| StoreBuffers.StitchByte | raw_disk_io.cpp:195-246 | in every hit and miss combination a byte of the reply is left to the disk exactly when its own block has no entry and is that entry's byte otherwise; no third block is involved |
| DiskJobs.CopyHalves | raw_disk_io.cpp:203-235 | the four `get2` outcomes: the buffer and the range left to the disk |
| DiskJobs.ReadFront | raw_disk_io.cpp:191-246 | the store-buffer half of a read on real buffers is `Stitch`, and it changes no indexed buffer |
| DiskJobs.StitchedIsMerged | raw_disk_io.cpp:191-256 | stitching plus the disk read of what is left is one contiguous read of the merged contents; on failure it is that up to the first byte that cannot be had and in all indexed bytes, and the error names that byte's file |
| DiskJobs.AsyncRead | raw_disk_io.cpp:167-246 | the call: the two early errors, the pool's new state, a buffer in which a byte is there exactly when its block has an entry, the range left to the posted job, and a complete reply when that range is empty |
| DiskJobs.ReadJob | raw_disk_io.cpp:222-256 | the posted job, whatever has happened to store buffer and disk since the call: the reply is one contiguous read of [start, start + length) from the entries of the call merged with the disk of the job, or on failure as much of it as can be had with the file of the first byte that cannot |
| DiskJobs.AsyncWrite | raw_disk_io.cpp:259-297 | with a buffer: copied and indexed, disk untouched; without: written at once, index untouched; in both cases the pool's answer |
| DiskJobs.WriteJob | raw_disk_io.cpp:275-286 | the job's net effect on disk, index and pool, and its error |
| DiskJobs.HashRound | raw_disk_io.cpp:332-348 | one round extends the hashed prefix of the merged piece, by a whole block or up to an unparseable name, whose file the error names |
| DiskJobs.HashPiece | raw_disk_io.cpp:319-355 | for any mix of names the bytes hashed are a prefix of the merged piece: the whole piece after exactly ceil(size / 16 KiB) rounds when no error is recorded, and when one is a proper prefix ending at a byte that cannot be had, whose file the error names; with nothing indexed they are exactly what one read of the whole piece delivers |
| SliceSteps.FlushPass | raw_disk_io.cpp:82-111 | the flush steps of one pass over the slices end with exactly the disk and the failure of the sequential write; what the handler is then told is `FailedWrites.WriteIsAnswered` |
| Safety.StepInv | raw_disk_io.cpp:167-356 | every step of the backend keeps the invariant: entries point to unfinished writes of their block, pools count live buffers, running jobs are on their own storage, handlers called once |
| Safety.RunInv | raw_disk_io.cpp:167-356 | the invariant holds in every reachable state |
| Completion.NoDanglingEntries | raw_disk_io.cpp:267-285 | in every run, overlapping writes included, an entry points to a live buffer of a write of the same block that has not yet erased |
| Completion.SlotReuseIsolation | raw_disk_io.cpp:138-165 | an entry was always written under the present owner of its storage index |
| Completion.BuffersConserved | buffer_pool.cpp:27-76 | in every run each pool's size is its live buffers and at most 1024, and entries are at most the unfinished asynchronous writes |
| Completion.Progress | raw_disk_io.cpp:167-356 | a job that is not over always has an enabled step of its own |
| Completion.InternalStepAdvances | raw_disk_io.cpp:167-356 | every internal step lowers the rank of its own job and changes no other job |
| Completion.OwnStepsBounded | raw_disk_io.cpp:167-356 | whatever the others do, a job takes at most as many steps as its rank at the call, and one that has taken them all holds nothing and has called its handler exactly once |
| Completion.HandlersCalledExactlyOnce | raw_disk_io.cpp:167-356 | a handler has been called once if and only if its job is finished, and never twice |
| Completion.QuietMeansDone | raw_disk_io.cpp:259-356 | when no internal step is left every accepted job has called its handler once, and the store buffer and both pools are empty |
| Completion.InternalStepsBounded | raw_disk_io.cpp:167-356 | no stretch of internal steps of a run is longer than the ranks of the jobs at its start together |
| Completion.RestIsReachable | raw_disk_io.cpp:167-356 | every reachable state can be extended by internal steps alone, at most as many, to a state at rest |
| Completion.BackPressureRun | raw_disk_io.cpp:266-296 | in every run of the whole backend the write pool goes through a run of its own, so all results on pool runs apply |
| Completion.BackPressureExactly | raw_disk_io.cpp:266-296 | in every run of the whole backend `async_write` reports back-pressure exactly from a write call that found more than 896 write buffers out or had a failing malloc until a free leaves at most 512 out |
| Completion.NoWriterLeftWaiting | raw_disk_io.hpp:62-67 | once at most 512 write buffers are out, a peer is waiting if and only if it passed an observer in after a malloc failure with no write buffer freed since; with none waiting, every observer for which `async_write` returned true has been posted exactly once |
| Completion.WakeUpsAreRare | buffer_pool.cpp:78-93 | in every run of the backend in which malloc succeeds for writes, callback batches times 386 are at most the freed write buffers |
| Coherence.ByteStep | raw_disk_io.cpp:259-297 | with at most one outstanding write of its block, any step keeps one logical byte in order, failing writes included, and the disk byte changes only to the image's value |
| Coherence.InOrderFromBirth | raw_disk_io.cpp:138-158 | from the addition of a storage on, its bytes are in order as long as writes of their block do not overlap |
| Coherence.InOrderFromWrite | raw_disk_io.cpp:266-273 | an asynchronous write issued with no other write of the block outstanding puts its bytes in order, whatever overlapped before |
| Coherence.CacheDiskAgreement | raw_disk_io.cpp:269-296 | from a moment at which a byte was in order, without overlap since and half-done and failed flushes included: the image value of a byte that writes reach is in its block's entry if there is one and on the disk at its mapped address otherwise |
| Coherence.DiskAfterMiss | raw_disk_io.cpp:278-280 | from a miss on, the disk byte of a byte that writes reach is always a value that the image has had since the miss |
| Coherence.OverlapAgreesOnlyByChance | store_buffer.hpp:84-88 | right after an asynchronous second write of a block that still has an entry, a byte agrees with the image if and only if the older write had the same value |
| Coherence.SyncOverlapAgreesOnlyByChance | raw_disk_io.cpp:289-296 | the same for each byte that a synchronous write stores while the block has an entry |
| Counterexamples.OverlapEndsWithOlderByte | raw_disk_io.cpp:267-297 | a run of two overlapping writes, for any two values, that comes to rest with the older byte on the partition and the newer one in the image |
| FailedWrites.WriteStopsAt | raw_disk_io.cpp:89-110 | in every run a write never gets past a byte of its block whose name does not parse |
| FailedWrites.WriteIsAnswered | raw_disk_io.cpp:277-295 | in every run the handler of a write, asynchronous or synchronous, gets an error if and only if some byte of its block has a name that does not parse, and no error otherwise |
| FailedWrites.StorageWasFresh | raw_disk_io.cpp:138-158 | every storage of a run is the one added at the moment it was born, with the torrent and the partition of that call |
| FailedWrites.ShadowedByteFrozen | raw_disk_io.cpp:89-110 | a byte behind an unparseable name of its block never changes on disk, however writes overlap |
| FailedWrites.AgreementExactly | raw_disk_io.cpp:274-286 | for any mix of names, store buffer and disk agree with the image at a byte if and only if writes reach it, its block has an entry, or the last value written is what the partition held before |
| FailedWrites.FailedWriteDropsByte | raw_disk_io.cpp:278-280 | when a failed asynchronous write ends, its entry is gone and a byte it did not reach reads as the partition's original byte |
| Counterexamples.StaleReadBehindBadName | raw_disk_io.cpp:278-280 | a run in which a successful read behind a bad name returns the old byte although the image has had the new one since before the call |
| ImageHistory.LastWriteWins | raw_disk_io.cpp:259-297 | if the last write of a block was made with no other one outstanding, then once it has ended a byte that writes reach is its data in the image and on the disk, asynchronous or synchronous and whatever overlapped before |
| ImageHistory.InOrderAfterWrite | raw_disk_io.cpp:274-296 | and the byte is in order from then on |
| Provenance.WriteCarries | raw_disk_io.cpp:271-278 | in every run a write job's buffer holds the data of its own call as long as it lives |
| Provenance.DiskIsLastFlush | raw_disk_io.cpp:82-111 | in every state of every run a disk byte is the data of the write that flushed it last, or the partition's original byte |
| Provenance.ImageIsLastPaint | raw_disk_io.cpp:259-297 | in every state an image byte is the data of the write that painted it last: at its call with a buffer, as it was flushed without |
| Provenance.DiskIsImageExactly | raw_disk_io.cpp:259-297 | however writes overlap, the disk has the image's byte if and only if the write flushed last and the write that painted last had the same value there |
| Provenance.EntryIsGenuine | store_buffer.hpp:56-97 | every byte of an entry is the data of a write call of its own block on the present storage |
| Provenance.IndexExactly | store_buffer.hpp:84-97 | in every state of every run the entry of a block is the buffer of the first asynchronous write of it since the last erase, and a synchronous write leaves it alone |
| Provenance.ReadIsGenuine | raw_disk_io.cpp:167-257 | every byte that a read delivers is the data of some write call of its own block, or the partition's original byte |
| Provenance.HashIsGenuine | raw_disk_io.cpp:319-356 | the same for every byte that goes to the hasher |
| ReadCoherence.ReadByteCoherent | raw_disk_io.cpp:167-257 | for a byte in order no later than the call, in every interleaving without overlap of its block and for any mix of names: if writes reach the byte or its block had an entry at the call, what is delivered is a value that the image had between the call and now; otherwise it is what the partition held when the storage was added |
| ReadCoherence.DeliveredParses | raw_disk_io.cpp:56-79 | a byte that was not in the store buffer at the call is delivered only if its name parses |
| ReadCoherence.ReadIsAnswered | raw_disk_io.cpp:167-257 | in every run the answer of a read is decided at its call: invalid request if and only if the length is not positive or the start negative; else no memory if and only if 1024 read buffers are out or malloc fails; else a parse error if and only if some requested byte has no entry and an unparseable name; else success; with a buffer the reply has the requested length |
| ReadCoherence.ReadCoherent | raw_disk_io.cpp:167-257 | a read whose call meets none of those obstacles succeeds, and every byte of its reply is a value that the image had between the call and now, if the names in front of the request in its own first block parse, which asks nothing of an aligned request; nothing is asked of blocks that the request does not touch |
| HashCoherence.HashByteCoherent | raw_disk_io.cpp:319-356 | for any mix of names, each byte fed to the hasher is a value that the image had since the call |
| HashCoherence.HashIsAnswered | raw_disk_io.cpp:299-356 | in every run a hash is answered no-memory if and only if 1024 read buffers were out or malloc failed at its call, and then nothing is hashed |
| HashCoherence.HashCoherent | raw_disk_io.cpp:319-356 | if a read buffer was free at the call and nothing is written to the piece during the job, then for any mix of names the bytes hashed are a prefix of the image of the piece at the call, however pending writes drain: the whole piece if and only if no error is reported, and otherwise up to a byte whose name does not parse |
| HashCoherence.CleanHashIsWhole | raw_disk_io.cpp:325-348 | if a read buffer was free at the call and every name parses, the whole piece is hashed without error |
| Nbd.Open | utils/ezio-nbd/ezio-nbd.py:51-63 | the index holds the sorted names of the plain files other than torrent.info with their parsed offsets, or the parse error |
| Nbd.FileNamesExactly | utils/ezio-nbd/ezio-nbd.py:51-54 | a name is listed as often as the directory has it as a plain file, and torrent.info never |
| Nbd.SortKeepsElements | utils/ezio-nbd/ezio-nbd.py:56 | sorting loses and doubles no name |
| Nbd.SortIsOrdered | utils/ezio-nbd/ezio-nbd.py:56 | any names, whatever they look like, come out in lexicographic order |
| Nbd.OpenIsSorted | utils/ezio-nbd/ezio-nbd.py:56-57 | for distinct names of one width and case the offsets of the index are strictly increasing |
| Nbd.BisectLeft | utils/ezio-nbd/ezio-nbd.py:76 | on a sorted index, everything before the answer is smaller and nothing after it is |
| Nbd.CopyLoop | utils/ezio-nbd/ezio-nbd.py:83-112 | the bytes put into the buffer, the untouched rest of it, and how the loop ends; `PreadClassified` says what the ends mean |
| Nbd.Pread | utils/ezio-nbd/ezio-nbd.py:68-115 | the same from the extent that the binary search picks, with the end classified from starts, sizes, offset and length |
| Nbd.CopyFromInside | utils/ezio-nbd/ezio-nbd.py:83-112 | from inside an extent the loop fills the buffer if and only if the range is covered, and stores only bytes of those addresses |
| Nbd.PreadClassified | utils/ezio-nbd/ezio-nbd.py:76-112 | the outcome of every non-empty request: filled if and only if the range is covered and does not start at a later extent's start; no data if and only if the first extent starts at or before it and it starts in no extent or at a later start; OS error if and only if it starts before the first extent, or begins inside one and leaves coverage before a later one; index error if and only if there is no extent, or it begins inside one and runs past the last; the bytes stored are those at the requested addresses, up to the first gap |
| Nbd.TorrentWritesAreImage | raw_disk_io.cpp:82-111 | any series of sequential writes that together cover a torrent, in any order and overlapping or not, puts every extent's contents at its own partition offset |
| Nbd.OpenIsTidy | utils/ezio-nbd/ezio-nbd.py:51-63 | what `open` makes of uniform names of apart, non-empty extents is an index that the binary search and copy loop can use |
| Nbd.ViewIsPartition | utils/ezio-nbd/ezio-nbd.py:68-112 | if the extents are on a partition, in any order, what `pread` stores is what a pread of the partition at the same offset returns |
| Deployment.QuietPartitionHoldsImage | raw_disk_io.cpp:274-286 | when the backend is at rest the partition holds the image at the mapped address of every byte that writes reach |
| Deployment.DownloadIsOnPartition | raw_disk_io.cpp:259-297 | a torrent written block by block, by any run that has come to rest and in which the last write of each block was made with no other one outstanding, is on the partition extent by extent |
| Deployment.SameOffset | utils/ezio-nbd/ezio-nbd.py:57 | the plugin reads the same offset out of a file name as the backend |
| Deployment.DownloadIsServed | utils/ezio-nbd/ezio-nbd.py:68-112 | from the torrent's file names as the backend parses them, any such run, and a directory of files with those names: `pread` stores what the partition holds at the requested offset, all of it exactly when the range is covered and does not start at a later extent's start, and the outcome is that of `PreadClassified` otherwise |

## Left out

- daemon, service, configuration, logging and the gRPC protocol: plumbing that copies fields.
- The operations of the backend that post a fixed answer or do nothing (async_hash2, move, release, check, stop, rename, delete, priority, clear_piece, stats, abort).
- SHA-1: the hasher is the concatenation of the bytes passed to `update`.
- libtorrent: `map_block` and `piece_size` are written from their BEP 3 meaning; the scheduling of boost::asio is an arbitrary choice of the next step.
- Data races on `storages_` and `free_slots_`, which the code does not lock: adding and removing a storage are atomic steps.
- Overflow of int64 when an extent's offset and a position in it are added: addresses are unbounded integers, only the parsed name is limited to int64.
- Expired observers: `watermark_callback` skips a peer that has gone; the model stops at the posted batch.
- The hash function of `torrent_location`: a map keyed by the triple needs only equality.
- Locking inside `get` and `get2`: a lookup and its callback are one step.
- The remaining state of the NBD plugin: the size read from torrent.info, and names with non-ASCII digits or blanks, which Python's `int` also accepts.
- An NBD image that changes between `open` and `pread`, and short reads of a file.
- Opening and closing of the partition and its error paths.
- The Python user interface, the command-line clients and the torrent generator.
- DiskJobs.ReadJob: the disk read is one step here; flushes between its slices are the subject of `System.dfy`.
- DiskJobs.HashPiece: leaves out the buffer allocation and its no-memory reply, which `System.dfy` has.
- Nbd.Pread: file contents are given as values; a handle leaked by the early return is not modelled.
