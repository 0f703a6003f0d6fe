# Upanix kernel stores, verified in Dafny

Upanix keeps its state in a handful of kernel-side stores: a FAT-like file system, a write-back disk cache, a kernel
heap, a page bitmap with two-level page tables, a tree of processes, and a few on-disk or in-memory tables.  Each of them
chains, caches, tiles or batches something simple.  This project models those stores and proves that they are the simple
thing, over every input and every run, and where they are not it proves exactly when.

`dafny verify dfyconfig.toml` checks everything.

## What is modelled

* **Volume.dfy** - a mounted volume as the directory code sees it: the allocation table as links, the data sectors, the
  queue of free sectors, and the buffer that coalesces adjacent sector writes.  A chain is determined by the table and its
  first sector, and cannot repeat a sector.
* **FileStore.dfy** - file bytes over chains: seek from the descriptor's remembered sector, extension with zero sectors,
  patched first and last sectors, whole sectors through the buffer, and the batched read.  A write replaces exactly its
  bytes; it succeeds exactly when the volume has the sectors; what a failing write leaves is stated too, and where a write
  or read goes whose descriptor remembers a sector off the file's chain.  **StrayWrites.dfy** says when such a write is in
  the file, and what else it hits.
* **FileRuns.dfy** - runs of opens, writes, reads and deletions over any number of files and descriptors of a volume: what
  each step answers, the bytes and chains of every file after it, what each descriptor remembers, and how many sectors
  are left.
* **TableCache.dfy** - the sorted, binary-searched, write-back cache of table blocks, the refill of the free queue and the
  count of used sectors, against a flat table.  **TableRefinement.dfy** shows that it keeps the contracts of the volume.
* **ReleaseList.dfy**, **CacheState.dfy**, **DiskCache.dfy**, **DiskRuns.dfy** - the bounded sector cache with dirty list,
  release list, eviction and flush, against a plain array of sectors: the list evictions are taken from, the states of the
  drive and what one turn of a request makes of them, the drive itself, and its runs.
* **Directory.dfy** - a directory of seven slots to a sector, against a finite map from names to entries.
* **Trackers.dfy**, **HeapBlocks.dfy**, **KernelHeap.dfy**, **HeapRuns.dfy** - the kernel heap: its checksummed trackers,
  field by field and byte by byte; blocks, split and freed; first fit with alignment stuffing; its runs.  Memory is the
  trackers that stand intact in it; storing one destroys those it overlaps, so a tracker survives only because it is shown
  to lie apart.
* **AddressSpace.dfy** - the page bitmap, the page tables of a user process, its image, stack and libraries.  A page holds
  table entries or bytes, whichever was stored last, so aliasing of a table with an image page would show.
* **ProcessTree.dfy**, **Scheduler.dfy**, **SchedulerRuns.dfy** - the tree of processes and threads and what becomes of the
  children of one that ends; the process manager, waiting for a child and one turn of the scheduler; rounds of turns and
  runs.  `gone` logs, in order, whoever leaves the map.
* **Partitions.dfy**, **ElfHash.dfy**, **ArgBlock.dfy**, **Geometry.dfy**, **Bits.dfy**, **Arithmetic.dfy**,
  **Wrappers.dfy** - the chain of extended partition records, dynamic symbol lookup, the startup argument block, where
  table and data lie on a drive, exclusive or and masks on numbers, remainders, and the option type.

Devices are arrays of sectors, each locked region is one step, and what a buffer or a device holds before it is written is
a parameter.  Where the code loops over fields it changes, the model is a class whose methods are proved against a
function of the old state, and the promises are lemmas about that function or invariants of whole runs.

## Where the code needs a condition

Each of these is stated as the exact condition, or with a member that shows the failure.

* A refill of the free queue checks the table cache for the first block of each batch of eight only.  It queues distinct
  free sectors if and only if, as far as the queue has room, every cached block behind the head of a batch has no zero
  link on disk (`RefillSoundness`, `RefillSkipsCached`); that no cached block lies behind a head is enough
  (`HeadsSuffice`).  From mount, 129 allocations can answer a used sector (`AllocateUsedSector`).
* The count of used sectors is right after a store if and only if the end mark goes to a free entry and any other value to
  a used one (`UsedCountExact`).
* A descriptor opened on an empty file keeps the position (0, end mark).  Once another descriptor has given the file
  sectors, a write through the old one fails and loses one sector, and a read returns nothing (`Refused`, `FileWrite`,
  `FileRead`).
* A first write that runs out of sectors leaves the entry as it was: the sectors taken so far are in no chain of any entry,
  but the descriptor remembers one of them.  So does a descriptor after its file has been deleted.  A later write through
  it that succeeds, and that stays off the file's chain, is in the file if and only if the chain held these bytes already;
  one that starts before the remembered index, or whose remembered sector has become that of its place in the file, goes
  along the chain and is in the file (`Own`, `WriteSeen`).  If the sector has become one of another file, or of another
  place in the same, the bytes there are replaced (`OtherOverwritten`).  A write that fails for want of sectors, tried
  again once there are enough, succeeds and is lost (`RetryIsLost`).  Without a deletion or
  such a failure before it, no descriptor leads off its file's chain (`WhyItStrays`).
* A read of zero bytes reads to the end of the file (`FileRead`).
* In a directory emptied by deletions the search goes on into slots that were never written, and finds a name there if and
  only if the first slot not marked deleted spells it (`Misled`); a deletion then wraps the entry count.
* Cache pointers are collected before evictions, so a hit can be evicted before its turn.  `Survives` follows the request
  turn by turn.  A write is right, and leaves the cache sound, if and only if its request survives; a read that does not
  answers some hit with the bytes of the miss that evicted it (`Read`, `Write`, `TurnSteals`).
* The release list is built on top of what is left of the old one.  A cleanup goes wrong if and only if that lists a sector
  twice (`LFUCacheCleanUp`); `RebuildsWellExact` says when, by what is left, what is clean and how it ranks.
  `RequestGoesWrong` and `CleanupGoesWrong` show drives on which a request and a cleanup go wrong.
* A heap whose free list has run empty looks unused and is initialised anew: what is handed out overlaps a live block if
  and only if the list was empty (`Heap.Allocate`).
* A second free of an address looks at the bytes of the old tracker that the free one has not overwritten.  With no
  stuffing it is caught; from twenty bytes on it loops the free list; in between `PassesAgain` is the exact condition for
  every number of bytes (`PassesAgainExact`), and stuffing of one to four bytes, or sixteen, that an alignment asked for is
  always caught (`DeAllocateTwice`).
* An address space that needs more pages than are free takes every free page and gives none back
  (`AllocateAddressSpace`).  Where the kernel does not map a page of its own half, the process sees one all the same
  (`KernelTranslated`).
* A process without parent may end if and only if nothing living hangs below it (`RootMayEnd`).
* A thread made while the map is full is listed by its process and not in the map: the tree is whole afterwards if and only
  if the map was not full (`CreateThreadTask`).
* An extended partition of more than 63 sectors is created right, one of 63 or fewer is not
  (`CreateExtPartitionEntry`).  Creating offers no partition for mounting while deleting withdraws one
  (`CreateThenDelete`).
* The symbol hash adds bytes signed, so it is the ABI's for ASCII names and differs for any name of one byte beyond
  (`AsciiHash`, `BeyondAscii`).  A name is looked up right if and only if its hash and the ABI's lead to the same bucket
  (`GetSymbolOffset`).

## Model

| member | source | states |
|---|---|---|
| Volume.ChainDistinct | filesystem/Directory.cpp:172-179 | a chain that reaches the end mark passes no sector twice, so walking it ends |
| Volume.ChainUnique | filesystem/Directory.cpp:172-179 | table and first sector determine the chain |
| Volume.Volume.AllocateSector | filesystem/FileSystem.cpp:401-414 | answers the first queued sector and takes it off the queue, or of an empty queue the lowest free sector; marks it; fails exactly when none is free |
| Volume.Volume.DeAllocateSector | filesystem/FileSystem.cpp:82-88 | frees the sector, answers its successor, and queues it last unless the queue is full |
| Volume.Volume.LoadFreeSectors | filesystem/FileSystem.cpp:287-354 | queues the free sectors in ascending order, those behind a full queue excepted; it is empty exactly when nothing is free |
| Volume.WriteBuffer.BufferedWrite | filesystem/Directory.cpp:35-79 | the data area with what is buffered laid over it changes by this sector only; a neighbour is gathered without a device write until there are eight, any other sector sends what is buffered first |
| Volume.WriteBuffer.Flush | filesystem/Directory.cpp:35-79 | what was pending is on the device, and nothing is pending |
| Volume.CoalescedWrites | filesystem/Directory.cpp:35-79 | any sequence of buffered writes and a flush equals writing each sector alone, in order |
| FileStore.GrowStep | filesystem/Directory.cpp:534-545 | allocating and linking one sector extends the chain by a sector that was free and touches no other link |
| FileStore.SeekForWrite | filesystem/Directory.cpp:511-526 | stops at the wanted index of the file's chain or of the walk from the remembered sector, or at its end with its last sector |
| FileStore.ExtendToIndex | filesystem/Directory.cpp:528-558 | the chain is grown by zero sectors up to the one the write starts in, or the volume is full |
| FileStore.WriteHead | filesystem/Directory.cpp:563-585 | the first sector is finished: old bytes before the offset, the data, old bytes behind |
| FileStore.PutTail | filesystem/Directory.cpp:602-617 | the last sector is finished: old bytes of the file behind the data survive |
| FileStore.WriteBody | filesystem/Directory.cpp:587-634 | every sector of the span is finished along a chain that extends the old one, or the volume is full and old bytes are safe |
| FileStore.ActualFileWrite | filesystem/Directory.cpp:494-634 | is the write to where the descriptor leads, done exactly when the sectors suffice, or is refused through an end mark; what is written, interrupted, lost and remembered in each case |
| FileStore.WrittenContent | filesystem/Directory.cpp:494-634 | after a full write the content is the old one with the data at its offset, and old bytes outside the span are kept |
| FileStore.ReplacedIsOverwrite | filesystem/Directory.cpp:467-492 | a write that starts inside the file is exactly replacement of the span |
| FileStore.InterruptedContent | filesystem/Directory.cpp:494-634 | bytes outside the span survive a write that runs out of sectors |
| FileStore.OtherFileKept | filesystem/Directory.cpp:494-634 | a file on a disjoint chain keeps chain and content, and its chain stays disjoint |
| FileStore.FileWrite | filesystem/Directory.cpp:467-492 | exact condition of success for any remembered position; along the file's own chain the new size, chain and content, or the untouched entry and surviving bytes; elsewhere what goes where; every other used sector kept; what the descriptor remembers |
| FileStore.WholeOutcome | filesystem/Directory.cpp:467-492 | a finished write is a replacement of its span and takes only sectors that were free |
| FileStore.PartOutcome | filesystem/Directory.cpp:494-634 | a write that runs out of sectors loses no byte outside its span and no other file's |
| FileStore.RunBytes | filesystem/Directory.cpp:690-735 | sectors of the chain with consecutive ids, read in one go, are the bytes of that stretch of the file |
| FileStore.ReadRun | filesystem/Directory.cpp:676-728 | the longest run of adjacent sectors up to eight that holds wanted bytes, how many of its bytes are wanted, and the sector after it |
| FileStore.SeekForRead | filesystem/Directory.cpp:651-672 | reaches the sector of the wanted index of the file's chain or of the walk from the remembered sector, or throws behind its end |
| FileStore.ReadBatches | filesystem/Directory.cpp:674-772 | the bytes of the batched walk are those of the chain up to its end, and the position left is one of the chain |
| FileStore.FileRead | filesystem/Directory.cpp:639-772 | along the file's own chain the wanted bytes from the offset on, or all the rest of the file when fewer are left or zero are asked for, and none behind its end; through any other remembered sector those of the walk from there, and none through an end mark |
| FileStore.WriteThenRead | filesystem/Directory.cpp:467-772 | a read at the offset of a successful write returns what was written |
| FileStore.FreeChain | filesystem/Directory.cpp:172-179 | deleting a file ends and frees its chain, all of it and nothing else |
| FileRuns.OtherKept | filesystem/Directory.cpp:467-634 | a file whose chain is apart from the one written keeps chain and bytes, and the chains stay apart |
| FileRuns.FileSet.WriteAt | filesystem/Directory.cpp:467-634 | exactly when it succeeds, what it makes of bytes, chains and free sectors of all files, and what the descriptor remembers; a write through an end mark out of date fails and loses a sector |
| FileRuns.FileSet.ReadAt | filesystem/Directory.cpp:639-772 | answers the wanted bytes of the byte sequence of its file, the whole rest when fewer are left or zero are asked for; nothing through an end mark out of date; changes no file |
| FileRuns.FileSet.Remove | filesystem/Directory.cpp:93-197 | deletes and creates a file: it is empty, its sectors are free, other files and all descriptors are as they were |
| FileRuns.FileSet.OpenOn | io/FileDescriptor.h:29-36 | a descriptor is opened at the first sector of its file, or the end mark |
| FileRuns.FileSet.Run | filesystem/Directory.cpp:144-772 | over every run of opens, writes, reads and deletions through any number of descriptors, up to the first that would go through a sector off its file's chain: each step succeeds exactly when it should and makes of files, sectors and descriptors what it should, and every read answers the span of its file that was asked for, cut off at the end |
| FileRuns.WhyItStrays | filesystem/Directory.cpp:144-772 | a run ends early only when a file has been deleted, or a first write to one has failed, before |
| StrayWrites.WriteSeen | filesystem/Directory.cpp:494-634 | a write that succeeded, along the file's own chain or off it, is in the file exactly when it went along the chain or the chain held these bytes already |
| StrayWrites.OtherOverwritten | filesystem/Directory.cpp:494-634 | a write through a sector of a chain replaces the bytes of that chain it comes to and may lengthen it |
| StrayWrites.RetryIsLost | filesystem/Directory.cpp:467-634 | a first write that failed for want of sectors, tried again after a deletion, succeeds, and the file opened anew yields nothing |
| TableCache.Merge | filesystem/FileSystem.cpp:126-132 | a stored link is the value masked to 28 bits, and the top four bits stay |
| TableCache.BinarySearch | filesystem/FileSystem.cpp:44-78 | finds the block exactly when cached, else the place that keeps the cache sorted |
| TableCache.PutAt | filesystem/FileSystem.cpp:120-132 | a store changes one link and no top bits |
| TableCache.UsedCountExact | filesystem/FileSystem.cpp:436-442 | exactly when the counter follows the number of used entries |
| TableCache.DiskFreeHas | filesystem/FileSystem.cpp:319-353 | the disk scan finds every free entry of an uncached block, and only entries free on disk |
| TableCache.RefillSoundness | filesystem/FileSystem.cpp:287-354 | a refill queues distinct free sectors exactly when no cached block behind a batch head has a zero link on disk, as far as the queue has room |
| TableCache.BatchesClearExact | filesystem/FileSystem.cpp:319-353 | of the disk scan, as far as it is taken, nothing is of a cached block exactly when the batches are clear |
| TableCache.HeadsSuffice | filesystem/FileSystem.cpp:319-353 | with no cached block behind a batch head the batches are clear, whatever the blocks hold |
| TableCache.OneCachedHeads | filesystem/FileSystem.cpp:319-353 | with one block cached that condition holds exactly when its number is a multiple of eight |
| TableCache.RefillComplete | filesystem/FileSystem.cpp:287-354 | a refill that leaves room in the queue has queued all that is free; the queue never holds more than its size |
| TableCache.RefillAtMount | filesystem/FileSystem.cpp:287-354 | with nothing cached a refill is always sound |
| TableCache.AllocateUsedSector | filesystem/FileSystem.cpp:287-414 | from mount 128 allocations go well and the next answers a sector that is in use |
| TableCache.FileSystem.FlushTableCache | filesystem/FileSystem.cpp:356-373 | evicting blocks, written ones to disk first, changes nothing a reader sees |
| TableCache.FileSystem.AddToTableCache | filesystem/FileSystem.cpp:375-387 | loading a block keeps the cache sorted, bounded and in agreement with the flat table; of a full cache the lowest block goes for it |
| TableCache.FileSystem.GetSectorEntryFromCache | filesystem/FileSystem.cpp:389-399 | the position of the block exactly when it is cached |
| TableCache.FileSystem.GetSectorEntryValue | filesystem/FileSystem.cpp:444-461 | the link stored last in the flat table, or the exception above it |
| TableCache.FileSystem.SetSectorEntryValue | filesystem/FileSystem.cpp:463-482 | the flat table changes by this link, and the counter as the mark says |
| TableCache.FileSystem.LoadFreeSectors | filesystem/FileSystem.cpp:287-354 | the queue gains, up to its size, the free entries of cached blocks and then those of the disk scan |
| TableCache.FileSystem.AllocateSector | filesystem/FileSystem.cpp:401-414 | from a sound queue, while cached blocks behind batch heads have no zero link on disk: a free sector is taken, failure means none is free, queue sound and counter exact afterwards |
| TableCache.FileSystem.DeAllocateSector | filesystem/FileSystem.cpp:82-88 | the entry is zero, its successor answered, the sector queued last unless the queue is full, queue sound and counter exact |
| TableCache.FileSystem.LinkSector | filesystem/FileSystem.cpp:463-482 | linking a used sector leaves the queue as it was and keeps the counter |
| TableCache.StepLinks | filesystem/FileSystem.cpp:82-482 | link by link what an operation makes of the flat table of a run |
| TableCache.Run | filesystem/FileSystem.cpp:356-482 | over every run of lookups, allocations, links, frees and flushes, up to a refill over a cached block behind a batch head that has a zero link on disk, or a lookup one above the last id: answers and table are those of the flat table, queue sound, counter exact |
| TableRefinement.StoreAgrees | filesystem/FileSystem.cpp:463-482 | a store in the table's blocks is a store in its links |
| TableRefinement.PoolAgrees | filesystem/FileSystem.cpp:401-414 | a sound queue of the cached table is a free queue of the volume |
| TableRefinement.GetSectorEntryValue | filesystem/FileSystem.cpp:444-461 | the cached lookup answers as the volume's |
| TableRefinement.SetSectorEntryValue | filesystem/FileSystem.cpp:463-482 | the cached store changes the links as the volume's |
| TableRefinement.AllocateSector | filesystem/FileSystem.cpp:401-414 | with a sound refill the cached allocation keeps the volume's contract, and takes the first of the queue |
| TableRefinement.DeAllocateSector | filesystem/FileSystem.cpp:82-88 | the cached free keeps the volume's contract, and queues the sector last unless the queue is full |
| Geometry.RegionsApart | filesystem/FileSystem.cpp:424-434 | no table sector is a data sector and every sector with an entry is on the drive |
| Geometry.TableIsLargest | filesystem/FileSystem.cpp:164-164 | the table has as many sectors as fit together with the data they describe |
| ReleaseList.SortedInsertSpec | drivers/DiskCache.cpp:132-155 | insertion keeps the release list ascending, and repeats no sector exactly when none was repeated and the new one was not on it |
| ReleaseList.VisitSpec | drivers/DiskCache.cpp:132-155 | a visit keeps the release list ascending, bounded, free of repeats and of dirty sectors |
| ReleaseList.BuiltWhole | drivers/DiskCache.cpp:46-72 | building on left-overs of which nothing clean is visited again repeats no sector |
| ReleaseList.BuiltRepeats | drivers/DiskCache.cpp:46-72 | while there is room for all that is clean, the built list repeats a sector exactly when a clean left-over is visited again |
| CacheState.RebuiltSound | drivers/DiskCache.cpp:46-72 | a cleanup leaves the cache sound exactly when its list repeats no sector, and changes nothing a reader sees |
| CacheState.RebuildsWellWhen | drivers/DiskCache.cpp:46-72 | a cleanup goes well if nothing clean that is left on the list is visited again |
| CacheState.RebuildsWellExact | drivers/DiskCache.cpp:46-72 | exactly when a cleanup goes well, by what is left on the list, which sectors are clean and how they rank |
| ReleaseList.BuiltFull | drivers/DiskCache.cpp:46-72 | a full list keeps its first two entries, and the last becomes the first of the highest rank |
| ReleaseList.BuiltKeeps | drivers/DiskCache.cpp:46-72 | while there is room all that is clean gets on the list, with its rank, and nothing leaves |
| CacheState.CleanupGoesWrong | drivers/DiskCache.cpp:46-72 | a drive on which a cleanup lists a sector twice |
| CacheState.RequestGoesWrong | drivers/DeviceDrive.cpp:144-348 | a drive on which a request of three sectors evicts its own hit |
| CacheState.FreeCellExists | drivers/DiskCache.cpp:187-192 | a buffer is free while the cache is not full |
| DiskCache.DiskDrive.InsertToDirtyList | drivers/DiskCache.cpp:174-178 | a sector is listed once, the new one last |
| DiskCache.DiskDrive.Add | drivers/DiskCache.h:174-180 | a new sector gets a buffer no other sector uses |
| DiskCache.DiskDrive.WriteHit | drivers/DeviceDrive.cpp:293-320 | a write through a pointer fills the buffer it leads to and lists the sector dirty with it |
| CacheState.HitWrittenSound | drivers/DeviceDrive.cpp:293-320 | through a right pointer that changes the view by that sector and keeps the cache sound |
| CacheState.EvictedSound | drivers/DiskCache.cpp:74-130 | dropping a clean sector changes nothing a reader sees |
| CacheState.TurnSound | drivers/DeviceDrive.cpp:144-348 | a turn of a request, hit, miss or miss with eviction, keeps the cache sound and changes the view by what it writes |
| CacheState.TurnKeepsHits | drivers/DeviceDrive.cpp:144-348 | a turn that spares the pending hits leaves all of them where their pointers say |
| CacheState.TurnSteals | drivers/DeviceDrive.cpp:144-348 | a turn that does not spare them gives the buffer of a pending hit to its own sector |
| DiskCache.DiskDrive.ReplaceCache | drivers/DiskCache.cpp:74-130 | the first clean sector of the release list gives its buffer to the new one, or the list is spent and nothing is cached; fails exactly when that sector is not cached |
| DiskCache.ReplacedHow | drivers/DiskCache.cpp:74-130 | the list loses its dirty front and the victim behind it; the victim leaves the cache and its buffer holds the new sector; the list is built while it has entries left |
| CacheState.ReplacedSound | drivers/DiskCache.cpp:74-130 | a replacement keeps the cache sound and changes nothing a reader sees |
| DiskCache.DiskDrive.LFUCacheCleanUp | drivers/DiskCache.cpp:46-72 | the loop computes the rebuilt release list; the list of a full cache is marked built exactly when it has its full length, any other is left as it is; the cache is sound afterwards exactly when it repeats no sector |
| DiskCache.DiskDrive.FlushDirtyCacheSectors | drivers/DeviceDrive.cpp:387-407 | as many dirty sectors as asked, oldest first, reach the device; a full flush ends with the device equal to the view |
| DiskCache.DiskDrive.LookUp | drivers/DeviceDrive.cpp:150-176 | the pointers of the cached sectors, and the first and last that miss |
| DiskCache.DiskDrive.Read | drivers/DeviceDrive.cpp:144-226 | keeps cache and view; answers the view when the request evicts no pending hit, else some hit with the bytes of a miss before it |
| DiskCache.DiskDrive.WriteMiss | drivers/DeviceDrive.cpp:300-340 | with room the sector is cached in a buffer of its own and dirty, the device as it was; when the cache is full it is written through, and cached in the place of the first clean sector of the release list if there is one |
| DiskCache.DiskDrive.ReadMiss | drivers/DeviceDrive.cpp:190-216 | with room the sector is cached in a buffer of its own; when the cache is full in the place of the first clean sector of the release list, if there is one |
| DiskCache.MissesWritten | drivers/DeviceDrive.cpp:300-340 | the turn of a write miss, whichever free buffer it takes, does that |
| DiskCache.DiskDrive.Write | drivers/DeviceDrive.cpp:257-348 | the view with the data laid over it exactly when the request evicts no pending hit; else the dirty list names a sector that is not cached |
| DiskRuns.Run | drivers/DeviceDrive.cpp:144-414 | over every run of reads, writes, flushes and cleanups, up to a request that does not survive or a cleanup that repeats a sector: reads answer what a plain array given the same writes answers |
| DiskRuns.RunAndFlush | drivers/DeviceDrive.cpp:387-407 | after a run and a full flush the device is that array and nothing is dirty |
| Directory.EntriesSpec | filesystem/Directory.cpp:349-465 | the map of a slot list: a name is in it exactly when a live slot has it, with that slot |
| Directory.EntriesCount | filesystem/Directory.cpp:93-142 | with distinct names there are as many entries as live slots |
| Directory.InsertAt | filesystem/Directory.cpp:93-142 | writing a live slot over a deleted one is insertion |
| Directory.RemoveAt | filesystem/Directory.cpp:144-197 | marking a slot deleted is removal |
| Directory.FindDirectory | filesystem/Directory.cpp:349-465 | the entry, else the first deleted slot, else the slot behind the last live one, else that a sector is missing; the sector copied out with it |
| Directory.HitIsEntry | filesystem/Directory.cpp:349-465 | in a directory with entries a hit is the entry of the name |
| Directory.MissIsAbsent | filesystem/Directory.cpp:349-465 | a miss means the name has no entry |
| Directory.VacantMayBeTaken | filesystem/Directory.cpp:349-465 | the slot a miss answers holds no live entry |
| Directory.DirectoryFile.Lookup | filesystem/Directory.cpp:349-465 | is lookup in the finite map exactly when not misled by a slot never written |
| Directory.DirectoryFile.Create | filesystem/Directory.cpp:93-142 | succeeds exactly when the name is new, the search not misled and there is room; then it is insertion |
| Directory.DirectoryFile.Delete | filesystem/Directory.cpp:144-197 | when not misled, removes exactly entries that are there and no full directory; when misled the count wraps |
| Directory.EmptiedDirectoryCanMislead | filesystem/Directory.cpp:349-465 | an emptied directory in which a name without entry is found |
| Directory.Run | filesystem/Directory.cpp:93-465 | over every run up to the first misled search, the directory is a finite map kept in a number of sectors: which operations succeed, what is found, and its size the number of entries |
| Bits.XorCancels | memory/DMM.cpp:57-59 | exclusive or with the same number can be undone |
| Bits.PowerOfTwoExact | util/Bit.h:45-45 | a number that shares no bit with its predecessor is a power of two, and only such a number |
| Trackers.OneFieldDetected | memory/DMM.cpp:57-63 | a change of any one field of a sealed tracker fails its checksum |
| Trackers.OverlaidPasses | memory/DMM.cpp:57-63 | a tracker with another stored over its first bytes passes the check exactly when the bytes left of one and overwritten of the other agree lane by lane |
| KernelHeap.PassesAgainExact | memory/DMM.cpp:296-315 | for each stuffing of one to nineteen bytes, when the words below a freed address still pass |
| Trackers.FreedOdd | memory/DMM.cpp:57-63 | for five to fifteen bytes that are no whole words the check passes exactly when four equations between bytes of base, size, list head and address hold |
| HeapBlocks.StuffingAligns | memory/DMM.cpp:34-46 | the stuffing reaches an aligned address and nothing less does |
| HeapBlocks.ByteInBlock | memory/DMM.cpp:159-316 | every byte of the heap is in a block |
| HeapBlocks.CarvedTiles | memory/DMM.cpp:188-206 | splitting a block keeps the heap tiled |
| HeapBlocks.SplitSound | memory/DMM.cpp:188-222 | splitting keeps tiling, free list and every tracker |
| HeapBlocks.TakeSound | memory/DMM.cpp:208-222 | taking a block whole keeps them too |
| HeapBlocks.ReleaseSound | memory/DMM.cpp:308-315 | freeing keeps them too |
| KernelHeap.PayloadsApart | memory/DMM.cpp:159-232 | payloads of live blocks do not meet and hold no tracker of another |
| KernelHeap.ServedApart | memory/DMM.cpp:159-232 | what is handed out is aligned, was in no live block, and leaves all live blocks as they were |
| KernelHeap.ServedExact | memory/DMM.cpp:179-230 | a request fails exactly when no free block has room at an aligned address; else it gets the lowest such address of the first block on the list that has any |
| KernelHeap.RestKept | memory/DMM.cpp:188-222 | what is not asked for of the chosen block stays free, in its place on the list, if it is more than a tracker and a byte, and goes with the block if not |
| KernelHeap.FreedServesNext | memory/DMM.cpp:308-315 | what has just been freed serves the next request that it has room for |
| KernelHeap.ExhaustedMeets | memory/DMM.cpp:168-177 | with an empty free list whatever is handed out lies in a live block |
| KernelHeap.Heap.Initialize | memory/DMM.cpp:168-177 | an empty list becomes one free block, whatever was there |
| KernelHeap.Heap.Place | memory/DMM.cpp:188-223 | the new blocks and list, sound, and the returned address |
| KernelHeap.PlaceFront | memory/DMM.cpp:188-223 | memory, list head and blocks after a split |
| KernelHeap.PlaceWhole | memory/DMM.cpp:208-223 | memory, list head and blocks when a block is taken whole |
| KernelHeap.Heap.Search | memory/DMM.cpp:179-230 | the first block with room is used; failure means none has; no checksum fails |
| KernelHeap.Heap.Allocate | memory/DMM.cpp:159-232 | first fit, aligned; refused exactly when the alignment is neither zero nor a power of two; overlaps a live block exactly when the list was empty |
| KernelHeap.LiveVerdict | memory/DMM.cpp:296-307 | the words below a live address are its tracker, and pass |
| KernelHeap.Heap.DeAllocate | memory/DMM.cpp:286-316 | frees exactly a live block; every other address is judged by the words below it |
| KernelHeap.Heap.DeAllocateTwice | memory/DMM.cpp:286-316 | the exact verdict on a second free for every number of stuffed bytes, and what becomes of the heap |
| KernelHeap.Heap.WritePayload | memory/DMM.cpp:159-316 | trackers outside the payload stand, none inside survives but those written there, and the heap stays sound |
| HeapRuns.Step | memory/DMM.cpp:159-316 | a request is served by first fit, a release frees the block, a payload write changes its bytes only, and the live blocks stay those that are held |
| HeapRuns.HeldApart | memory/DMM.cpp:159-316 | no two payloads that are held meet |
| HeapRuns.NoneCorrupted | memory/DMM.cpp:159-316 | no operation of a run meets a checksum that fails |
| HeapRuns.Run | memory/DMM.cpp:159-316 | over every run, up to a request to a heap that is used up: what each operation answers and makes of the heap, that no check fails and no two payloads meet at any time |
| AddressSpace.MemManager.AllocatePhysicalPage | memory/MemManager.cpp:344-369 | the lowest free page above the kernel's, one bit set, failure exactly when none is free |
| AddressSpace.MemManager.DeAllocatePhysicalPage | memory/MemManager.cpp:371-382 | one bit cleared, and only ever that of a page in use |
| AddressSpace.ClaimStep | memory/MemManager.cpp:344-369 | a page taken was free, belongs to no other role, and leaves one free page fewer |
| AddressSpace.UserProcess.AllocatePDE | process/SchedulableProcess.cpp:209-217 | a fresh directory with nothing present |
| AddressSpace.UserProcess.AllocateTable | process/UserProcess.cpp:336-352 | one fresh blank table and the directory entry that leads to it |
| AddressSpace.UserProcess.AllocatePTE | process/UserProcess.cpp:331-356 | all tables and the stack's, where the libraries will start, and exactly when it succeeds |
| AddressSpace.UserProcess.InitializeProcessSpaceForOS | process/UserProcess.cpp:358-370 | every entry of the kernel's half names the kernel's page |
| AddressSpace.UserProcess.InitializeProcessSpaceForProcess | process/UserProcess.cpp:372-390 | a page of its own for each page of the image and the stack |
| AddressSpace.UserProcess.AllocateStackSpace | process/SchedulableProcess.cpp:231-240 | nine pages at the top of the stack table, the innermost eight out of user reach |
| AddressSpace.UserProcess.AllocateAddressSpace | process/UserProcess.cpp:323-329 | succeeds exactly when enough pages are free; then the whole layout stands, else every free page is gone |
| AddressSpace.KernelTranslated | process/UserProcess.cpp:358-370 | an address of the kernel's half leads to the page the kernel's entry names |
| AddressSpace.UserProcess.CopyElfImage | process/UserProcess.cpp:217-247 | every byte of the image is in its page, the last page in part, and no table is touched |
| AddressSpace.ImageTranslated | memory/MemManager.cpp:634-653 | translating the address of byte k of the image leads to byte k modulo 4096 of its page, for any page-aligned base |
| AddressSpace.FlatAddressOf | memory/MemManager.cpp:634-653 | an address of which directory or table entry is not present translates to zero, any other to its offset in the page named |
| AddressSpace.ImageReadBack | memory/MemManager.cpp:634-653 | reading the address of byte k of the image reads byte k of the file |
| AddressSpace.UserProcess.MapDLLPagesToProcess | process/UserProcess.cpp:465-496 | a library is mapped behind the one before; exactly when it succeeds; its load address |
| AddressSpace.DLLTranslated | process/UserProcess.cpp:465-496 | page i of the libraries is at the first load address plus i times 4096 |
| AddressSpace.FoundInLayout | memory/MemManager.cpp:634-653 | at its addresses a process finds every byte of its image, every byte of its library pages and what the kernel maps below |
| AddressSpace.RightsInLayout | process/UserProcess.cpp:358-390 | user code may write its image, libraries and arguments page, may read but not write the kernel's half, and may not reach the innermost eight stack pages |
| AddressSpace.PagesLeast | memory/MemManager.h:77-80 | as many pages as hold the image, and one fewer would not |
| AddressSpace.TablesLeast | memory/MemManager.h:82-85 | as many tables as map the pages, and one fewer would not |
| AddressSpace.UserProcess.NeededIs | process/UserProcess.cpp:323-496 | what a process needs: directory, tables of the kernel's half, fewest tables and pages for the image, stack, libraries and their fewest tables |
| AddressSpace.UserProcess.DeAllocateDLLPages | process/UserProcess.cpp:405-425 | every library page and its tables are given back, each once |
| AddressSpace.UserProcess.DeAllocateProcessPages | process/UserProcess.cpp:433-450 | every page of the image is given back, each once |
| AddressSpace.UserProcess.DeAllocateStackSpace | process/SchedulableProcess.cpp:242-252 | every page of the stack is given back, each once |
| AddressSpace.UserProcess.DeAllocatePTE | process/UserProcess.cpp:453-463 | every table is given back, each once |
| AddressSpace.UserProcess.DeAllocateResources | process/UserProcess.cpp:392-463 | every page of the space is given back and no other bit changes |
| AddressSpace.AllReturned | process/UserProcess.cpp:427-463 | a bitmap from which a space was claimed and to which it was returned is as it was |
| AddressSpace.SpacesApart | process/UserProcess.cpp:323-390 | two address spaces share no page |
| AddressSpace.UserProcess.BuildAndTearDown | process/UserProcess.cpp:323-496 | is built exactly when enough pages are free; then layout, image and load addresses stood as they should on pages that were free, every byte of image, libraries and kernel was found at its address, and the bitmap is as it was, bit for bit; else every free page is gone |
| ProcessTree.HandedOver | process/SchedulableProcess.cpp:88-103 | handing the children of an ended process to a living one keeps the tree |
| ProcessTree.ProcessAdded | process/ProcessManager.cpp:173-185 | a new process under a living parent keeps the tree |
| ProcessTree.ThreadAdded | process/AutonomousProcess.cpp:66-70 | a new thread keeps the tree and the thread list |
| ProcessTree.ThreadsEnded | process/AutonomousProcess.cpp:72-85 | all threads of an ending process are ended and gone, and the tree is kept |
| ProcessTree.Destroyed | process/SchedulableProcess.cpp:83-128 | a process that ends leaves a whole tree |
| ProcessTree.Rehomed | process/SchedulableProcess.cpp:88-103 | living children of the process and of its threads end up under its parent, which lists them |
| ProcessTree.EndedReleased | process/SchedulableProcess.cpp:88-103 | a child that had ended before its parent is released |
| ProcessTree.Spared | process/SchedulableProcess.cpp:83-128 | a process that does not hang below it keeps status, parent, owner and threads |
| ProcessTree.ThreadsLeave | process/AutonomousProcess.cpp:72-85 | its threads leave the map |
| ProcessTree.RootMayEnd | process/SchedulableProcess.cpp:119-121 | a process without parent leaves a whole tree exactly when nothing living hangs below it |
| ProcessTree.WokenKeeps | process/ProcessManager.cpp:236-263 | a parent whose wait is over runs, the ended child is released and unlisted, and nobody else changes |
| Scheduler.ProcessManager.Create | process/ProcessManager.cpp:173-185 | one process more in map and list, ready and without children or threads, or a used-up number and a child listed that is not there when the map is full |
| Scheduler.ProcessManager.CreateThreadTask | process/ProcessManager.cpp:508-520 | one thread more, ready and last in the list of the process the caller is or belongs to; with a full map one that is listed and not there, and the tree is whole exactly when the map was not full |
| Scheduler.ProcessManager.HandOverChildren | process/SchedulableProcess.cpp:88-103 | the loop over the children computes the hand-over |
| Scheduler.ProcessManager.DestroyThreads | process/AutonomousProcess.cpp:72-85 | the loop over the threads computes the ending of all of them |
| Scheduler.ProcessManager.Destroy | process/SchedulableProcess.cpp:83-128 | computes the ending and logs the threads; tree, list and log stay whole exactly when it has a parent or no living dependant |
| Scheduler.ProcessManager.ForSchedule | process/AutonomousProcess.cpp:36-63 | the released threads from the scheduling place up to the chosen one leave list and map, and are logged; the chosen one is the first behind them that is not released |
| Scheduler.ChosenGoesLast | process/AutonomousProcess.cpp:36-63 | the thread chosen goes behind all that come after it in the round |
| SchedulerRuns.Rotate | process/AutonomousProcess.cpp:36-63 | in any k + 1 turns in a row each of k threads and the process itself occurs exactly once |
| SchedulerRuns.Sweep | process/AutonomousProcess.cpp:36-63 | within one turn more than it has threads, every thread released at the start is gone and logged, and none of them runs |
| Scheduler.OneTurnEach | process/AutonomousProcess.cpp:36-63 | the turns of k + 1 places in a row are, as a multiset, the threads and the process |
| Scheduler.ProcessManager.Kill | process/ProcessManager.cpp:626-637 | ends a living process and does nothing to any other; the tree stays whole exactly when one that ends has a parent or no living dependant |
| Scheduler.ProcessManager.WaitOnChild | process/ProcessManager.cpp:413-427 | the caller waits for that child, unless the number is out of range, and nobody else changes |
| Scheduler.CasesHold | process/ProcessManager.cpp:192-297 | by status, who runs and what waking changes: a wait on a child is over exactly when none is awaited, or the child is not there, has another parent, or has ended; the one that has ended is released and listed no longer |
| Scheduler.ProcessManager.DoContextSwitch | process/ProcessManager.cpp:192-334 | by status, whether the process runs; the table after waking, running and ending; the tree stays whole exactly when one that ends has a parent or no living dependant |
| Scheduler.ProcessManager.Turn | process/ProcessManager.cpp:336-352 | who is chosen, whether it runs, and the table after; a process that is released once its turn is over leaves map and list and is logged, any other stays |
| SchedulerRuns.ReleasedAfterTurn | process/ProcessManager.cpp:336-352 | a released process leaves map and list in its own turn, and stays released through the turns of others |
| SchedulerRuns.Undisturbed | process/ProcessManager.cpp:173-352 | a living process keeps status and wait through every operation that is not its turn, its wait or its end |
| SchedulerRuns.ExitEndsWait | process/SchedulableProcess.cpp:83-128 | when the child exits for which a process waits, that wait is over |
| SchedulerRuns.DueRuns | process/ProcessManager.cpp:236-297 | a process that is ready, or waits for a child that has ended, runs in its turn; the child is released or gone, and listed no longer |
| SchedulerRuns.NextTurnRuns | process/ProcessManager.cpp:173-352 | in every run such a process runs in its next turn, however many operations lie between, unless it is ended or made to wait before |
| SchedulerRuns.CreatedDue | process/ProcessManager.cpp:173-185 | a process or thread that has just been created is such a one |
| SchedulerRuns.ExitsInTurn | process/ProcessManager.cpp:329-331 | one that exits in its turn no longer lives after it |
| SchedulerRuns.Pass | process/ProcessManager.cpp:336-352 | one pass over the list gives every process one turn, and every process released at its start is gone from map and list and logged |
| SchedulerRuns.Step | process/ProcessManager.cpp:173-352 | what each operation answers and makes of map, list and log, or that it is refused |
| SchedulerRuns.StepLogs | process/ProcessManager.cpp:173-352 | an operation logs exactly those it takes out of the map |
| SchedulerRuns.RunLogs | process/ProcessManager.cpp:173-352 | the log of a run is duplicate-free and holds those that were in the map at some time and are not at its end |
| SchedulerRuns.Execute | process/ProcessManager.cpp:173-352 | over every run each operation does what it should, tree, list and map agree, and whoever leaves the map does so once and for good |
| Partitions.SpellsOnce | drivers/PartitionManager.cpp:190-210 | a chain of records on disk spells one list at most |
| Partitions.Ordered | drivers/PartitionManager.cpp:271-326 | partitions lie inside the extended partition, each behind all before it |
| Partitions.PlacesAddUp | drivers/PartitionManager.cpp:271-326 | each partition lies behind the start of the extended one by the sum of the extents before it |
| Partitions.PartitionTable.CreateExtPartitionEntry | drivers/PartitionManager.cpp:271-326 | succeeds exactly when the size fits behind the last partition; the new one starts there, a track ahead of its sectors, which are the size less 63, and ends with the size; the record before links to it; disk, memory and tiling agree afterwards exactly for sizes above 63 |
| Partitions.PartitionTable.DeleteExtPartition | drivers/PartitionManager.cpp:374-405 | the last partition goes from disk and memory, which still agree, its record erased; the last one offered goes, if any is |
| Partitions.PartitionTable.ReadExtPartitions | drivers/PartitionManager.cpp:169-211 | parsing the chain ends and yields the list in memory, each partition starting behind its boot record |
| Partitions.PartitionTable.CreateThenDelete | drivers/PartitionManager.cpp:271-405 | list and chain are as before, but one partition fewer is offered |
| Partitions.PartitionTable.Run | drivers/PartitionManager.cpp:169-405 | over every run of deletions and of creations above 63 sectors: the sizes asked for alone decide which operations succeed; those that stand lie one behind the other, their extents adding up to them; parsing the disk yields that list; the partitions left on offer |
| ElfHash.HashBound | process/DynamicLinkLoader.cpp:49-64 | the hash of any name is below 2 to the 28th |
| ElfHash.MaskedFold | process/DynamicLinkLoader.cpp:55-60 | shift, mask and exclusive or with the top four bits come to the arithmetic that folds them into bits 4 to 7 |
| ElfHash.AsciiHash | process/DynamicLinkLoader.cpp:49-64 | for ASCII names the hash is that of the System V ABI, chapter 5, computed with unsigned bytes |
| ElfHash.AsciiBelongs | process/DynamicLinkLoader.cpp:294-295 | the bucket of an ASCII name is the one the ABI puts it in |
| ElfHash.BeyondAscii | process/DynamicLinkLoader.cpp:49-64 | for a name of one byte beyond ASCII it is not |
| ElfHash.AddedIsSigned | process/DynamicLinkLoader.cpp:49-64 | what is added for a byte is its value as a signed character, modulo 2 to the 32nd |
| ElfHash.GetHashValue | process/DynamicLinkLoader.cpp:49-64 | the loop computes the hash |
| ElfHash.ScanFinds | process/DynamicLinkLoader.cpp:232-249 | with unique names the linear scan answers the symbol that defines the name |
| ElfHash.GetSymbolOffsetFromProcess | process/DynamicLinkLoader.cpp:232-249 | the first symbol of the name decides: its value, or nothing when that is zero; nothing when no symbol has the name |
| ElfHash.GetSymbolOffset | process/DynamicLinkLoader.cpp:251-314 | finds a definition exactly when there is one and the hash and the ABI's leave the same remainder by the number of buckets, the first on the chain; then with unique names it answers as the linear scan does |
| ArgBlock.DecodesOnce | process/UserProcess.cpp:179-215 | a process reads one argument list only from its stack |
| ArgBlock.OneArgumentMore | process/UserProcess.cpp:187-194 | the block is eight bytes, and for each argument a pointer, its bytes and a zero |
| ArgBlock.PushProgramInitStackData | process/UserProcess.cpp:179-215 | following count, vector and pointers yields exactly the arguments; the block ends with the page and is refused exactly when too large |

## Left out

- GetSectorEntryValue: asks for an id other than the number of table entries, which the code lets through into the sector behind the table (filesystem/FileSystem.cpp:446).
- SetSectorEntryValue: asks for the same (filesystem/FileSystem.cpp:465).
- Volume: fewer entries than the end mark less one, since the read compares neighbouring ids; the cached table takes the place of the flat one while its refills are sound.
- FileStore: offsets plus sizes that wrap 32 bits, the write count of a table block wrapping 32 bits, file times and permissions, and the split of long writes into chunks of one megabyte.
- FileWrite: bytes between the old end of a file and the offset of the write, inside the old chain, are whatever the sector held.  A write through a remembered sector that has been freed and is in no chain goes on through sector 0; such a write is modelled as long as it needs no sector behind the end of that walk.
- DiskCache: insert and device failures, the switch that disables the cache, hit counts and times (a rank per sector stands for them), and that the victim is the least used.
- Directory: the entries `.` and `..`, paths, the ids of the sectors of the directory's own chain, and user checks.
- KernelHeap: the heap of user processes, whose returned address comes from the free tracker and not from the new one (memory/DMM.cpp:149); it has no checksums.
- Allocate: asks that size, tracker and alignment do not wrap 32 bits; the code does not check.
- AddressSpace: page faults, the frame buffer table, the environment page, the user heap, and the directory entry of the stack, which is set when a process is switched to; addresses of pages stand for page numbers, and one physical memory is used throughout, although the segment base is not subtracted at process/UserProcess.cpp:415.
- BuildAndTearDown: asks that image and libraries stay below the directory entry of the frame buffer, and that each library has a page.
- AllocateAddressSpace: asks that the image stays below the directory entry of the frame buffer, which the code does not check.
- ProcessTree: what a process does while it runs, process groups, resources and descriptors; a thread that ends its own process while it runs.
- Execute: runs refuse a thread while the map is full and the end of a process without parent, after which tree and map need not agree (`CreateThreadTask`, `RootMayEnd`); both operations are modelled with these cases.
- ForSchedule: the list's end is taken as a place that appending does not move.
- Turn: asks that a process without parent does not end in its turn; what its ending does is in `Destroy` and `DoContextSwitch`.
- Run: runs end where the code leaves the state its promises are about: a request to a heap whose list has run empty, a descriptor that leads off its file's chain, a misled search, a refill that would queue used sectors, a request that does not survive, a cleanup that repeats a sector; the step that does so is covered by its own contract.
- AllocateSector: on the flat table of a volume every refill is sound; refills that queue used sectors are part of the cached table.
- DeleteExtPartition: with no partition on offer the list of offered ones stays empty; the list class it is taken from at drivers/PartitionManager.cpp:403 is not part of this model.
- Partitions: primary and GPT entries, cylinder, head and sector fields; the tail of the list is taken as it was before the new partition was appended.
- GetSymbolOffset: section headers and the string table; a symbol stands for its name, and the hash section is well formed.
- ArgBlock: the page behind the stack top is an array of bytes.
- Cylinder geometry, ports, interrupts, consoles, the dispatch of system calls, descriptor counts and device drivers.
