# xv6 with large files, an MLFQ/stride scheduler and threads: a Dafny model

This project models the parts of an x86 xv6 kernel (and two of its user programs)
where state is shared and changed in place, and proves what each of them keeps in
every reachable state. It covers the file system's block tree and its redo log, the
buffer cache, the user-level allocator, page tables over the page pool, the scheduler,
thread lists, the readers-writer lock, pipes and the regular expression matcher of grep.

`dafny verify dfyconfig.toml` checks the whole project.

## How the modules fit together

**Files.** `BlockTree` names every node of every inode's tree by its position and takes
the inverse of the address function as ghost ownership, so that disjointness of all trees
is one statement about a map. `BlockViews`, `FileWrites` and `Truncation` say what one
path allocation, one round of a write and one truncation do to all files. `FileSystem` is
fs.c in place: `Balloc`, `Bmap`, `Readi`, `Writei`, `Itrunc`. `OpenFiles` is the chunk
loop of file.c on top of it, `LogBudget` counts the blocks one chunk logs, and `DiskSpace`
the blocks a write needs.
`InodeBlocks` packs inode records into blocks.

**Log.** `Journal` is the redo log as a step system whose steps are single block writes,
with a crash possible between any two, also during recovery. `JournalRuns` holds the
theorems over whole runs, `LogSpace` the space accounting, and `Log` is log.c in place:
every method extends a run of `Journal` steps. `CrashSafety` joins the two halves: what a
transaction of the file system changes goes through the log, so recovery from any crash
leaves the file system as some finished operation left it, for `filewrite` a whole number
of chunks. `Rings` and `BufCache` are bio.c; `Common` holds shared constants.

**Memory.** `FreeList` and `Umalloc` are the allocator of umalloc.c over an array of
header units. `PageTables`, `AddressSpaces` and `Vm` are vm.c and kalloc.c: a ghost map
from allocated frames to their one use makes "each frame is mapped at most once" and
"every frame of the pool is free or in use" part of the invariant. `FrameCounts` counts the
frames an operation takes, so that it fails exactly if there are fewer.

**Processes.** `Procs`, `StrideQueue`, `Picking` and `SchedSteps` are the process table,
the stride queue and each atomic step on them as values; `Scheduler` is proc.c in place,
with the MLFQ counters; `SchedLaws` says what the operations do for their callers and
`Fairness` holds the theorems about who gets the CPU. `ThreadRing`
is the thread list, `RwLock` the readers-writer lock, `Pipes` the pipe.

**Matching.** `Regex` relates the matcher of grep.c to a meaning by cutting the text into
pieces that fit the pattern's items.

A kernel panic is the value `Panic` of an `Outcome`, not a precondition.

## Where the code differs from what one would expect

- `log_write` panics when the number of logged blocks reaches `log.size - 1`. With the
  LOGSIZE blocks that mkfs reserves this happens to operations that stay within their
  share (`LogSpace.MkfsAreaPanics`, `LogSpace.PanicWithinShare`); with at least one block
  more it does not for new blocks, but logging a block again can still panic
  (`LogSpace.NewBlockPanics`, `LogSpace.PanicOnAbsorption`).
- `malloc` rounds up in 32 bits: the block is large enough if and only if the request is
  at most 2^32 - 8 bytes (`Umalloc.BigEnough`). The argument `morecore` gives sbrk is the
  size it means if and only if the units are fewer than 2^28 (`Umalloc.SbrkArgRight`);
  otherwise `malloc` ends as `Corrupt`.
- A failed `allocuvm` restores the address space if and only if none of the pages it was
  asked to add was mapped before (`Vm.Vm.Allocuvm`); without free memory a mapped page of
  the range is lost (`Vm.PageLost`). Such a range can arise because lwp.c:175-180 sets the
  process size to the exiting thread's stack, which may lie below another thread's.
- The crash results hold whatever the number of blocks an operation logs. That it keeps to
  its share of the log is a hypothesis of the space results only (`LogSpace.BudgetKept`).
- `set_cpu_share` adds before it compares. The shares stay within 80 if and only if the
  sum does not overflow (`SchedSteps.SharedKeeps`, with an accepted overflow in
  `SchedSteps.OverflowAccepted`).
- A second `set_cpu_share` of one process does not give its first share back: the reserved
  sum stays the sum of the shares if and only if the process had none before
  (`SchedLaws.SecondShareLeaks`).
- With an empty MLFQ the scheduler compares with the pass of the head of the stride queue
  even if the head sleeps. The CPU then stays idle although a process can run, exactly if
  all that can run are behind the head (`Fairness.IdleExactly`, `Fairness.IdleDespiteWork`).
- Pass values are 32 bits wide. The bound on leads holds while they do not wrap around and
  is broken by a yield that wraps, unless a lead was almost the whole range at the start
  (`Fairness.LeadBounded`, `Fairness.WrapBreaksBound`).
- `thread_create` follows a null pointer if and only if there are other threads but none
  to run next, which joining a sleeping thread brings about
  (`ThreadRing.NullPointerReached`), and the thread count stays equal to the length of the list if and only if
  it is not the main thread that exits (`ThreadRing`).
- The documentation speaks of 12 direct blocks and of quanta 1, 2 and 4 with a boost every
  100 ticks; the code has 10 direct blocks, quanta 5, 10 and 20 and a boost every 200.
  The model follows the code. A stride process passes yield's test for a used-up
  allotment, because its level -1 is stored unsigned.

## Model

| member | source | states |
|---|---|---|
| FileSystem.FileSystem.Balloc | xv6-public/fs.c:56-78 | the block returned is the lowest free one; its bit and nothing else of the map changes, it is zeroed, and it and its map block are logged; panics only when every block is used |
| BlockTree.UsedAfterMark | xv6-public/fs.c:56-95 | setting or clearing the bit of one block changes the state of that block only, for all pairs of blocks |
| FileSystem.FileSystem.Bfree | xv6-public/fs.c:81-95 | panics if and only if the block is free; otherwise clears its bit only |
| BlockTree.PathOfFileBlock | xv6-public/fs.c:372-468 | the slot and the entries bmap follows at each level are the path of the file block in the tree, for all block numbers up to the largest file |
| BlockTree.LinkKeepsTree | xv6-public/fs.c:391-398 | linking a zeroed free block into an empty entry keeps all trees of all inodes disjoint and without holes, maps that position and changes no other |
| BlockTree.RootKeepsTree | xv6-public/fs.c:378-389 | the same for an empty slot of an inode |
| BlockTree.UnmappedIsFirst | xv6-public/fs.c:372-468 | with all earlier blocks mapped, a missing node on a block's path means that the block is the first one below that node |
| FileSystem.FileSystem.RootOrAlloc | xv6-public/fs.c:376-389 | a root slot holds a block afterwards: the one it held, or a fresh zeroed one |
| FileSystem.FileSystem.LoadOrAlloc | xv6-public/fs.c:390-398 | one level down the path: the entry's block, or a fresh zeroed one linked there; nothing off the path changes |
| FileSystem.FileSystem.Bmap | xv6-public/fs.c:372-468 | returns the address of the block in the new tree, maps at most its path, keeps disjointness and an exact free map, allocates nothing when the block is mapped |
| BlockViews.BmapMapsOne | xv6-public/fs.c:372-468 | bmap changes the address of no other file block of any inode; a new block was free and is zeroed; repeated, bmap changes nothing |
| BlockViews.LookupInjective | xv6-public/fs.c:372-468 | distinct file blocks, of one inode or of two, are in distinct disk blocks |
| FileSystem.FileSystem.Iupdate | xv6-public/fs.c:220-236 | the record on disk becomes the in-core inode, no other record changes, and its block is logged |
| FileSystem.FileSystem.Readi | xv6-public/fs.c:593-617 | returns the slice of the file's bytes cut off at the end of the file, -1 exactly for a start past the end or a sum that wraps around, and allocates nothing |
| FileSystem.FileSystem.Writei | xv6-public/fs.c:622-652 | a successful write is a splice of the file's bytes, leaves every other file's bytes alone, keeps every block below the size mapped, and keeps the inodes on disk equal to those in core; every block and inode record it changes is logged; refused writes change nothing; panics if and only if fewer blocks are free than the tree nodes its file blocks lack, and maps exactly those nodes otherwise |
| FileSystem.FileSystem.ScanMap | xv6-public/fs.c:64-76 | finds the first clear bit of a map block, so no block before it is free |
| DiskSpace.TooFew | xv6-public/fs.c:372-652 | when balloc runs out in the middle of a write, the blocks free at its start were fewer than the nodes missing on the paths to the file blocks written |
| DiskSpace.FillsRange | xv6-public/fs.c:622-652 | a write that ends has mapped exactly the missing nodes, each to a block that was free |
| DiskSpace.MissingSplits | xv6-public/file.c:128-146 | what the next chunk lacks is what the whole range lacked, less what the chunks before have mapped |
| FileWrites.RoundKeeps | xv6-public/fs.c:634-644 | one round of the write loop extends the part written, whatever pointer blocks it had to allocate |
| FileWrites.WrittenIsSplice | xv6-public/fs.c:634-652 | all rounds and the size update together are one splice, keep the trees, and log only blocks on the paths of the written range |
| FileWrites.WriteGrows | xv6-public/fs.c:622-652 | a write only adds blocks, and only to its own inode |
| FileWrites.SpliceTwice | xv6-public/file.c:128-146 | two adjacent splices are one splice |
| FileSystem.FileSystem.FreeTree | xv6-public/fs.c:485-566 | frees exactly the blocks of one subtree, each once, without reaching the panic of bfree |
| FileSystem.FileSystem.Itrunc | xv6-public/fs.c:475-576 | frees exactly the data and pointer blocks of the inode, leaves other files' bytes and blocks alone, never panics, ends with an empty file on disk and in core, and logs all it changes |
| InodeBlocks.RecordReadsBack | xv6-public/fs.c:220-236 | an inode record packed into its block reads back as it was |
| InodeBlocks.SameRecords | xv6-public/fs.c:227-234 | an inode block depends only on the eight inodes in it |
| Truncation.TruncKeeps | xv6-public/fs.c:475-576 | after a truncation the trees are disjoint, the free map is exact, the file is empty and every other file has its bytes |
| Truncation.TruncUndoesGrowth | xv6-public/fs.c:475-576 | truncating a file that was empty before it grew restores every bit of the free map |
| OpenFiles.OpenFile.WriteChunk | xv6-public/file.c:137-151 | one chunk is one transaction: it allocates at most 6 blocks, logs at most 9 besides their free-map blocks, and logs every block and inode it changes; panics if and only if it lacks blocks |
| OpenFiles.OpenFile.WriteChunks | xv6-public/file.c:128-146 | the chunk loop places the bytes as one splice; after each of its transactions the file system is well formed and a whole number of chunks, or all bytes, is in place |
| OpenFiles.PlacedMost | xv6-public/file.c:128-156 | all bytes are placed if and only if they start within the file and end within the largest one; otherwise the greatest number of whole chunks that does |
| OpenFiles.OpenFile.FileWrite | xv6-public/file.c:118-157 | returns n exactly when all bytes were placed; the file is spliced at the offset, which moves by the bytes placed; other files are unchanged; panics if and only if fewer blocks are free than the bytes it would place lack |
| OpenFiles.OpenFile.PosWrite | xv6-public/file.c:159-192 | as filewrite at a given position, with the offset unchanged; a negative position is refused |
| OpenFiles.OpenFile.FileRead | xv6-public/file.c:96-114 | returns the slice at the offset and moves the offset past it |
| OpenFiles.OpenFile.PosRead | xv6-public/file.c:194-210 | returns the slice at the position; the offset stays |
| LogBudget.ChunkLogs | xv6-public/file.c:128-146 | one chunk allocates at most 6 blocks and logs at most 9 blocks besides the free-map blocks of those |
| LogBudget.ChunkFits | xv6-public/file.c:128-146 | one chunk logs at most MAXOPBLOCKS blocks when its allocations share one block of the free map |
| Journal.HeaderReadsBack | xv6-public/log.c:87-115 | a header block that was written reads back as the list it was written from |
| Journal.StepKeeps | xv6-public/log.c:71-240 | every step, a crash included, keeps the log's invariant, and every step but the header write of a commit keeps what recovery would make of each home block; that one makes it what the cache holds |
| Journal.CommitStep | xv6-public/log.c:199-209 | the header write turns every home block's recovered content into the latest cached one at once, without changing a home block |
| Journal.InstallStep | xv6-public/log.c:71-84 | installing a block at any time of a commit or of a recovery changes no block's recovered content |
| Journal.ClearStep | xv6-public/log.c:103-124 | erasing the header after the last install changes no home block and no recovered content |
| Journal.EvictStep | xv6-public/bio.c:81-93 | recycling a clean buffer keeps every logged content |
| JournalRuns.RunKeepsInv | xv6-public/log.c:71-240 | the invariant holds in every state of every run |
| JournalRuns.NothingWithoutCommit | xv6-public/log.c:117-124 | a run without a commit, however often it crashes and recovers, leaves every home block as it was |
| JournalRuns.EverythingAfterCommit | xv6-public/log.c:117-209 | after a commit's header write, any number of crashes and interrupted recoveries end with every logged block new and every other home block unchanged, and no operation was open |
| JournalRuns.NoEarlyHomeWrite | xv6-public/log.c:179-240 | no home block changes on disk before the commit header is there |
| JournalRuns.LatestContentCommitted | xv6-public/log.c:179-240 | what a block was last logged with stays in its dirty buffer until the commit copies it |
| JournalRuns.ConsistentAfterCrashes | xv6-public/log.c:71-209 | for every property P of the home blocks: if P holds at the start and of the cached blocks each time the last open operation ends, then P holds of what recovery leaves, in every state of every run with any crashes |
| CrashSafety.TransactionLogged | xv6-public/fs.c:220-652 | every home block a transaction of the file system changes, inode blocks included, is among those it has logged |
| CrashSafety.OperationReaches | xv6-public/log.c:220-240 | an operation that has logged all it must, each block last with its new content, takes the cache from one file system state to the next |
| CrashSafety.StoredReadsBack | xv6-public/fs.c:220-236 | the blocks of a stored file system give back its inodes, free map and data |
| CrashSafety.FileSystemSurvives | xv6-public/log.c:71-240 | over every run that carries out the transactions between well-formed file system states one after the other, with crashes anywhere and recoveries interrupted any number of times, recovery leaves the state after the last committed operation; that is the last one ended, or the one before while its commit is under way |
| CrashSafety.WriteSurvives | xv6-public/file.c:118-157 | the same for the states between the chunks of a write: the file has its old contents and a whole number of chunks, or all bytes, in place |
| CrashSafety.FileWriteSurvives | xv6-public/file.c:118-157 | for every call of filewrite that returns: every run that carries its transactions through the log leaves, whenever it crashes, a whole number of chunks or all bytes in place |
| CrashSafety.TruncateSurvives | xv6-public/fs.c:475-576 | for every call of itrunc: every such run leaves, whenever it crashes, either the whole old file or the empty one, and all other files |
| CrashSafety.TransactionCanRun | xv6-public/log.c:127-176 | every transaction whose blocks fit into the log can be carried out from a disk that stores its first state |
| LogSpace.BudgetKept | xv6-public/log.c:127-176 | if each operation adds at most MAXOPBLOCKS blocks, logged blocks plus unspent shares stay within LOGSIZE, logged numbers are distinct, and a commit has no open operation, over every run that keeps to the shares |
| LogSpace.NewBlockPanics | xv6-public/log.c:220-240 | logging a new block within the share panics if and only if the log area has no more than the logged blocks and one; never with LOGSIZE + 1 blocks |
| LogSpace.MkfsAreaPanics | xv6-public/mkfs.c:25 | with the area mkfs reserves the panic comes exactly when all but one entry are taken |
| LogSpace.PanicWithinShare | xv6-public/log.c:220-229 | a run in which every operation keeps to its share and the next log_write panics |
| LogSpace.PanicOnAbsorption | xv6-public/log.c:220-240 | with any larger area, a run after which logging a block again panics |
| Log.Log.constructor | xv6-public/log.c:55-68 | after power-up only the disk counts |
| Log.Log.BeginOp | xv6-public/log.c:127-143 | admits an operation exactly when no commit runs and the log has room for one more full share |
| Log.Log.LogWrite | xv6-public/log.c:220-240 | panics exactly on the two tests of the code; otherwise the block is in the list once, and its buffer is dirty with the new content |
| Log.Log.WriteLog | xv6-public/log.c:179-197 | copies every logged block to its slot; no home block and no cached content changes |
| Log.Log.FillHead | xv6-public/log.c:103-115 | the loop builds the header block of the list |
| Log.Log.WriteHead | xv6-public/log.c:103-115 | as commit: every home block now recovers to its cached content; as clearing: nothing that recovers changes |
| Log.Log.InstallTrans | xv6-public/log.c:71-84 | installs every slot, at a commit and at a recovery, without changing what recovers |
| Log.Log.CommitTx | xv6-public/log.c:199-209 | every home block ends up on disk with what the cache held, and the log is empty |
| Log.Log.EndOp | xv6-public/log.c:147-176 | never panics; the last operation commits all, any other changes no block |
| Log.Log.RecoverFromLog | xv6-public/log.c:87-124 | every home block ends up with its recovered content and the log is empty |
| Log.Log.LosePower | xv6-public/log.c:117-124 | a crash is possible in every state and loses all but the disk |
| BufCache.BufCache.constructor | xv6-public/bio.c:40-58 | the list built holds all buffers, linked both ways |
| BufCache.BufCache.Bget | xv6-public/bio.c:63-95 | finds the block's buffer if there is one; else recycles, of the buffers with no reference that are not dirty, the one released longest ago; panics exactly when every buffer has a reference or is dirty; no block gets two buffers |
| BufCache.BufCache.Fill | xv6-public/bio.c:98-108 | reads the block in exactly if the buffer is not valid |
| BufCache.BufCache.Bwrite | xv6-public/bio.c:111-118 | panics exactly without the lock or for a block that is not on the disk; otherwise writes the data to that block only, and unlocked valid clean buffers still equal the disk |
| BufCache.BufCache.Lock | xv6-public/bio.c:70-75 | the holder of the lock finds what is on the disk in a valid clean buffer |
| BufCache.BufCache.MarkDirty | xv6-public/log.c:220-240 | marks the buffer, which bget then does not recycle (see Bget) |
| BufCache.BufCache.Unlock | xv6-public/bio.c:122-128 | panics if and only if the buffer is not locked; the cache stays right if and only if the holder wrote back or marked dirty what it changed |
| BufCache.BufCache.Put | xv6-public/bio.c:130-143 | the last reference moves the buffer to the front of the list, which keeps all buffers and stays ordered by release |
| BufCache.Oldest | xv6-public/bio.c:81-93 | the first eligible buffer from the back is the one whose last release is oldest |
| BufCache.DirtyStep | xv6-public/bio.c:63-143 | no call but a write of it takes a dirty buffer from its block, and its holder alone changes its data |
| BufCache.DirtySurvives | xv6-public/bio.c:78-84 | over any sequence of calls by any processes a dirty buffer stands for the same block until it is written, with the same content unless its holder changes it |
| BufCache.LoggedIsWritten | xv6-public/bio.c:110-118 | so the content a buffer had when it was logged is what its write puts on the disk, in its block only |
| Rings.Unlink | xv6-public/bio.c:134-136 | taking a buffer out keeps the doubly linked ring of the others |
| Rings.LinkFront | xv6-public/bio.c:137-140 | putting one in behind the head keeps the ring |
| Umalloc.Heap.Free | xv6-public/umalloc.c:24-44 | the block leaves the allocated ones and its units are in a free block; the list stays one address-ordered cycle with no two free blocks adjacent; the search ends |
| FreeList.FreeKeeps | xv6-public/umalloc.c:33-43 | linking and merging with either neighbour, or both, keeps the partition of the units, the order and the gaps |
| FreeList.Disjoint | xv6-public/umalloc.c:24-90 | two blocks of a well-formed heap do not overlap |
| FreeList.BaseReaches | xv6-public/umalloc.c:24-44 | following the links from base reaches every free block |
| FreeList.LeadsToBase | xv6-public/umalloc.c:24-44 | following the links from any free block returns to base: one cycle |
| FreeList.TakeTail | xv6-public/umalloc.c:77-80 | cutting the tail off a free block keeps the heap well formed |
| FreeList.TakeWhole | xv6-public/umalloc.c:75-76 | unlinking a block that fits exactly keeps the heap well formed |
| FreeList.GrowKeeps | xv6-public/umalloc.c:46-61 | memory from sbrk, also beyond a gap, joins the heap as one allocated block |
| FreeList.InteriorWrite | xv6-public/umalloc.c:24-90 | a program that writes behind the headers of its own blocks cannot damage the heap |
| Umalloc.Heap.Morecore | xv6-public/umalloc.c:46-61 | fails if and only if sbrk is refused or its argument is not positive, and then changes nothing; otherwise exactly the units granted join the heap and some free block has at least the units asked for |
| Umalloc.Heap.Malloc | xv6-public/umalloc.c:63-90 | the block returned was not allocated and has exactly the units computed; if a free block is large enough it is the end of the first such block behind freep; otherwise the heap grows by exactly what sbrk grants; null if and only if nothing fits and sbrk refuses; the search loop ends |
| Umalloc.BigEnough | xv6-public/umalloc.c:69 | the units computed hold the request if and only if it is at most 2^32 - 8 |
| Umalloc.TooSmall | xv6-public/umalloc.c:69 | the smallest request that fails this gets one unit |
| Umalloc.SbrkArgRight | xv6-public/umalloc.c:46-61 | the argument of sbrk is the size meant if and only if the units are fewer than 2^28 |
| Vm.Vm.constructor | xv6-public/kalloc.c:46-53 | exactly the whole pages between the two addresses are free, each once |
| Vm.Vm.Kalloc | xv6-public/kalloc.c:82-95 | takes the first free frame; 0 exactly when there is none |
| Vm.Vm.Kfree | xv6-public/kalloc.c:59-77 | panics exactly on a misaligned address and on one below the pool or above memory; otherwise puts the frame back once and fills it; the pool is conserved |
| Vm.Vm.FreeFrame | xv6-public/kalloc.c:59-77 | the same for a frame in use |
| Vm.Vm.Walkpgdir | xv6-public/vm.c:35-55 | finds or makes the page table, which takes a frame exactly if it was missing; no mapping of any address space changes; 0 if and only if it is missing and not to be made or there is no frame |
| Vm.Vm.MapPage | xv6-public/vm.c:60-80 | panics if and only if the page is mapped, fails if and only if its table is missing and there is no frame; otherwise that one entry changes |
| Vm.Vm.Mappages | xv6-public/vm.c:60-80 | maps the range page by page and takes a frame for each missing table; fails only if there are fewer frames than missing tables, with a shorter prefix mapped |
| Vm.Vm.Deallocuvm | xv6-public/vm.c:255-279 | despite its jumps over missing tables, unmaps and frees exactly the present pages of the range and nothing else |
| PageTables.SkipTable | xv6-public/vm.c:264-266 | a jump over a missing page table passes no mapped page |
| Vm.Vm.Allocuvm | xv6-public/vm.c:221-249 | over an unmapped range succeeds if and only if there are as many free frames as pages and missing tables, and then maps each page to a zeroed frame of its own; a failure restores the address space if and only if the range was unmapped; other address spaces are unchanged |
| Vm.Vm.Undo | xv6-public/vm.c:233-246 | unmaps and frees what has been mapped of the range; the address space is as before if and only if the range was unmapped |
| FrameCounts.TableCount | xv6-public/vm.c:35-55 | mapping one more page needs a table exactly if that is the first use of one that was missing |
| FrameCounts.FewTables | xv6-public/vm.c:221-249 | a range never lacks more tables than it spans |
| Vm.PageLost | xv6-public/vm.c:221-249 | without free memory, growing over a mapped page fails and loses it |
| Vm.Vm.Freevm | xv6-public/vm.c:283-298 | gives back every user page, page table and the directory, each once, and nothing else |
| Vm.Vm.Setupkvm | xv6-public/vm.c:118-136 | the new address space has exactly the kernel mappings; fails if and only if there are fewer than 65 free frames, and then gives back all that was taken |
| AddressSpaces.KernelAhead | xv6-public/vm.c:105-115 | the kernel mappings do not overlap |
| AddressSpaces.KernelBits | xv6-public/vm.c:105-115 | bit by bit: kernel text is not writable, the rest of the kernel part is, and none of it is open to user programs |
| FrameCounts.MappedAll | xv6-public/vm.c:105-115 | the kernel mappings use exactly 64 page tables, wherever the kernel's data begins |
| Vm.Vm.CopyPage | xv6-public/vm.c:325-338 | one page is copied to a frame of its own with the same flags, for one frame or two; fails only with fewer, and then nothing is kept |
| Vm.Vm.Copyuvm | xv6-public/vm.c:315-345 | the copy has equal contents and flags in frames that were free; the original is unchanged; with all pages present it fails if and only if there are fewer free frames than directory, tables and pages, and then gives back all that was taken; does not panic if all pages are present, and does not succeed if one is absent |
| AddressSpaces.CopyFresh | xv6-public/vm.c:315-345 | no frame of the copy was in use before |
| PageTables.SetPteOnly | xv6-public/vm.c:60-80 | writing one entry changes the mapping of one page of one directory, in all address spaces |
| Scheduler.Scheduler.constructor | xv6-public/proc.c:95-110 | the initial state satisfies the invariant |
| Scheduler.Scheduler.MlfqRm | xv6-public/proc.c:39-44 | lowers the level's counter and the total; a level outside 0 to 2 lowers only the total |
| Scheduler.Scheduler.MlfqAdd | xv6-public/proc.c:48-54 | the same upwards |
| Procs.CountersChange | xv6-public/proc.c:39-54 | counters adjusted by a process's old and new contribution count the changed table |
| Scheduler.Scheduler.Allocproc | xv6-public/proc.c:157-221 | takes the first unused slot; none exactly when there is none |
| Scheduler.Scheduler.Ready | xv6-public/proc.c:327-336 | a new process becomes runnable and is counted at its level |
| Scheduler.Scheduler.Wakeup1 | xv6-public/proc.c:813-828 | wakes exactly the processes that sleep on the channel; counters stay right |
| Scheduler.Scheduler.Kill | xv6-public/proc.c:842-867 | marks the first slot with the pid and wakes it if it sleeps; counters stay right |
| Scheduler.Scheduler.Sleep | xv6-public/proc.c:751-795 | the current process sleeps and is no longer counted |
| Scheduler.Scheduler.Striderm | xv6-public/proc.c:56-85 | takes the process out of the list, which stays one acyclic list; share, stride and pass follow |
| Scheduler.Scheduler.Exit | xv6-public/proc.c:344-397 | children pass to init, parent and init wake up as needed, the process leaves the MLFQ or the stride queue; counters stay right |
| Scheduler.Scheduler.Reap | xv6-public/proc.c:417-430 | frees a zombie; no counter changes |
| Scheduler.Scheduler.Lowerlevel | xv6-public/proc.c:604-625 | moves the process one level down; counters stay right; nothing for levels 0 and -1 |
| Scheduler.Scheduler.Priboost | xv6-public/proc.c:589-602 | moves every runnable process of the MLFQ to level 2; counters stay right |
| Scheduler.Scheduler.Yield | xv6-public/proc.c:660-726 | tick, lowering, boost, charging of the pass and the decision to call sched, with all invariants kept |
| Scheduler.Scheduler.SetCpuShare | xv6-public/proc.c:915-979 | moves the process to the stride queue or updates its share; rejects what does not fit; keeps the invariant if and only if the sum does not overflow |
| Scheduler.Scheduler.PickStride | xv6-public/proc.c:469-496 | the loop over the list computes the stride pick |
| Scheduler.Scheduler.PickMlfq | xv6-public/proc.c:498-531 | the 64-slot loop computes the pick of the circular search and the next position |
| Scheduler.Scheduler.Schedule | xv6-public/proc.c:460-549 | one round of the scheduler, which Fairness characterises, with all invariants kept |
| SchedSteps.StepKeeps | xv6-public/proc.c:157-979 | every step keeps table, queue, shares and CPU invariants |
| SchedSteps.StrideQueueSafe | xv6-public/proc.c:56-93 | in every state of every run from boot on the queue has no process twice, holds exactly the stride processes, their shares are within the reserved sum, that within 80, the divisor is at least 20, and an empty queue has pass 0 |
| SchedSteps.SharedKeeps | xv6-public/proc.c:915-979 | set_cpu_share keeps the invariant if and only if the sum of shares does not overflow |
| SchedSteps.OverflowAccepted | xv6-public/proc.c:915-979 | a request that overflows is accepted and makes the sum negative |
| SchedLaws.SleepThenWakeup | xv6-public/proc.c:751-828 | after a sleep and a wakeup of its channel the process can run as before; exactly the sleepers on that channel wake |
| SchedLaws.SleepsUntilWoken | xv6-public/proc.c:751-867 | in every run a process sleeps until a wakeup of its channel, its own kill or the exit of the process it waits for, and no longer |
| SchedLaws.ExitedAt | xv6-public/proc.c:368-397 | an exit makes the process a zombie, passes its children to init, wakes its parent, and init if a child is a zombie, and changes no other state |
| SchedLaws.KillReaches | xv6-public/proc.c:842-867 | a killed process is marked and does not sleep; no other process changes |
| SchedLaws.SlotFreed | xv6-public/proc.c:417-430 | a reaped or given up slot is unused and no other process changes |
| SchedLaws.StartsAtTop | xv6-public/proc.c:157-336 | a new process is runnable at level 2 with quantum 5 and allotment 20, outside the queue, with a pid of its own |
| SchedLaws.Demotion | xv6-public/proc.c:604-726 | without a boost, a yield takes a process that has used up its allotment one level down, with that level's quantum, and calls sched; another keeps its level, and the CPU unless its ticks are a multiple of the quantum |
| SchedLaws.BoostRaises | xv6-public/proc.c:589-692 | a yield 200 ticks after the last boost or later takes every runnable process of the MLFQ to level 2 with a whole allotment, and no other process |
| SchedLaws.ShareGranted | xv6-public/proc.c:915-979 | a positive request whose sum is at most 80 is granted, with the strides that follow from the shares; no other process changes |
| SchedLaws.ShareRefused | xv6-public/proc.c:915-926 | a request that is not positive or takes the sum above 80 changes nothing |
| SchedLaws.ShareReturned | xv6-public/proc.c:56-85 | an exit gives back the share asked for last; a process that was new to the queue leaves it as it was |
| SchedLaws.SecondShareLeaks | xv6-public/proc.c:961-962 | the reserved sum stays the sum of the shares if and only if the process had none before |
| StrideQueue.UnlinkLinks | xv6-public/proc.c:56-75 | unlinking any member keeps the list of the others |
| StrideQueue.PushLinks | xv6-public/proc.c:87-93 | adding in front keeps the list |
| Procs.TopLevelIsHighest | xv6-public/proc.c:498-504 | with right counters the level chosen is the highest that has a process, and the total is positive exactly if there is one |
| Picking.ScanTableFindsFirst | xv6-public/proc.c:506-527 | the circular search finds the nearest eligible slot, and nothing only if no slot within reach is eligible; the next search starts behind what it went over |
| Picking.ScanQueueFindsLeast | xv6-public/proc.c:471-496 | the search of the queue finds a runnable process of least pass within the bound, and nothing only if there is none |
| Picking.ScanQueueFindsLast | xv6-public/proc.c:471-496 | of equal passes the one furthest back in the queue is found |
| Fairness.MlfqServesTopLevel | xv6-public/proc.c:498-549 | unless a stride process gets the CPU, a process of the MLFQ gets it exactly if there is one; it was runnable, at the highest level that has one, no slot nearer to the search position is runnable there, and the next search starts behind it |
| Fairness.NoSlotSkipped | xv6-public/proc.c:506-549 | in every run, between two rounds that give one slot the CPU, every other slot that stayed runnable at the top level has had it |
| Fairness.LeastPassServed | xv6-public/proc.c:469-496 | a stride process gets the CPU exactly if one that can run is not behind the MLFQ or the head of the queue; it has the least pass of all that can run, and those behind it in the queue have more |
| Fairness.RoundStarts | xv6-public/proc.c:460-549 | a round changes the state of the process it puts on the CPU, which was runnable, and nothing else but the search position |
| Fairness.IdleExactly | xv6-public/proc.c:469-549 | the CPU stays idle if and only if the MLFQ has no process and every stride process that can run is behind the head of the queue |
| Fairness.IdleDespiteWork | xv6-public/proc.c:477-483 | a state in which a process can run and every round leaves the CPU idle |
| Fairness.TurnsDecrease | xv6-public/proc.c:660-726 | every yield that does not call sched brings the next call of sched nearer, also when a boost falls into it or the tick count wraps around |
| Fairness.LeadBounded | xv6-public/proc.c:469-726 | over every run with fixed clients that always want the CPU, no client's pass leads another's by more than initially or than one turn (5 or 20 yields) times its stride |
| Fairness.WrapBreaksBound | xv6-public/proc.c:695-704 | a yield whose pass wraps around breaks that bound, unless the initial lead was almost the whole 32-bit range |
| ThreadRing.ThreadGroup.UpdateNext | xv6-public/proc.c:1026-1068 | ends with the first thread in cyclic order that can run, the old one last, or null exactly when none can |
| ThreadRing.ThreadGroup.ThreadCreate | xv6-public/lwp.c:133-148 | the new thread is in the list behind the next one, the count is the length; the null pointer is followed exactly with other threads and no next one |
| ThreadRing.ThreadGroup.Switch | xv6-public/proc.c:627-657 | runs the thread chosen before, whatever its state, and chooses the next as update_next_t does |
| ThreadRing.NullPointerReached | xv6-public/lwp.c:133-148 | a sequence of calls after which thread_create follows the null pointer |
| ThreadRing.InsertChain | xv6-public/proc.c:1070-1078 | inserting behind any thread keeps the list |
| ThreadRing.ThreadGroup.RmThread | xv6-public/proc.c:1080-1102 | removes the thread from the list; next stays as it was or, if it was that thread, becomes the first after it that can run |
| ThreadRing.ThreadGroup.ThreadExit | xv6-public/lwp.c:163-173 | the count is the list's length again if and only if it is not the main thread that exits; next is chosen as by rm_thread; a main thread waiting for it can run again |
| RwLock.StepKeeps | xv6-public/rwlock.c:18-56 | every enabled step of any thread keeps the counting invariant |
| RwLock.Exclusion | xv6-public/rwlock.c:18-56 | in every state of every run with any number of threads, while a thread that asked for the write lock holds it, no other thread, whatever it asked for, holds the lock |
| RwLock.Alone | xv6-public/rwlock.c:18-56 | the same also from the step that takes the write lock to the step that gives it back |
| RwLock.RequestKept | xv6-public/rwlock.c:18-56 | what a thread asked for is recorded until it asks again, and no step of another thread changes it |
| RwLock.WriterGets | xv6-public/rwlock.c:43-56 | two steps take a writer to the free lock, and two more leave it free |
| RwLock.ReadersShare | xv6-public/rwlock.c:18-31 | a run from the initial state leads to all of any number of threads holding the read lock |
| RwLock.StepProgress | xv6-public/rwlock.c:18-56 | every step of a thread inside brings it nearer to being outside and moves no other thread |
| RwLock.ValuesSmall | xv6-public/semaphore.c:18-38 | both semaphores have value 0 or 1 in every state of every run |
| RwLock.SomeoneProceeds | xv6-public/rwlock.c:18-56 | whenever a thread is inside or waiting, one inside or waiting has an enabled step |
| RwLock.InitialInv | xv6-public/rwlock.c:9-16 | the initialised lock satisfies the invariant |
| Pipes.RingIndex | xv6-public/pipe.c:93 | the ring index does not depend on the wrap-around of the counter |
| Pipes.CountersCompare | xv6-public/pipe.c:85-114 | the tests for empty and full on wrapped counters are those on the true ones |
| Pipes.Pipe.Put | xv6-public/pipe.c:93 | appends one byte; the unread bytes are the ring's contents |
| Pipes.Pipe.Take | xv6-public/pipe.c:116 | returns the oldest unread byte; what has been read is a prefix of what has been written |
| Pipes.Pipe.Write | xv6-public/pipe.c:78-98 | appends the bytes in order, stops early only at a full pipe, and then fails exactly if the read end is closed or the writer killed; returns the count asked for, also when it is not positive |
| Pipes.Pipe.Read | xv6-public/pipe.c:100-121 | returns the next unread bytes, as many as there are up to n; waits exactly for an empty pipe with an open write end; 0 for a positive n only when empty and closed |
| Pipes.Pipe.Close | xv6-public/pipe.c:59-75 | closes one end; the pipe is freed exactly when both are closed |
| Regex.MatchHere | xv6-public/grep.c:85-96 | true exactly when the text has a beginning that can be cut into pieces fitting the pattern's items, all of the text before a final $ |
| Regex.MatchStar | xv6-public/grep.c:99-106 | true exactly when some number of fitting characters can be skipped so that the rest matches |
| Regex.Match | xv6-public/grep.c:72-82 | true exactly when the pattern matches at the start after ^, or anywhere without it |
| Regex.HereStar | xv6-public/grep.c:99-106 | the meaning of a star, both directions |
| Regex.HereOne | xv6-public/grep.c:85-96 | the meaning of a single character, both directions |

## Left out

- Hardware and boot code, the IDE driver, interrupts and context switches: a switch is "this process now has the CPU"; the disk is a sequence of blocks.
- Spinlocks: a region under a lock is one atomic step; lock order and memory order are not modelled. The error returns of `set_cpu_share` keep its locks held, which the model does not show.
- Directories, paths, `ialloc`, reference counts of inodes and files, device inodes, `exec`, `mkfs` as an image builder, the console, the shell, user programs other than `grep` and `malloc`: plumbing around the cores; a well-formed disk image is the initial state.
- CrashSafety.FileSystemSurvives: operations that overlap in time; `JournalRuns.ConsistentAfterCrashes` covers them for every property that holds whenever no operation is open.
- FileSystem.FileSystem.Readi: the branch for device inodes.
- FileSystem.FileSystem.Writei: the branch for device inodes.
- FileSystem.FileSystem.Iupdate: the record is an element of a sequence; `InodeBlocks` packs it into its block, with type, device numbers and link count as zero words.
- InodeBlocks.RecordReadsBack: type, device numbers and link count are zero words.
- OpenFiles.OpenFile.FileWrite: the pipe branch; `Pipes` models the pipe itself.
- OpenFiles.OpenFile.PosWrite: the pipe branch.
- OpenFiles.OpenFile.FileRead: the pipe branch.
- OpenFiles.OpenFile.PosRead: the pipe branch.
- FileSystem.FileSystem.FreeTree: the three nested loops of `itrunc` are one recursion over the height, because they differ only in depth.
- Journal.StepKeeps: the number of buffers is not limited there; `BufCache` models the limit and the panic when all are in use.
- Log.Log.BeginOp: one turn of the waiting loop; sleeping until the next wake-up is a later call.
- LogBudget.ChunkFits: with allocations spread over several free-map blocks a chunk can log more than MAXOPBLOCKS blocks; `ChunkLogs` bounds that case.
- Umalloc.Heap.Malloc: a heap after sbrk with an argument that is not positive (`Corrupt`) is not followed further.
- Umalloc.Heap.Morecore: likewise.
- Vm.Vm.Kfree: freeing a page that is free or mapped, which the code does not detect; the links inside free pages are a sequence.
- Vm.Vm.Mappages: ranges below KERNBASE, which the code maps one page at a time through `MapPage`.
- Vm.Vm.Deallocuvm: old sizes above KERNBASE, which no caller passes.
- Processor caches of translations (`switchuvm`, `lcr3`), `inituvm`, `loaduvm`, `clearpteu`, `copyout`: not modelled.
- SchedSteps.StepKeeps: runs have one CPU, no threads and no semaphores, because `wakeup_one` and `thread_create` do not keep the counters; process numbers do not wrap around; `chan` is not cleared on wake-up, and only the channel of a sleeping process is ever read.
- Fairness.LeadBounded: time is counted in yields, since a process that yields without calling sched stays RUNNABLE and timer interrupts no longer make it yield.
- Liveness of the stride scheduler with an empty MLFQ: the bound is then the pass of the head even if the head sleeps, so only minimality of what is picked is stated.
- ThreadRing.ThreadGroup.ThreadCreate: user stacks, kernel stacks and thread numbers; `next_t` is one pointer per group, not an array indexed by pid; threads are created by the main thread.
- `thread_join`, `exit`, `exec` and `fork` of a process with threads.
- RwLock.SomeoneProceeds: sleeping and `wakeup_one` inside the semaphores; a wait is "value positive, then decrement" in one step.
- Pipes.Pipe.Write: the model's histories of bytes are ghost; which sleeping process a wake-up reaches is not modelled.
- `grep()`'s line buffering: only the matcher is modelled; strings have no null character.
