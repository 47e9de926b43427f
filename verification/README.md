# A verified model of xv6 (CS333 variant)

This project models the kernel and a few user programs of an xv6 derivative built with
`CS333_PROJECT=5`, and proves properties of the model for all inputs, all runs and all
interleavings. To verify it with Dafny 4.11: `dafny verify dfyconfig.toml`.

Each part has the shape of the code it models. C code that updates memory in place becomes a class
whose methods have the loops and pointer assignments of the original; each method is proved
against functions and relations on values, and the theorems are about those. Protocols that
several processes take part in become machines, one step per critical section or per block write,
and the methods are proved to take the steps of the machine.

## What is modelled, and the main results

**The write-ahead log and the buffer cache** (`LogFormat`, `LogMachine`, `LogGuard`, `LruCache`,
`LogCode`; log.c, bio.c). The machine interleaves operations, readers, commits and crashes at every
single block write. `CrashAtomicity`: whatever the run and wherever it stops, recovery yields the
contents at the last header write, when no operation was in progress. `OpAtomic` and `OldOrNew`: of
each operation all of it or nothing. `ReadsAreCurrent`: eviction and commit are invisible to
readers. `GroupCommit` and `ReservationsHold`: the protocol of begin_op, log_write and end_op. The
LRU ring with its `next` and `prev` pointers, which is in the order of last release (`RingByUse`,
`VictimOldest`), and the log code with its loops are proved to take only
steps of the machine, so `CrashAnywhere` holds of the code at every disk image it ever produces.

**Files** (`Bitmap`, `InodeSpec`, `InodeLog`, `InodeCode`, `FileWrite`; fs.c, file.c). Block
ownership over a bitmap of real bytes and indirect blocks of little-endian words; `Writei` and
`Readi` refine a flat byte sequence and leave all other files alone; `Itrunc` frees exactly the
blocks of the file; a file never has holes, so reading never allocates, and the inode on disk agrees
with the cached one after every write. `Writei` also says which disk blocks its log_write calls name
and that nothing else changes; `WriteCount` counts them, and `Filewrite` says when its operations
keep to their reservations.

**Crashes under the file system** (`CrashFiles`). The two layers together: `WriteAtomic` says that a
crash anywhere in a writei that is one operation, or in the commit after it, leaves every file as it
was, or the file written with the new bytes in place and all others as they were.

**Directories and link counts** (`DirCode`, `LinkCounts`; fs.c, sysfile.c). Directories are finite
maps from names cut at DIRSIZ bytes, stored through readi and writei. A step of link, unlink, create
or mkdir keeps link counts equal to the entries that name the inode, and the tree a tree, if and
only if the directory it writes is still linked (`StepExact`, `RunExact`).

**Processes** (`StateLists`, `ProcSpec`, `ProcRuns`, `ProcEffects`, `ProcKin`, `ProcHistory`,
`ProcFair`, `ProcTable`; proc.c). Twelve linked lists with head and tail pointers refine sequences;
`ProcEffects` says of each step which record changes, how, and where on which list it goes. In every
run each slot is on one list and the list agrees with its state (`AgreementExact` says exactly when);
no process is orphaned and every line of parents ends at init (`NoOrphans`); a process that fell
asleep in wait() and sleeps still never has a zombie to collect (`NoLostWakeup`), and a child's exit
makes it ready (`ExitEndsWait`); everyone who exits is reaped or a zombie still, and no pid is reaped
twice (`ZombiesCount`, `ReapedOnce`); a process goes down a level exactly when the ticks between its
dispatches and its stops since it last had a full budget exceed that budget, modulo 2^32
(`BudgetExact`); a ready process is dispatched within 2 * NPROC scheduler
passes on one CPU (`SoloDispatch`), and within (MAXPRIO + 1) * NPROC passes of one scheduler
whatever the other CPUs do (`BoundedDispatch`).

**Memory** (`KrAllocator`; umalloc.c. `VmSpec`, `VmCode`, `VmRuns`, `Growproc`; vm.c, kalloc.c,
proc.c). The K&R allocator: the free list is the only sorted list for its set of free units, free and
live blocks tile the arena, the searches end within one cycle, and no header ever lies in a page that
is not mapped. Address spaces: setupkvm, allocuvm and copyuvm succeed exactly if there are pages
enough, counted with the tables they open; copyuvm gives equal contents in frames of its own; a run
of calls that frees every space it set up gives every page back; and as long as no page is lost every
space has exactly the pages below its size, so nothing is skipped and nothing panics (`RunExactly`,
`RunNeverPanics`). `Growproc` ties the two: growproc is the sbrk that malloc is proved against.

**User programs** (`Regex`; grep.c. `ShellSpec`, `ShellText`, `ShellCode`; sh.c) **and pipes** (`Pipe`, `PipeSleep`; pipe.c).
The matcher decides a language defined apart from it, and a pattern is read as its printed form says
(`ItemsExact`, `FoundExact`). A line is read as some tokens if and only if it is a spacing of them
(`LexExact`). Printing a command, spacing it in any way and parsing the text rebuilds the command, or
the text is refused (`RoundTrip`); a command has the words and symbols of its line, each as often as
it was typed (`ParseTakesAll`); and the buffer after nulterminate spells exactly its words. Pipes deliver a prefix of what was stored across the wrap of the 32-bit counters; with one
reader and one writer no one sleeps without cause.

## Where the code does not do what it seems to promise

Each has a member whose contract says when the promise holds and what happens otherwise.

- `LogGuard.GuardExact`: begin_op reserves against LOGSIZE, log_write panics at log.size - 1. With
  every operation within its reservation the panic is unreachable if and only if the log has more
  than LOGSIZE blocks or the disk has too few others to fill it; mkfs makes the log LOGSIZE blocks.
- `FileWrite.WriteCount`, `FileWrite.ChunkOverruns`, `FileWrite.SafeExact`, `FileWrite.Filewrite`:
  filewrite sizes its pieces by LOGSIZE, not by what an operation reserves. Every full piece
  overruns the reservation; a write keeps within it wherever it falls if and only if it has at most
  3073 bytes. `LogGuard.OverrunPanics`: then another operation, within its own, can panic.
- `ProcRuns.WakesAllExact`: the list version of wakeup1 wakes only the first sleeper, although the
  comment on wakeup says all; it wakes all if and only if there is at most one.
- `ProcKin.AgreementExact`, `ProcKin.AgreementFails`: when there is no page for a kernel stack, allocproc tests the
  misspelt macro CS33_P3P4 and sets the state without moving the slot off the embryo list.
- `KrAllocator.RequestExact`, `KrAllocator.Allocator.Malloc`: malloc counts bytes in 32 bits, sbrk
  takes an int, and sbrk can succeed with the last page unmapped. Where malloc puts a block is known
  before the call. It is memory that is there, with room, if and only if the request is at most
  2^31 - 16 bytes and no page of that place is missing; malloc faults exactly if the page of a header
  it writes is missing. `KrAllocator.HugeRequests` and `KrAllocator.FirstByteFaults` have such
  requests; `KrAllocator.ClearExact`: with no page missing before, a request that makes the heap grow
  is served exactly if allocuvm found every page.
- `LinkCounts.StepExact`, `LinkCounts.RunExact`, `LinkCounts.OrphanWrite`: link, unlink, create and
  mkdir do not check that the directory has not been removed meanwhile; if it has, link counts or
  the tree are wrong afterwards.
- `ProcTable.Ptable.SetPriority`: setPriority never changes the priority of a ready process, and
  for such a process, or for a priority out of range, it returns without releasing the lock.
- `VmCode.Memory.AddPage`, `VmCode.Memory.AllocUvm`: when the one free page is needed twice, for a
  page and for its table, that page is lost. If it was for the last page asked for, allocuvm
  returns the new size although the page is not mapped; `AllocUvm` says exactly when.
- `VmCode.Memory.CopyUvm`, `VmCode.Memory.ShortFork`: copyuvm panics exactly if it reaches such a
  hole before it runs out of pages, and a short allocuvm followed by a fork does. copyuvm also drops
  what setupkvm had built when it fails half-way.
- `VmCode.SkipExact`, `VmRuns.SkipRun`, `VmRuns.RemapRun`: the jump of deallocuvm over a missing
  table goes 4MB on, not to the next table. In runs without lost pages it skips nothing
  (`VmRuns.RunExactly`). With lost pages it can: from boot there is a run at whose end deallocuvm has
  left a page mapped above the size it returned, and growing again then panics in mappages.
- `ShellText.LinePlain`: `>>` is a token of its own, but a line means the same with `>` in its place.
- `PipeSleep.StepExact`, `PipeSleep.ReaderExact`, `PipeSleep.CloseStrands`: as wakeup wakes one
  sleeper, a second reader asleep on an empty pipe stays asleep for good when the write end is closed.
  Sleep stays justified exactly if the wakeup finds at most one sleeper to wake; a writer killed on
  the full pipe makes no wakeup at all.

## Model

| member | source | states |
|---|---|---|
| `LogFormat.HeadRoundTrip` | log.c:84-112 | a header read back is the header written, whatever the block held before |
| `LogFormat.InstallAt` | log.c:68-81 | installing puts log block i at its home block and touches nothing else |
| `LogMachine.HeaderCommits` | log.c:97-112 | the header write is the commit point: it turns the current contents into the durable ones |
| `LogMachine.InstallKeeps` | log.c:68-81 | copying one log block home does not change what recovery yields |
| `LogMachine.ClearKeeps` | log.c:189-199 | erasing the header once all blocks are home does not change what recovery yields |
| `LogMachine.StepKeeps` | log.c:123-230 | every step of every party keeps the invariant and is a step of the specification |
| `LogMachine.RunRefines` | log.c:123-230 | every run refines the machine of stable and current contents, crashes included |
| `LogMachine.CrashAtomicity` | log.c:68-121 | from any point of any run recovery yields the home blocks as they were at the last header write, when no operation was in progress |
| `LogMachine.OpAtomic` | log.c:123-171 | the moment recovered is never inside an operation: all of it survives or nothing |
| `LogMachine.QuietIsStable` | log.c:123-171 | with no operation open and no commit under way everything current is stable and on the disk |
| `LogMachine.OldOrNew` | log.c:68-171 | a crash in or after an operation that runs alone yields the contents before it, or it has ended and all it has written |
| `LogMachine.ReadsAreCurrent` | bio.c:58-141 | outside recovery cached data, else disk, is the current contents: eviction and commit are invisible |
| `LogMachine.GroupCommit` | log.c:123-230 | commits run alone, logged blocks are distinct, pinned and at most LOGSIZE, outstanding counts the open operations, end_op cannot panic |
| `LogMachine.ReservationsHold` | log.c:123-140 | as long as operations log no more blocks than reserved, the log and what is left of all reservations fit in LOGSIZE, and log_write can panic only at log.size - 1 |
| `LogGuard.PanicReachable` | log.c:210-216 | with a log of at most LOGSIZE blocks and blocks to fill it some run within all reservations reaches the panic |
| `LogGuard.GuardExact` | log.c:123-140 | with operations within their reservations the panic in log_write is unreachable if and only if the log has more than LOGSIZE blocks or the disk too few others to fill it |
| `LogGuard.SpentIsAdded` | log.c:210-230 | an operation spends one reserved block for each block it adds to the log, absorbed ones are free |
| `LogGuard.FewBlocksSuffice` | log.c:123-140 | log_write calls on at most MAXOPBLOCKS different blocks stay within the reservation |
| `LogGuard.OverrunExact` | log.c:123-140 | an operation alone in the log overruns its reservation iff it logs more than MAXOPBLOCKS different blocks |
| `LogGuard.OverrunPanics` | log.c:210-216 | given blocks to fill the log one operation that overruns brings another, which has logged nothing, to the panic, however large the log is |
| `LruCache.UnlinkRing` | bio.c:122-141 | the two assignments that unlink a buffer leave the ring of the others |
| `LruCache.LinkRing` | bio.c:39-56 | the four assignments that link a buffer in put it behind the head |
| `LruCache.ToFrontComplete` | bio.c:122-141 | releasing keeps the ring a permutation of all buffers |
| `LruCache.RingByUse` | bio.c:122-141 | after any releases, from any ring, no buffer stands behind one released longer ago |
| `LruCache.VictimOldest` | bio.c:79-93 | no buffer that could be recycled was released longer ago than the one bget takes |
| `LruCache.CoupledRecycle` | bio.c:79-93 | recycling an idle clean buffer is an eviction and a get: no block is cached twice |
| `LruCache.CoupledHit` | bio.c:67-78 | taking a cached idle buffer is a get without eviction |
| `LruCache.BufferCache.constructor` | bio.c:39-56 | binit links all buffers into one ring, all unused |
| `LruCache.BufferCache.FindCached` | bio.c:67-78 | the forward scan finds the buffer of the block if there is one |
| `LruCache.BufferCache.FindVictim` | bio.c:79-93 | the backward scan finds the least recently used buffer neither busy nor dirty |
| `LruCache.BufferCache.Bget` | bio.c:61-95 | bget marks the cached buffer, recycles the right victim, sleeps or panics, in exactly these cases |
| `LruCache.BufferCache.Iderw` | ide.c:129-162 | writes a dirty buffer, else fills it from disk |
| `LruCache.BufferCache.Bread` | bio.c:98-108 | bread takes the steps of the machine and evicts only clean unheld blocks |
| `LruCache.BufferCache.Bwrite` | bio.c:111-118 | bwrite puts the cached data on disk and clears the dirty flag |
| `LruCache.BufferCache.Brelse` | bio.c:122-141 | brelse moves the buffer to the front of the ring and frees it |
| `LogCode.SomeRecyclable` | log.c:173-187 | with the log's pins and the buffers in hand some buffer can still be recycled, so commit never runs out |
| `LogCode.WriteAheadLog.constructor` | log.c:52-65 | initlog before recovery: nothing cached, the header unread |
| `LogCode.WriteAheadLog.LoadHead` | log.c:84-95 | read_head loads exactly the entries on disk |
| `LogCode.WriteAheadLog.CopyToLog` | log.c:173-187 | write_log copies each logged block from the cache, by steps of the machine |
| `LogCode.WriteAheadLog.InstallFromLog` | log.c:68-81 | install_trans copies each log block home, by steps of the machine |
| `LogCode.WriteAheadLog.CommitHead` | log.c:97-112 | write_head makes the current contents stable in one block write |
| `LogCode.WriteAheadLog.ClearHead` | log.c:189-199 | write_head with no entries erases the transaction |
| `LogCode.WriteAheadLog.Commit` | log.c:189-199 | commit makes current contents stable if anything was logged and leaves the log empty |
| `LogCode.WriteAheadLog.Recover` | log.c:114-121 | recovery ends with an empty log and the stable contents it started from |
| `LogCode.WriteAheadLog.BeginOp` | log.c:123-140 | begin_op admits an operation exactly when no commit runs and the reservations fit |
| `LogCode.WriteAheadLog.LogWriteBlock` | log.c:210-230 | log_write panics in exactly the three cases, absorbs a logged block, else appends and pins it and spends a reserved block |
| `LogCode.WriteAheadLog.EndOp` | log.c:142-171 | the last operation out commits, and then all home blocks on disk are current; the panic is unreachable |
| `LogCode.WriteAheadLog.OpRead` | bio.c:98-108 | bread by an operation leaves all contents as they are |
| `LogCode.WriteAheadLog.OpModify` | log.c:201-208 | changing a held buffer is the machine's modification |
| `LogCode.WriteAheadLog.OpRelease` | bio.c:122-141 | brelse by an operation leaves all contents as they are |
| `LogCode.WriteAheadLog.CrashAnywhere` | log.c:68-121 | every disk image the code has produced recovers to the contents at the last header write before it |
| `Bitmap.MarkSet` | fs.c:61-70 | setting the mask in its byte sets one bit of the bitmap and no other |
| `Bitmap.MarkClear` | fs.c:84-92 | clearing the mask clears one bit and no other |
| `InodeSpec.WordPut` | fs.c:381-392 | an entry written into an indirect block is read back, the other entries stay |
| `InodeSpec.NoSharing` | fs.c:53-93 | no block serves two places in files, data blocks are no metadata and have their bit set |
| `InodeSpec.LinkDirect` | fs.c:374-378 | allocating a direct block keeps ownership, and no file reads differently |
| `InodeSpec.LinkIndex` | fs.c:381-384 | allocating the indirect block keeps ownership, and no file reads differently |
| `InodeSpec.LinkWord` | fs.c:385-391 | allocating through the indirect block keeps ownership, and no file reads differently |
| `InodeSpec.StoreOk` | fs.c:495-501 | writing into a data block changes one range of one file |
| `InodeSpec.DropDirect` | fs.c:409-414 | freeing a direct block drops that block from the owners and leaves other files alone |
| `InodeSpec.FreeNext` | fs.c:416-422 | each listed block is marked when its turn comes, so bfree does not panic |
| `InodeSpec.DropIndex` | fs.c:416-426 | freeing the indirect block after its entries drops exactly those blocks |
| `InodeCode.FileSystem.constructor` | mkfs.c:244-258 | an image with the metadata blocks marked and nothing else |
| `InodeCode.FileSystem.Balloc` | fs.c:50-75 | the lowest free block, marked and zeroed; panics exactly when all are in use |
| `InodeCode.FileSystem.Bfree` | fs.c:77-93 | clears the bit; panics exactly when it is clear |
| `InodeCode.FileSystem.Iupdate` | fs.c:197-221 | the inode on disk becomes the cached one |
| `InodeCode.FileSystem.Bmap` | fs.c:366-396 | the block's address, allocated if missing; no file reads differently; panics only out of range or full |
| `InodeCode.FileSystem.WriteChunk` | fs.c:495-501 | one turn of writei writes one range of one file |
| `InodeCode.FileSystem.Writei` | fs.c:478-509 | the file becomes the old text overlaid at off, or -1 in exactly the refused cases; other files stay, no holes, disk inode agrees; the blocks logged are those of WriteLog and nothing changes outside them |
| `InodeCode.FileSystem.Readi` | fs.c:451-476 | the matching slice of the text, nothing allocated, -1 in exactly the refused cases |
| `InodeCode.FileSystem.Itrunc` | fs.c:398-431 | the file is empty, exactly its data and indirect blocks are freed, other files stay |
| `InodeCode.StaysTidy` | fs.c:478-509 | after writei every file has no holes and its inode on disk is the cached one |
| `InodeCode.ReadChunk` | fs.c:469-474 | a piece of the block is the matching piece of the file |
| `InodeCode.OverlayRead` | fs.c:451-509 | what was written is read back, the rest is as before |
| `InodeLog.StoreLogs` | fs.c:366-396 | a turn of writei logs its data block and, if that is new, the bitmap block and the indirect block |
| `InodeLog.LogsNext` | fs.c:495-501 | the blocks logged by the turns of writei add up to those of the whole range |
| `FileWrite.FilesCount` | fs.c:495-501 | the data blocks of a range are as many different blocks |
| `FileWrite.WriteCount` | fs.c:478-509 | writei logs at least the data, indirect, bitmap and inode blocks of Cost, and exactly as many if the bitmap is one block |
| `FileWrite.ChunkOverruns` | file.c:126-137 | a full piece of filewrite costs more than MAXOPBLOCKS blocks wherever it starts and however long the file is |
| `FileWrite.SafeExact` | file.c:126-137 | n bytes fit in one reservation at every offset of every file if and only if n is at most 3073 |
| `FileWrite.OverlayTwice` | file.c:134-151 | a write and a second one where it ends are one write |
| `FileWrite.WriteOp` | file.c:139-144 | writei as one operation: its result, the new text and how many blocks are logged |
| `FileWrite.Filewrite` | file.c:114-154 | the pieces together are one write of what fits below the largest file, all bytes or -1; all operations keep to their reservations exactly if KeepsWithin says so |
| `CrashFiles.ImageDecodes` | fs.h:57-83 | an image of a file system reads back as its bitmap, inodes and file blocks |
| `CrashFiles.ImageContents` | fs.h:57-83 | every file reads the same in the image as in the file system it is of |
| `CrashFiles.CarriesAll` | log.c:201-208 | writing the logged blocks is enough: the disk then is an image of the new file system |
| `CrashFiles.FilesOldOrNew` | log.c:68-171 | after a crash in or after an operation every file is old, or the operation has ended and every file is new |
| `CrashFiles.WriteAtomic` | fs.c:478-509 | after a crash in a writei or its commit every file is old, or the one written has the new bytes and all others are old |
| `DirCode.EntryBack` | fs.c:568-570 | an entry written is the entry read, its name cut at DIRSIZ bytes |
| `DirCode.SameName` | string.c:58-66 | strncmp over DIRSIZ bytes finds a name of any length equal to an entry iff the entry has the name cut at DIRSIZ |
| `DirCode.CopyName` | string.c:68-79 | strncpy fills the entry with the first DIRSIZ bytes of the name and NULs |
| `DirCode.NamesExact` | fs.c:512-575 | linked under one name an inode is found under another iff their first DIRSIZ bytes agree |
| `DirCode.EntryOverlay` | fs.c:548-575 | writing sixteen bytes at an entry's place replaces that entry or adds one at the end |
| `DirCode.PutIsUpdate` | fs.c:548-575 | dirlink of an absent name is a map update and keeps names unique |
| `DirCode.ClearIsRemove` | sysfile.c:211-213 | zeroing the entry removes that name and no other |
| `DirCode.DirLookup` | fs.c:519-545 | finds the first live entry of the name as cut at DIRSIZ, or none |
| `DirCode.DirLink` | fs.c:547-575 | -1 exactly when the cut name is there, else that name in the first free slot; other files stay |
| `DirCode.DirClear` | sysfile.c:211-213 | unlink's write cannot fail and clears one entry |
| `DirCode.IsDirEmpty` | sysfile.c:164-178 | true exactly when no entry after the dots is in use |
| `LinkCounts.UnlinkSafe` | sysfile.c:204-205 | the panic on a link count below one is unreachable |
| `LinkCounts.EmptyCount` | sysfile.c:206-209 | an empty directory named in a linked one has link count one and that directory as its parent, and is not the root |
| `LinkCounts.StepGood` | sysfile.c:114-287 | every step in a linked directory keeps counts equal to entries plus links under way, and the tree |
| `LinkCounts.RunGood` | sysfile.c:114-287 | so does every interleaving of such steps, rolled-back links included |
| `LinkCounts.MkfsGood` | mkfs.c:134-143 | the tree with the root alone is good |
| `LinkCounts.CreateExact` | sysfile.c:237-287 | a created file's count is right if and only if the directory is still linked |
| `LinkCounts.StepExact` | sysfile.c:114-287 | from a good tree every step leads to a good tree if and only if the directory it writes is still linked |
| `LinkCounts.RunExact` | sysfile.c:114-287 | a run keeps counts and tree right throughout if and only if it writes linked directories only |
| `LinkCounts.OrphanWrite` | sysfile.c:237-287 | from every good tree with a linked directory and two free inodes a run removes a directory, writes into it and leaves a count wrong |
| `LinkCounts.LinkMeans` | sysfile.c:114-162 | link gives the directory the name for the file and the file one more link; no other name or count changes |
| `LinkCounts.UnlinkMeans` | sysfile.c:180-235 | unlink takes the name from the directory and a link from its inode, and from the directory too if the inode is one; no other name or count changes |
| `LinkCounts.CreateMeans` | sysfile.c:237-287 | create makes an inode with one link under the name; a directory has its dots and adds a link to its parent; no other name or count changes |
| `LinkCounts.LinkUnlink` | sysfile.c:114-235 | unlink of a name just linked leaves every name and every count as before |
| `LinkCounts.InodeTable.Link` | sysfile.c:114-162 | 0 exactly for a non-directory and an absent name; a failure rolls everything back; counts and tree stay right iff it fails or the directory is still linked |
| `LinkCounts.InodeTable.Unlink` | sysfile.c:180-235 | removes the name, or -1 in exactly the refused cases, or panics exactly on a count below one, which a linked directory rules out; counts stay right iff the directory is still linked |
| `LinkCounts.InodeTable.Ialloc` | fs.c:173-195 | the lowest free inode, or a panic exactly when there is none |
| `LinkCounts.InodeTable.Create` | sysfile.c:237-287 | an existing file for a file, 0 for any other taken name, else a new inode with dots and parent count; panics exactly when one is needed and none is free; counts and tree stay right iff nothing is made or the directory is still linked |
| `StateLists.RemoveMembers` | proc.c:1134-1186 | removal takes away exactly that process, and nothing is listed twice |
| `StateLists.ListTable.constructor` | proc.c:1188-1205 | all lists start empty |
| `StateLists.ListTable.Add` | proc.c:1107-1119 | appends at the tail, with all pointers of all lists right |
| `StateLists.ListTable.AddAtHead` | proc.c:1121-1132 | puts the process first, with all pointers right |
| `StateLists.ListTable.Search` | proc.c:1154-1167 | finds the process and its predecessor if and only if it is on the list |
| `StateLists.ListTable.RemoveFrom` | proc.c:1134-1186 | 0 if and only if the process was on the list, which then is the list without it |
| `StateLists.ListTable.JoinTop` | proc.c:1306-1319 | level 1 is linked behind level 0 in every empty and non-empty combination |
| `StateLists.ListTable.MoveUp` | proc.c:1321-1331 | every lower level moves up one, the bottom empties |
| `ProcSpec.ChargeExact` | proc.c:1359-1385 | the ticks used, modulo 2^32, come off the budget; when they exceed it the process goes down a level, if there is one, with a full budget, unless the 32-bit difference wraps, which then is the budget; no other field changes |
| `ProcSpec.PromotedAt` | proc.c:1306-1331 | promoteAll is an order-preserving shift: new level 0 is 0 then 1, new i is old i+1 |
| `ProcSpec.PromotedKeeps` | proc.c:1288-1357 | promoteAll loses and duplicates no process and restores priority == level |
| `ProcSpec.Next` | proc.c:71-981 | every step keeps each slot on exactly one list, once: the one for its state, or the embryo list for a slot lost to a failed kernel stack |
| `ProcRuns.WakeupEffect` | proc.c:864-886 | wakeup1 moves the first sleeper on the channel to the end of its level, and no one else |
| `ProcRuns.WakesAllExact` | proc.c:889-896 | it wakes all sleepers if and only if there is at most one |
| `ProcRuns.KillEffect` | proc.c:923-981 | kill marks at most one process and wakes it if it sleeps |
| `ProcRuns.AdoptingEffect` | proc.c:405-437 | exit gives every child that wait could see to init and wakes only sleepers |
| `ProcRuns.StepFamily` | proc.c:255-585 | every step keeps: the living and the dead have living parents, embryos belong to one fork |
| `ProcEffects.DispatchEffect` | proc.c:645-705 | the head of the level becomes running with the time noted, at the head of the running list; nothing else changes |
| `ProcEffects.YieldEffect` | proc.c:744-772 | the process is charged for its slice and goes to the end of the level it then is on; nothing else changes |
| `ProcEffects.SleepEffect` | proc.c:798-848 | the process is charged, sleeps on that channel and goes to the end of the sleep list; nothing else changes |
| `ProcEffects.SleepThenWake` | proc.c:798-886 | whoever goes to sleep with no one else on the channel is the one a wakeup on it makes ready |
| `ProcEffects.ReapEffect` | proc.c:531-546 | the first zombie child on the list is wiped and goes to the end of the free list, its pid is the result, and nothing else changes |
| `ProcEffects.WaitElse` | proc.c:572-583 | without a zombie child wait changes nothing or puts the caller to sleep on itself |
| `ProcEffects.PromoteEffect` | proc.c:1288-1357 | the ready, running and sleeping go up one level with a full budget, the levels shift in order, and nothing else changes |
| `ProcEffects.PrioEffect` | proc.c:1387-1448 | the process has the priority given and a full budget; nothing else changes |
| `ProcEffects.AllocEffect` | proc.c:71-107 | the head of the free list gets the next pid and goes to the head of the embryo list; nothing else changes |
| `ProcEffects.PublishEffect` | proc.c:311-333 | the child of this fork becomes ready, last on level 0 with a full budget; nothing else changes |
| `ProcEffects.ForkFailEffect` | proc.c:266-286 | the slot is unused and first on the free list again; nothing else changes |
| `ProcKin.StepPids` | proc.c:71-107 | every step keeps pids unique and growing from parent to child |
| `ProcKin.ExitWakesParent` | proc.c:405-406 | a parent asleep in wait is awake after exit |
| `ProcKin.ExitWakesInit` | proc.c:430-437 | init is awake after adopting a zombie |
| `ProcKin.WaitExact` | proc.c:507-585 | wait reaps exactly when there is a zombie child, gives up exactly without children or when killed, and else sleeps |
| `ProcKin.StepWaits` | proc.c:383-585 | every step keeps: whoever sleeps in wait has a child and no zombie |
| `ProcKin.NoOrphans` | proc.c:255-585 | in every run every process has a living parent and its line of parents ends at init |
| `ProcKin.NoLostWakeup` | proc.c:383-585 | in every run a process that went to sleep in wait and sleeps still has a child, no zombie child, and is not killed |
| `ProcKin.ExitEndsWait` | proc.c:405-406 | in every run the exit of a child makes a parent that sleeps in wait ready |
| `ProcKin.PidsUnique` | proc.c:104-106 | in every run no two slots in use share a pid |
| `ProcKin.AgreementExact` | proc.c:109-133 | lists agree with p->state at the end of a run iff no kernel-stack allocation failed in it |
| `ProcKin.AgreementFails` | proc.c:109-133 | three steps after boot the disagreement can be there |
| `ProcHistory.ExitExact` | proc.c:383-459 | the process is a zombie, last on that list; its children, dead or alive, are init's; of those in wait exactly its parent is made ready, and init if it inherits a zombie; all else stays |
| `ProcHistory.KillExact` | proc.c:923-981 | kill of a pid in use marks that process, makes it ready at the end of its level if it slept, and changes nothing else |
| `ProcHistory.KillMisses` | proc.c:923-981 | kill of a pid no one living has changes nothing |
| `ProcHistory.ReapedOnce` | proc.c:507-585 | in every run no pid is reaped twice |
| `ProcHistory.ZombiesCount` | proc.c:383-585 | over every run those reaped and the zombies left are as many as exits and the zombies before |
| `ProcHistory.BudgetExact` | proc.c:645-848 | over every run budget and level are what the times of dispatching and stopping make them: down a level exactly when the ticks since the last full budget, modulo 2^32, exceed MAXBUDG |
| `ProcHistory.BootIs` | proc.c:169-230 | after userinit init is ready on level 0, its own parent, with pid 1 and a full budget, and every other slot is free |
| `ProcFair.StepRank` | proc.c:645-715 | no step other than its own dispatch pushes a ready process back |
| `ProcFair.BoundedDispatch` | proc.c:645-715 | whatever other CPUs do a ready process is dispatched within Rank + 1 rounds of one scheduler, and Rank is below (MAXPRIO + 1) * NPROC |
| `ProcFair.SoloDispatch` | proc.c:645-715 | with one CPU it is dispatched within Place + 1 passes, and Place is below 2 * NPROC |
| `ProcTable.Ptable.constructor` | proc.c:169-230 | after userinit: init ready at level 0, its own parent, all other slots free |
| `ProcTable.Ptable.Transition` | proc.c:89-102 | remove, set state, add: the removal and assertState panics are unreachable |
| `ProcTable.Ptable.Find` | proc.c:528-530 | a walk along the pointers finds the first match on the list |
| `ProcTable.Ptable.Wakeup1` | proc.c:864-886 | the pointer loop does what the machine's wakeup does, once |
| `ProcTable.Ptable.Exit` | proc.c:383-459 | exit from the lock on is the machine's exit step |
| `ProcTable.Ptable.HaveKids` | proc.c:543-571 | the list walks find a child outside the free and zombie lists if and only if there is one |
| `ProcTable.Ptable.Wait` | proc.c:507-585 | one turn of wait is the machine's wait step, with its result |
| `ProcTable.Ptable.Sleep` | proc.c:798-848 | sleep is the machine's sleep step, budget charged |
| `ProcTable.Ptable.Yield` | proc.c:744-772 | yield is the machine's yield step, budget charged |
| `ProcTable.Ptable.Dispatch` | proc.c:660-705 | the scheduler's loop body dispatches the head of the level, from the list of its own priority |
| `ProcTable.Ptable.Kill` | proc.c:923-981 | 0 if and only if a process with the pid is on a list other than the free and zombie ones; the state is that of the machine's kill |
| `ProcTable.Ptable.TakeSlot` | proc.c:71-107 | allocproc takes the head of the free list, or reports that it is empty |
| `ProcTable.Ptable.StackFailed` | proc.c:109-133 | the faulty branch: state UNUSED, still on the embryo list |
| `ProcTable.Ptable.StackReady` | proc.c:161-164 | the embryo gets a full budget and the top priority: the machine's step |
| `ProcTable.Ptable.ForkFailed` | proc.c:266-286 | the slot goes back to the head of the free list |
| `ProcTable.Ptable.NameParent` | proc.c:289-290 | the embryo gets the forking process as its parent: the machine's step |
| `ProcTable.Ptable.ForkDone` | proc.c:311-333 | the child becomes ready at level 0 and its pid is returned |
| `ProcTable.Ptable.Promotes` | proc.c:1288-1357 | pointer work and loops together are the machine's promotion |
| `ProcTable.Ptable.SetPriority` | proc.c:1387-1448 | a ready process is left alone, a running or sleeping one takes the priority; the lock stays held exactly for a ready process and for a priority out of range |
| `ProcTable.Ptable.AssertPriority` | proc.c:1477-1499 | the assertPriority panic is unreachable |
| `KrAllocator.InsertSorted` | umalloc.c:24-44 | free keeps the list strictly ordered with no two touching blocks |
| `KrAllocator.InsertUnits` | umalloc.c:24-44 | free adds exactly the block's units to the free ones |
| `KrAllocator.Canonical` | umalloc.c:24-44 | the free list is the only sorted list without touching blocks for its set of free units |
| `KrAllocator.TakenUnits` | umalloc.c:74-87 | malloc takes exactly the block's units from the free ones |
| `KrAllocator.TakeThenFree` | umalloc.c:24-90 | freeing a block right after it was cut off gives back the very same list |
| `KrAllocator.FoundIs` | umalloc.c:74-89 | the block malloc finds is the first large enough behind the one last used, going round |
| `KrAllocator.FreesCommute` | umalloc.c:24-44 | two blocks freed in either order leave the same list |
| `KrAllocator.LinkInsert` | umalloc.c:32-43 | the pointer assignments of all four cases of free build the list with the block in it |
| `KrAllocator.FreeSound` | umalloc.c:24-44 | free keeps free and live blocks apart and tiling the arena |
| `KrAllocator.TakeSound` | umalloc.c:74-87 | so does handing a block out |
| `KrAllocator.GrowSound` | umalloc.c:46-61 | so does new memory from sbrk |
| `KrAllocator.RequestExact` | umalloc.c:46-69 | up to 2^31 - 16 bytes the units have room and sbrk is asked for them; beyond, the rounding wraps or sbrk is asked for nothing or less |
| `KrAllocator.HugeRequests` | sysproc.c:45-57 | for 2^31 and for 2^32 - 8 bytes sbrk succeeds and grants nothing; 2^32 - 1 bytes are rounded to one unit |
| `KrAllocator.TooSmall` | umalloc.c:74-87 | no block in granted memory fits a request of half the address space |
| `KrAllocator.LastPageLost` | umalloc.c:46-87 | if sbrk succeeds with its last page missing the block cut from the new memory touches that page |
| `KrAllocator.ClearExact` | umalloc.c:46-87 | with no page missing before, a block cut from new memory is whole iff allocuvm found every page |
| `KrAllocator.LastPageFault` | umalloc.c:74-87 | and with its last page missing, malloc faults iff the whole block lies in that page |
| `KrAllocator.FirstByteFaults` | umalloc.c:80-82 | one byte on an empty heap that starts seven pages below a table's end, with the table's page missing: sbrk succeeds and the header goes into the missing page |
| `KrAllocator.GrownFit` | umalloc.c:74-89 | after morecore the block found is the one with the new memory at its end |
| `KrAllocator.GrownHeaded` | umalloc.c:46-61 | new memory puts no header in a missing page and takes no page with a header away |
| `KrAllocator.Allocator.FindSlot` | umalloc.c:29-31 | the search of free ends within one cycle at the block's place |
| `KrAllocator.Allocator.Free` | umalloc.c:24-44 | the block leaves the live ones and joins the list at its place, and freep stands on the block before it |
| `KrAllocator.Allocator.FindFit` | umalloc.c:74-89 | one cycle finds the next block large enough behind the one last used, if and only if there is one |
| `KrAllocator.Allocator.Morecore` | umalloc.c:46-61 | the region at the old break becomes free as far as the code can tell, nothing changes if sbrk fails, a fault exactly if the page of the old break is not there |
| `KrAllocator.Allocator.Malloc` | umalloc.c:63-90 | 0 exactly if none fits and sbrk fails; else the block at the place known before, or a fault exactly if a header's page is missing; the block has room and is all there iff the request is at most 2^31 - 16 bytes and touches no missing page; headers stay in pages that are there; the list left is the old one, grown if need be, less the block, and freep stands before the place it was cut from |
| `VmSpec.NoSharing` | vm.c:45-90 | two places in address spaces never share a frame |
| `VmSpec.Conservation` | kalloc.c:54-94 | the free pages are determined by the pages in use |
| `VmSpec.NewTable` | vm.c:45-65 | walkpgdir adds a blank table; no space sees anything different |
| `VmSpec.NewFrame` | vm.c:70-90 | mapping adds one page to one space, with the given contents and flags |
| `VmSpec.CostCounts` | vm.c:45-90 | what mapping a range costs is its pages and the tables missing in it |
| `VmSpec.DropFrame` | vm.c:262-271 | unmapping frees the frame and takes one page from one space |
| `VmSpec.DropSpace` | vm.c:277-292 | freeing directory and tables removes the space and leaves the others alone |
| `VmCode.Memory.constructor` | kalloc.c:45-52 | freerange puts every page above the kernel on the list once |
| `VmCode.Memory.Kalloc` | kalloc.c:78-94 | the head of the list, 0 exactly if it is empty |
| `VmCode.Memory.WalkAlloc` | vm.c:42-65 | succeeds exactly if the table is there or a page is free; no page is seen differently in any space |
| `VmCode.Memory.MapUser` | vm.c:67-90 | the page in hand becomes page v and all else stays; fails exactly when the table is missing and no page is free; panics exactly if page v is already mapped |
| `VmCode.Memory.AddPage` | vm.c:233-240 | out of memory exactly without a free page, short exactly with one free page and no table, and then that page and nothing else is lost; a panic exactly with a free page and page v already mapped |
| `VmCode.Memory.SetupKvm` | vm.c:127-144 | a space with exactly the kernel's mappings, in pages of its own, exactly if there are pages enough |
| `VmCode.Memory.AllocUvm` | vm.c:218-243 | a panic exactly if the pages last to one already mapped; else with pages enough zeroed pages up to the new size; with one too few at the start of a missing table the new size and the last page unmapped; else 0 and the pages in between gone; a page is lost in exactly the cases of Loses |
| `VmCode.Memory.DeallocUvm` | vm.c:245-273 | exactly the pages between the sizes that are not jumped over are unmapped and freed, as many as Held counts, in any space |
| `VmCode.SkipExact` | vm.c:259-262 | nothing stays mapped iff nothing was mapped in what the 4MB jumps skip, as when the new size is at a table's start or its table is there |
| `VmCode.Memory.FreeVm` | vm.c:275-292 | exactly the pages of the space become free, no other space changes |
| `VmCode.Memory.CopyUvm` | vm.c:307-337 | equal contents and flags below sz in frames of its own exactly if there is no hole and pages enough; a panic exactly if pages last to the first hole; else 0 with every space as it was and exactly the pages in `lost` gone |
| `VmCode.Memory.ShortFork` | vm.c:218-337 | a short allocuvm, a page freed elsewhere and a fork end in copyuvm's panic |
| `VmCode.RunKeeps` | vm.c:127-337 | in a run of calls what was in use stays, and what is new belongs to a space that is open |
| `VmCode.RunRestores` | vm.c:127-337 | any run of setupkvm, allocuvm, deallocuvm, copyuvm and freevm that frees every space it set up gives every page back |
| `VmRuns.CallExactly` | vm.c:127-337 | every call that loses no page keeps: each space has exactly the pages below its size |
| `VmRuns.RunExactly` | vm.c:127-337 | in every run that loses no page each space has exactly the pages below its size; deallocuvm skips none |
| `VmRuns.RunNeverPanics` | vm.c:79-320 | at no point of such a run would mappages panic on a mapped page or copyuvm on a missing one |
| `VmRuns.SkipRun` | vm.c:218-273 | a run from boot after which deallocuvm has left a page mapped above the size it returned |
| `VmRuns.RemapRun` | vm.c:79-80 | and growing again from there ends in the panic of mappages |
| `Growproc.Growproc` | proc.c:234-250 | growproc does what sbrk is taken to do, down to the pages that are missing afterwards, by the pages free before |
| `Growproc.ShortHeap` | vm.c:218-243 | with eight free pages and one table allocuvm from page 1017 to 1025 loses the last page |
| `Pipe.SlotExact` | pipe.c:75-118 | a free-running counter finds its slot across the wrap iff the ring size divides the word size |
| `Pipe.PipeBuffer.FullEmpty` | pipe.c:81-84 | the tests on wrapped counters tell full and empty exactly |
| `Pipe.PipeBuffer.Write` | pipe.c:75-95 | stores a prefix of the bytes in order; sleeps or fails only when full |
| `Pipe.PipeBuffer.Read` | pipe.c:97-118 | delivers the next bytes in order, as many as there are up to n; sleeps only when empty and open |
| `Pipe.PipeBuffer.Close` | pipe.c:57-73 | the page is freed exactly when both ends are closed |
| `PipeSleep.ReadStep` | pipe.c:97-118 | piperead takes the machine's step, and sleeps iff the machine puts it to sleep |
| `PipeSleep.WriteStep` | pipe.c:75-95 | pipewrite takes the machine's step, and sleeps iff the machine puts it to sleep |
| `PipeSleep.CloseStep` | pipe.c:57-73 | pipeclose takes the machine's step |
| `PipeSleep.StepExact` | pipe.c:57-118 | a step leaves only sleepers with something to sleep for iff its wakeup finds at most one sleeper to wake, or none where a killed writer makes no wakeup |
| `PipeSleep.OneEachGood` | pipe.c:57-118 | with one reader and one writer, in every run, a sleeping reader has an empty open pipe and a sleeping writer a full one |
| `PipeSleep.ReaderExact` | pipe.c:97-118 | some run without kill wakes a sleeping reader iff the write end is open |
| `PipeSleep.WriterExact` | pipe.c:75-95 | some run without kill wakes a writer asleep on a full pipe iff the read end is open |
| `PipeSleep.CloseStrands` | pipe.c:57-63 | closing the write end leaves every sleeping reader but the first asleep for good |
| `Regex.HereOne` | grep.c:93-94 | a literal or dot in front consumes one fitting character |
| `Regex.HereStar` | grep.c:98-106 | a starred character in front consumes any number of fitting characters |
| `Regex.MatchHere` | grep.c:84-96 | true if and only if a prefix of the text is in the pattern's language |
| `Regex.MatchStar` | grep.c:98-106 | true if and only if some number of fitting characters can be skipped first |
| `Regex.Match` | grep.c:72-82 | true if and only if the pattern is found, anchored or anywhere |
| `Regex.ItemsExact` | grep.c:84-106 | a string is read as a pattern if and only if it is the pattern printed with no plain character before a star and no plain dollar at the end |
| `Regex.LangItem` | grep.c:93-106 | a letter stands for itself, a dot for any one character, a starred letter for any number of it, a starred dot for anything |
| `Regex.LangConcat` | grep.c:84-106 | the words of a list of items are words of the first followed by words of the rest |
| `Regex.FoundExact` | grep.c:72-91 | a pattern is found anywhere, behind a caret at the start only, and before a dollar up to the end only |
| `ShellSpec.ExecBack` | sh.c:514-545 | a printed simple command or block parses back, whatever may follow it |
| `ShellSpec.LineBack` | sh.c:443-458 | a printed line parses back, whatever may follow it |
| `ShellText.CharKinds` | sh.c:361-362 | the blanks are space, tab, return, newline and vertical tab, the symbols are < | > & ; ( ), and words are made of all the rest |
| `ShellText.LexBack` | sh.c:364-407 | tokens with any blanks before, between and after them, at least one only where two tokens would run together, are the tokens read |
| `ShellText.LexExact` | sh.c:364-407 | a line is read as some tokens if and only if it is such a spacing of them |
| `ShellText.LexBetween` | sh.c:371-404 | two pieces of a line with any nonempty string of blanks between are read as the tokens of the one, then of the other |
| `ShellText.LineEnds` | sh.c:426-441 | blanks at either end of a line, such as the newline that ends it, do not change what it is parsed as |
| `ShellText.LinePlain` | sh.c:481-493 | a line means the same with > in place of every >> |
| `ShellText.RoundTrip` | sh.c:426-545 | however a printed command is spaced, parsing rebuilds it if no exec node has more than nine words, and otherwise refuses the text |
| `ShellText.ParseTakesAll` | sh.c:426-545 | a command parsed has the words and symbols of its line, each as often, and nothing else; parentheses balance and no exec node has more than nine words |
| `ShellText.RedirText` | sh.c:481-493 | in text < names the input, > and >> the output |
| `ShellText.InfixText` | sh.c:443-471 | in text | makes a pipeline and ; a list |
| `ShellText.GroupText` | sh.c:443-512 | in text & sends to the background what is before it and parentheses hold a line together |
| `ShellCode.GetToken` | sh.c:364-407 | the next token of the line and where its word lies |
| `ShellCode.Peek` | sh.c:409-419 | whether the next token is one of the given symbols |
| `ShellCode.ParseRedirs` | sh.c:473-496 | agrees with the grammar on the tokens ahead |
| `ShellCode.ParseArgs` | sh.c:528-544 | agrees with the grammar on the tokens ahead, too many words refused |
| `ShellCode.ParseExec` | sh.c:498-545 | agrees with the grammar on the tokens ahead |
| `ShellCode.ParsePipe` | sh.c:460-471 | agrees with the grammar on the tokens ahead |
| `ShellCode.ParseLine` | sh.c:443-458 | agrees with the grammar on the tokens ahead |
| `ShellCode.ParseCmd` | sh.c:426-441 | accepts exactly the lines that are one command |
| `ShellCode.NulTerminate` | sh.c:547-592 | a NUL at the end of every word and nowhere else |
| `ShellCode.WordReads` | sh.c:547-592 | no word's end lies inside another word, so each reads as itself |
| `ShellCode.ParseCommand` | sh.c:426-441 | the pointers of the command, read in the buffer it leaves, spell what the grammar says |

## Left out

- `LogCode.WriteAheadLog.EndOp`: asks that no buffer is held when it commits, because bread would sleep on one that is; `LogMachine` has the interleaving with readers.
- `LogCode.WriteAheadLog.Commit`: asks the same, and a log no larger than the buffer cache, as param.h and mkfs.c make it.
- `LogCode.WriteAheadLog.Recover`: asks the same; it runs at boot, before any other user of the disk.
- `LruCache.BufferCache.Iderw`: models the stated contract of iderw, not the device queue.
- `InodeCode.FileSystem.Writei`: leaves out device inodes; after a panic it says that the disk is full, that no block has two owners and that only logged blocks changed, not how far it got.
- `CrashFiles.WriteAtomic`: takes the operation's writes to the machine as those of the blocks that writei logs, with the contents it gives them, and no other operation open beside it; unlink and create are not composed this way.
- `FileWrite.Filewrite`: leaves out pipes and files not open for writing, and takes the length as not negative; on disks with more than one bitmap block, which mkfs.c with the FSSIZE of param.h does not make, it says that keeping within the reservations implies KeepsWithin, not the converse.
- `InodeCode.FileSystem.Readi`: leaves out device inodes.
- `InodeCode.FileSystem.Balloc`: addresses the bitmap as one array of bytes rather than block by block.
- `LinkCounts.InodeTable.Unlink`: device inodes are not told apart from files.
- `LinkCounts.InodeTable.Create`: device inodes are not told apart from files, and a directory that can take no more entries is left to `DirCode.DirLink`.
- `DirCode.DirLookup`: asks for a directory, where the code panics, made of whole entries; so do DirLink, DirClear and IsDirEmpty.
- `ProcTable.Ptable.Wait`: is one turn of the loop, since other processes run while it sleeps.
- `ProcSpec.Next`: process ids grow without bound; the wrap of the 32-bit nextpid is left out.
- `KrAllocator.Allocator.Malloc`: asks that the break is a multiple of 8, which a program's own sbrk(1) would undo; takes allocuvm's outcome without its panic in mappages; beyond 2^31 - 16 bytes, where sbrk may shrink the process, a page that deallocuvm's jump leaves mapped above the size counts as gone, and the heap afterwards is no longer described.
- `KrAllocator.Allocator.Morecore`: asks the same of the break.
- `VmCode.Memory.AllocUvm`: counts the pages free at its start; kmem.lock is held per kalloc and kfree only, so that another CPU can take or free pages half-way is left out.
- `VmCode.Memory.CopyUvm`: counts the same way, and so does SetupKvm.
- `VmRuns.RunExactly`: a process that gives all its memory back keeps its size in proc->sz, as growproc then fails; the run takes the size as 0.
- `Growproc.Growproc`: asks that nothing is mapped at or above the size; switchuvm is left out.
- `VmCode.Memory.SetupKvm`: takes the four ranges of kmap as one list of distinct pages.
- `Pipe.PipeBuffer.Write`: leaves out the wakeups, which `PipeSleep` has.
- `PipeSleep.OneEachGood`: takes a writer that is not killed while it writes; a killed one returns from a full pipe without a wakeup, and its exit closes the end.
- Reference counts and locks of cached inodes (iget, ilock, iput) and path walking (skipelem, namex).
- Spinlocks, interrupts, sched and swtch: a critical section is one step.
- exec, system-call argument checks, users, groups and mode bits.
- Devices, console, boot code and all assembly.
- User programs other than the matcher, the shell's parser and malloc; runcmd and the shell's builtins.
- getPriority, procdump and the listing functions of the control keys.
