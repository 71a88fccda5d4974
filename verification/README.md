# A crash-safe teaching file system, verified

A Dafny model of the file system of an xv6-style teaching kernel, from single disk blocks up to paths and open files, of
the scheduler and the disk queue below it, and of the concurrency exercises that come with it. The code is C; most of it
changes shared state in place, so most of the model is classes and methods with loops, each proved against a
specification on values, and lemmas about those specifications.

## The file system

The layers follow the C files. Every layer hides the one below it behind a small abstract view, and states its
operations on that view.

| layer | modules | abstract view |
|---|---|---|
| redo log on disk (`log.c`) | `RedoLog`, `LogState` | a disk, the block writes performed so far, and what replaying the log would yield after any prefix of them |
| buffer cache (`bio.c`) | `CacheState`, `BufferCache` | `Face`: the contents every reader sees, which blocks are pinned, which buffers are held |
| transactions (`log.c`) | `Log` | the blocks of the running transaction, and the contents at every transaction boundary so far |
| blocks and inodes (`fs.c`) | `Collections`, `FsFormat`, `FsState`, `FsSteps`, `FsSpec`, `FsIo`, `FsAlloc`, `FsMap`, `FsInodeSteps`, `FsInodes` | `Abs`: every inode, the list of blocks of every file, who owns which block |
| file contents (`fs.c`) | `FsContent`, `FsFile`, `FsLogCount` | one flat byte sequence per file |
| directories and paths (`fs.c`, `string.c`) | `Strings`, `DirFormat`, `Tree`, `FsTree`, `FsDirs`, `PathFormat`, `FsPaths`, `PathLaws` | a directory as a map from names to inode numbers; all directories as one tree |
| open files (`file.c`) | `FsCreate`, `FsUnlink`, `FileState`, `FileSteps`, `FsOrphans`, `SysState`, `Files` | the file table; each operation as one transaction, `filewrite` as several |
| the initial image (`mkfs.c`) | `MkfsState`, `MkfsTree`, `MkfsOrder`, `Mkfs` | the same `Abs` and tree |
| whole runs | `FsDisk`, `Calls`, `Crash`, `CallLaws` | from mkfs through boot, any calls, a crash, any interrupted recoveries, and boot again |
| disks on which bounds are reached | `Witness` | whole disks, built block by block |

Two invariants carry everything. `FsState.Consistent` says that the bitmap has exactly the metadata and the blocks in
use, that no block belongs to two files, that files have no holes, that inodes are written through, and that every inode
has at most one referenced slot in the inode cache. `Tree.TreeOk` says that names in a directory are distinct, that "."
and ".." come first, that every link count is the number of entries other than "." in linked directories, and that all
linked inodes hang in one tree below the root. Every method keeps them, so every transaction boundary has them, and
`Crash.CrashSafe` shows that a crash can only lead back to such a boundary: the last one whose header write had reached
the disk. `Crash.Run` ties the boundaries to the calls: each call has the effect it promises and adds at most one boundary,
a write one per chunk. So `Crash.CrashState` can say what a crash leaves: the state after the first so many calls, or that
state with some chunks of the write that came next. A disk shows one such state only (`FsDisk.ShowsOne`). `Crash.Lifetime`
runs the whole chain from `mkfs` on. `CallLaws` puts calls together: what one has stored, made or removed, the next ones find,
or do not find, under the same path.

A panic of the kernel is a result, `Panic(why)`, with one constructor per panic message of the modelled code. The
contracts say which of them can happen, and when. An operation stops if no bit of the bitmap is clear, no inode is free or
no slot of the inode cache is empty at that moment (`FsSpec.Exhausted`); if a directory has the greatest possible size, a
device takes fewer bytes than it is given, or a file is not open; and if freeing an inode is too much for one transaction.
All other panics are proved unreachable, among them "freeing free block", "unlink: nlink < 1" and "create dots".

Freeing an inode logs one bitmap block for every stretch of 4096 blocks that the file has a block in. `unlink` and
`fileclose` panic exactly when the transaction comes to LOGSIZE - 1, that is 29, blocks in this way. With at most
25 bitmap blocks `unlink` never does, and with at most 27 neither does `fileclose`; from 26 and 28 bitmap blocks on there are
disks in order on which they do (module `Witness`).

## The other protocols

`Peterson`, `Pipe`, `RwLock`, `Dining` and `Transfer` are the programs in `09/`, as step systems: a state, a relation for one
atomic step of one thread, and runs, which are all sequences of such steps from the start. Theorems speak about every
state of every run. Peterson's algorithm runs on x86 store buffers: a thread's stores wait in a queue of its own and
reach memory later, in order ("Memory Ordering", section 8.2 of the Intel Software Developer's Manual, Volume 3A).
`Sched` is the CPU with its scheduler, nested interrupt disabling and timer ticks wherever interrupts are on. `Ide` is the
linked queue of disk requests as a class.

## Where the code and its comments disagree

The model follows the code.

- `log.c` says that a commit happens only when no file system call is active; `begin_op` is empty and `end_op` commits
  unconditionally. Operations therefore run one at a time here, and each ends with its own commit.
- `bio.c` and `fs.c` speak of locked buffers and inodes; there are no such locks in this version and none in the model.
- `mkfs` rounds the size of the root directory up to whole blocks, and one block further if it is whole already. The image
  is in order exactly unless the number of entries is a multiple of 32, two names cannot be told apart, or there are more
  files than inodes; `mkfs` notices none of these, and `Mkfs.Build` proves that equivalence.

## Model

| member | source | states |
|---|---|---|
| `Crash.CrashSafe` | log.c:111-163 | for any run, cut its device writes anywhere and interrupt recovery as often as you like: the recovery that completes restores exactly the last transaction boundary whose header write was performed, and that disk has the allocation, link and tree invariants; with all writes performed it is the last boundary |
| `Crash.CrashState` | file.c:51-319 | what recovery finds after a crash anywhere: the state after the first n calls, n counting every call whose last boundary had arrived, or else call n is a write and a prefix of whole chunks of it is there too; the inodes in use without a name are those open and unlinked at that time, and those left from before |
| `Calls.BoundaryExplained` | log.c:129-163 | every boundary of a run holds the state after some number of calls, or lies inside a write and holds some of its chunks |
| `FsDisk.ShowsOne` | fs.h:29-56 | a disk in order holds exactly one file system: inodes, contents and owners of blocks can all be read off it |
| `Crash.Restart` | log.c:49-62 | booting from what a crash and interrupted recoveries left gives a system in order again, showing that same boundary; the inodes it takes for left behind are exactly those in use without a name |
| `Crash.Lifetime` | mkfs.c:67-168 | from mkfs through boot to any calls: the system comes up exactly if the files fit and nothing speaks against the image; it starts with exactly those files and nothing left behind, and every boundary after that is explained by the calls |
| `Crash.Run` | file.c:51-319 | a run, call by call: the state after each call, the answer of each, the effect each promises between neighbouring states, and the boundary at which the disk holds that state; a run ends early only with a panic that the next call may have |
| `Crash.Step` | file.c:51-319 | one call has the effect it promises and keeps the whole invariant, or panics for a reason that call may have and leaves the disk at a boundary; it adds at most one boundary, a write one per chunk, each holding a prefix of whole chunks |
| `RedoLog.CommitAtomic` | log.c:64-163 | any prefix of the writes of a commit, any number of interrupted recoveries, one complete recovery: all blocks outside the log are as before the transaction, or, exactly from the header write on, as after it |
| `RedoLog.CommitCrash` | log.c:138-163 | after every prefix of a commit the log replays to the old contents up to the header write and to the new ones from then on |
| `RedoLog.UpdatedEffect` | log.c:64-78 | "the new contents" are the logged blocks with their new data and every other block unchanged |
| `RedoLog.ReplayAfterPartialReplay` | log.c:64-78 | install_trans is idempotent: cut short anywhere and done again it ends where one full pass ends |
| `RedoLog.RecoveryInterrupted` | log.c:111-118 | a recovery cut at any write leaves a disk that recovers to the same contents |
| `RedoLog.RebootsRecover` | log.c:111-118 | so do any number of interrupted recoveries, and the complete one restores those contents |
| `RedoLog.FullRecovery` | log.c:111-118 | a complete recovery yields the contents the log stands for and an empty log |
| `LogState.Commits` | log.c:152-163 | one more commit keeps the whole write history crash safe at every prefix |
| `LogState.CrashAnywhere` | log.c:111-163 | from any prefix of a whole history of commits, recovery ends at the last boundary whose header had arrived |
| `Log.TxnLog.constructor` | log.c:49-62 | boot replays the log on disk, emits exactly the writes of a recovery, and starts an empty transaction on the recovered contents |
| `Log.TxnLog.RecoverFromLog` | log.c:111-118 | the writes performed are those of recovery, for any log a crash can leave |
| `Log.TxnLog.ReadHead` | log.c:80-92 | the block numbers are those in the header on disk |
| `Log.WriteHeader` | log.c:97-109 | the header block written names exactly the blocks of the transaction |
| `Log.HeaderBlock` | log.c:97-109 | the loop encodes count and block numbers so that they read back |
| `Log.HeaderTargets` | log.c:80-92 | the loop decodes exactly the block numbers of the header |
| `Log.TxnLog.WriteLog` | log.c:138-151 | copies exactly the last contents of every pinned block into the log, in order, and never runs out of buffers |
| `Log.TxnLog.InstallTrans` | log.c:64-78 | writes the copies in the log to their home blocks, in order, and leaves no buffer dirty |
| `Log.TxnLog.Commit` | log.c:153-163 | with no buffer held a commit of any admissible size never panics, leaves no block pinned and no transaction, makes the contents that readers saw durable, and adds one boundary to the history |
| `Log.TxnLog.LogWrite` | log.c:174-191 | panics exactly when the transaction is full; otherwise lists the block once however often it is logged and pins its new contents |
| `LogState.CommitPhases` | log.c:153-163 | the phases of the code emit, as one sequence, the writes whose crash behaviour is proved |
| `BufferCache.Cache.constructor` | bio.c:35-49 | binit links all buffers into one cyclic list; readers see the disk |
| `BufferCache.Cache.Bget` | bio.c:54-83 | finds the one buffer of a cached block; else recycles the eligible buffer released longest ago; panics exactly when all buffers are held or dirty |
| `BufferCache.Cache.Find` | bio.c:60-67 | walking the list forward finds the buffer of the block exactly if there is one |
| `BufferCache.Cache.Victim` | bio.c:69-81 | walking it backward finds the least recently released buffer not in use, if any |
| `BufferCache.Cache.Bread` | bio.c:86-96 | the reader gets the block's current contents whether cached or not; fails only if NBUF distinct blocks are pinned or held |
| `BufferCache.Cache.Bwrite` | bio.c:99-104 | one write of that block reaches the device; the block is clean and everybody sees the new contents |
| `BufferCache.Cache.Brelse` | bio.c:109-124 | one reference less; the last one makes the buffer the most recently released, and the list stays a permutation of all buffers |
| `BufferCache.Cache.Pin` | log.c:165-191 | changed contents are seen by all readers and the block cannot be evicted |
| `CacheState.NoneFree` | bio.c:69-82 | if no buffer can be recycled, at least NBUF distinct blocks are pinned or held |
| `CacheState.Moved` | bio.c:109-124 | taking a buffer out of the linked list and pushing it in front keeps the list cyclic, complete and in order of last release |
| `FsAlloc.Balloc` | fs.c:50-72 | the lowest free block, zeroed, its bit set and nothing else changed; panics only if every bit is set |
| `FsAlloc.Scan` | fs.c:57-70 | the search over all bitmap blocks stops at the first clear bit below the size of the disk |
| `FsAlloc.FirstClear` | fs.c:59-68 | the inner loop finds the first clear bit of a bitmap block |
| `FsAlloc.Bzero` | fs.c:37-45 | the block reads as zeros and is logged |
| `FsSteps.Alloc` | fs.c:50-72 | a block with a clear bit belongs to nobody, and taking it keeps the accounting of all blocks |
| `FsSteps.Free` | fs.c:76-90 | giving back a block that nobody holds keeps it, and its bit was set |
| `FsSteps.AttachDirect` | fs.c:267-271 | naming a fresh block in a direct slot appends it to that file and changes no other file |
| `FsSteps.AttachEntry` | fs.c:278-285 | the same through the indirect block |
| `FsSteps.Detach` | fs.c:295-323 | dropping all block numbers of an inode releases exactly its blocks and changes no other file |
| `FsSteps.WriteData` | fs.c:384-390 | writing a data block changes one block of one file |
| `FsMap.Bmap` | fs.c:261-288 | an existing block is found and nothing changes; the block behind the last is allocated, zeroed and appended; exactly which blocks join the transaction; "out of range" exactly past MAXFILE |
| `FsMap.BmapDirect` | fs.c:267-271 | the direct half |
| `FsMap.BmapIndirect` | fs.c:272-286 | the indirect half, with the indirect block allocated first where it is missing |
| `FsMap.EnsureIndirect` | fs.c:275-277 | the inode has an indirect block afterwards, with no entry filled |
| `FsMap.BmapEntry` | fs.c:278-285 | an entry of the indirect block is found, or filled with a fresh block |
| `FsInodes.Bfree` | fs.c:76-90 | panics exactly on a free block or with a full transaction; otherwise clears that bit only |
| `FsInodes.FreeBlock` | fs.c:302-315 | within itrunc, "freeing free block" cannot happen; only the size of the transaction can stop it |
| `FsInodes.FreeDirect` | fs.c:302-307 | the first loop frees exactly the direct blocks of the file |
| `FsInodes.FreeIndirect` | fs.c:309-319 | then exactly its other blocks, and the indirect block last |
| `FsInodes.Itrunc` | fs.c:295-323 | the inode ends with no blocks and size 0, exactly its blocks become free, no other file changes, and the inode is written through; exactly its bitmap blocks and its inode block are logged; panics exactly when they are too many |
| `FsInodes.Iupdate` | fs.c:175-191 | afterwards the inode on disk is the one in memory; panics exactly when the transaction is full |
| `FsInodes.Iget` | fs.c:196-224 | one more reference, in the slot that has the inode or the first empty one; panics exactly when it is not cached and all slots are in use |
| `FsInodes.FindSlot` | fs.c:201-211 | the search finds the slot of the inode if it is referenced, and the first empty slot |
| `FsInodes.Iread` | fs.c:227-250 | the slot holds the current inode; the two panics exactly for no reference and for a free inode |
| `FsInodes.Iput` | fs.c:152-170 | one reference less and nothing else, except that the last reference to an unlinked inode frees it and all its blocks; panics exactly when that is too much for the transaction |
| `FsInodes.Ialloc` | fs.c:125-145 | the lowest free inode becomes an empty inode of that type; panics for want of inodes only if none is free |
| `FsInodes.ScanInodes` | fs.c:132-143 | the search over the inode blocks stops at the first free inode |
| `FsInodeSteps.TookRefs` | fs.c:152-224 | the reference count of every inode changes by exactly one for the result of an operation and by zero for all others |
| `FsInodeSteps.RefAt` | fs.c:196-224 | the references to an inode are those of its one slot |
| `FsInodeSteps.IupdateAll` | fs.c:175-191 | writing one inode through its inode block leaves all others on disk as they were |
| `FsFormat.DinodeRoundTrip` | fs.h:29-36 | an inode survives encoding to 64 bytes and back |
| `FsFormat.PutInode` | fs.h:38-42 | writing one inode into its block changes that one of eight |
| `FsFormat.PutBlockBit` | fs.c:60-62 | setting or clearing one bit leaves the other 4095 alone |
| `FsFile.Readi` | fs.c:339-363 | delivers exactly the slice of the flat contents, cut off at the size; the error cases with 32-bit wrap-around; allocates nothing and changes nothing |
| `FsFile.ReadBytes` | fs.c:356-361 | the loop over blocks adds up to that slice |
| `FsFile.Writei` | fs.c:367-397 | overwrites the flat contents at the offset, growing the file; refuses beyond MAXFILE, past the end and on wrap-around; only this file changes; the inode is written through; exactly which blocks are logged, at most `WriteCost`; panics only with no block free |
| `FsFile.WriteBytes` | fs.c:384-390 | the loop over blocks writes all bytes where they belong |
| `FsFile.WriteBlock` | fs.c:385-389 | one pass changes or appends one block |
| `FsContent.WroteContent` | fs.c:367-397 | block-wise writing refines overwriting one flat byte sequence |
| `FsContent.WroteMore` | fs.c:384-390 | each pass of the loop extends what has been written, across direct and indirect blocks alike |
| `FsContent.ContentSlice` | fs.c:356-361 | bytes within one block are a slice of the flat contents |
| `FsContent.WrapsExactly` | fs.c:351-379 | the check `off + n < off` in 32 bits catches exactly the overflows |
| `FsContent.WritingRoom` | fs.c:384-396 | at no point does a write need more of the transaction than the whole write is charged |
| `FileSteps.ChunkCost` | file.c:113-126 | wherever a chunk of `filewrite` lies in a file without holes, it logs at most MAXOPBLOCKS blocks even if every allocation uses another bitmap block |
| `FileSteps.ChunkCostReached` | file.c:113-126 | the bound itself: it reaches MAXOPBLOCKS for a chunk from just behind the tenth block, and would exceed it if the block in which that chunk starts were missing |
| `FsLogCount.ExactWrite` | fs.c:367-397 | a write whose new blocks lie in different bitmap blocks logs exactly the blocks it is charged for |
| `FsLogCount.ChunkReachesBound` | file.c:113-126 | so every chunk from just behind the tenth block whose four allocations fall into different bitmap blocks ends with exactly MAXOPBLOCKS blocks in the log |
| `Witness.ScatteredDisk` | file.c:113-126 | on every disk with four bitmap blocks and inodes enough there can be such a file, open, and a bitmap that has four free blocks and no two under the same bitmap block |
| `Strings.Strncmp` | string.c:58-66 | zero exactly for names that agree in their first n characters, else the difference at the first place where they do not |
| `Strings.Strncpy` | string.c:68-79 | the string cut at n, padded with NULs, and the rest of the buffer untouched |
| `FsDirs.MakeEntry` | fs.c:458-459 | the entry that dirlink writes, built with strncpy, is the encoding of number and name |
| `Strings.Memmove` | string.c:31-49 | the bytes arrive even when source and destination overlap |
| `DirFormat.EntRoundTrip` | fs.h:53-56 | an entry built by dirlink reads back as number and name |
| `DirFormat.EntsOverwrite` | fs.c:458-461 | writing sixteen bytes at an entry's offset replaces or appends just that entry |
| `DirFormat.FindInsert` | fs.c:437-464 | dirlink inserts into the map that dirlookup reads, and names stay distinct |
| `DirFormat.FindRemove` | file.c:185-187 | clearing an entry removes just that name from the map |
| `FsDirs.Dirlookup` | fs.c:409-433 | finds the inode and offset that the directory maps the name to, under the 14-byte comparison, with one reference more; panics only on a file or with no slot left |
| `FsDirs.SearchDir` | fs.c:418-430 | the loop finds the first live entry of that name |
| `FsDirs.Dirlink` | fs.c:437-464 | refuses a name that is there; otherwise the first free entry gets it; the write fails only in a directory of the greatest size with no free entry |
| `FsDirs.FindFree` | fs.c:450-456 | the first free entry, or the end |
| `FsDirs.Isdirempty` | file.c:139-153 | true exactly if no entry behind the dots is live |
| `Tree.CreateTree` | file.c:207-249 | creating a node keeps names distinct, link counts exact and the tree connected |
| `Tree.UnlinkTree` | file.c:185-196 | so does unlinking, and the inode ends with no link |
| `Tree.FreeTree` | fs.c:152-170 | so does freeing an inode without links |
| `Tree.OnlyLink` | file.c:178-196 | an inode that may be unlinked has exactly one link, the entry being removed |
| `Tree.EntryLinked` | file.c:174-179 | whatever a linked directory names is in use and has a link, so "unlink: nlink < 1" is unreachable |
| `Tree.LinkBound` | file.c:235-237 | link counts stay below the number of inodes, so `nlink++` never overflows |
| `Tree.DotsFirst` | file.c:170-172 | only the first two entries are the dots |
| `Tree.Reachable` | fs.c:509-538 | every linked inode has a path from the root, of the length of its depth |
| `FsTree.CreateDone` | file.c:226-246 | what create does to inodes and blocks is that step of the tree |
| `FsTree.UnlinkDone` | file.c:185-196 | and likewise unlink |
| `FsTree.EntCost` | fs.c:460-460 | writing one entry logs at most five blocks |
| `PathFormat.ElementsAreParts` | fs.c:480-503 | repeated skipelem yields exactly the non-empty parts between slashes, cut to DIRSIZ |
| `PathFormat.PartsJoined` | fs.c:466-503 | those parts have no slash in them, and joined by slashes they are the path |
| `PathFormat.GoalIsWalk` | fs.c:509-538 | what namex looks for is the fold of directory lookup over the elements, all but the last in parent mode |
| `FsPaths.Skipelem` | fs.c:480-503 | takes off one element, copies its name, and makes progress |
| `FsPaths.Namex` | fs.c:509-538 | returns the inode that fold leads to, or its parent with the last name; exactly one more reference to it, none on failure |
| `FsPaths.NamexStep` | fs.c:516-532 | one element is one directory lookup, and the reference moves on |
| `FsCreate.Create` | file.c:207-249 | an existing file is returned, anything else with the name refused; otherwise the lowest free inode is created under it, with the type and device numbers asked for and one link; link counts are exact and the tree stays in order |
| `FsCreate.MakeDots` | file.c:238-240 | the new directory has exactly the two dots; "create dots" is unreachable |
| `FsCreate.AllocInode` | file.c:226-233 | the lowest free inode, with the type and device numbers asked for and one link, written through |
| `FsUnlink.UnlinkIn` | file.c:168-204 | refuses the dots, missing names and directories with entries; otherwise the entry goes and link counts stay exact; panics only for want of a slot or if the inode to be freed is too spread, and then always |
| `FsUnlink.UnlinkFound` | file.c:176-199 | once found, unlink panics exactly if the inode is to be freed and its bitmap blocks, with the others, exceed the log |
| `FsUnlink.Remove` | file.c:185-196 | the inode is freed with all its blocks exactly if nobody has it open |
| `Files.EndOp` | log.c:129-135 | exactly one boundary more if anything was logged, none otherwise; the last boundary holds the state at the end of the operation, in order |
| `Files.Open` | file.c:252-292 | the first free file refers to the inode found or created, from offset 0; readable and writable as the mode says, and directories only for reading; with the table full the reference is dropped; panics only by exhaustion; at most one boundary |
| `Files.MakeNode` | file.c:294-319 | mkdir and mknod: refused without parent or if the name exists, else exactly one node is made, with that type, those device numbers and one link, and no reference is left; panics only by exhaustion; at most one boundary |
| `Files.Unlink` | file.c:155-205 | unlink as one transaction with at most one boundary; a transaction too big exactly for an inode too spread |
| `Files.Filealloc` | file.c:23-37 | the first free entry of the file table |
| `Files.Filedup` | file.c:40-49 | one reference more; panics exactly on a file that is not open |
| `Files.Fileclose` | file.c:52-74 | one reference less; the last one drops the inode, which is freed exactly if it has no link and no other reference; panics exactly on a file that is not open or an inode too spread to be freed; at most one boundary |
| `Witness.FewBitmapBlocks` | log.c:174-191 | with at most LOGSIZE - 5 bitmap blocks no unlink, with at most LOGSIZE - 3 no fileclose is too much for a transaction |
| `Witness.UnlinkOverflows` | file.c:155-205 | from LOGSIZE - 4 bitmap blocks on there is a disk in order, given nine inodes and three data blocks under the first bitmap block, with an empty directory whose unlink panics |
| `Witness.CloseOverflows` | file.c:52-74 | from LOGSIZE - 2 bitmap blocks on there is a disk in order with an open, unlinked file whose last close panics |
| `CallLaws.RunLoadsStored` | file.c:51-292 | in every run: a file opened or created, written and closed is read back, byte for byte, by whoever opens its path next |
| `CallLaws.RunReadsDevice` | file.c:89-305 | in every run: a node made by mknod and opened is read from the driver with the major number it was made with |
| `CallLaws.StoreAndLoad` | file.c:51-292 | the same for any five such calls from a state in order, whatever file the path led to before |
| `CallLaws.MknodThenOpen` | file.c:252-305 | opening a fresh device node succeeds exactly without O_CREATE and with room in the file table, and yields that device with the access the mode says |
| `CallLaws.MknodThenRead` | file.c:89-305 | reading it then answers what the driver of its major number answers, or -1 if it was opened for writing only |
| `CallLaws.DeviceReads` | file.c:89-103 | a read of an open device returns what the driver of its major number answers and changes nothing |
| `CallLaws.DeviceWrites` | file.c:106-137 | writing to it takes the chunks that this driver takes whole and changes nothing on the disk |
| `CallLaws.MadeMeans` | file.c:207-319 | after mkdir or mknod the path, which led nowhere, leads to the new inode, and every path that led somewhere leads there still |
| `CallLaws.OpenFinds` | file.c:265-292 | open without O_CREATE succeeds exactly if the path leads to something that may be opened that way and the file table has room; the file is that inode from offset 0, and the disk does not change |
| `CallLaws.OpenMeans` | file.c:252-292 | however it was opened, the file is the inode that the path leads to afterwards, and all other paths lead where they did |
| `CallLaws.WriteHolds` | file.c:106-137 | after a write the file holds the bytes at the old offset, and every path leads where it did |
| `CallLaws.ReadHeld` | file.c:89-103 | a read from that offset gets them back |
| `CallLaws.NegativeRead` | file.c:89-103 | a read with a negative count gets all the rest of the file, unless offset and count together pass 2^32, when it is refused |
| `CallLaws.UnlinkMeans` | file.c:155-205 | after unlink every path through the removed name leads nowhere, its own first of all, and every other path leads where it did |
| `CallLaws.UnlinkThenOpen` | file.c:155-292 | so opening it without O_CREATE fails and changes nothing |
| `PathLaws.CreatedMeans` | file.c:207-249 | a created name makes one path mean something and changes the meaning of no path that meant something |
| `PathLaws.GoneMeans` | file.c:185-187 | removing the name of an inode takes away the meaning of exactly the paths that look that name up in that directory |
| `FsOrphans.UnlinkOrphans` | file.c:155-205 | unlink leaves an inode in use without a name only if it is referenced |
| `FsOrphans.CloseNoneLost` | file.c:52-74 | fileclose never drops the last reference to such an inode without freeing it |
| `FsOrphans.NoneLostOpen` | file.c:52-74 | so between two calls every inode in use without a name has an open file, but for those found at boot |
| `Files.Fileread` | file.c:89-103 | the bytes from the file's offset on, which moves past them; the disk is not touched |
| `Files.WriteChunk` | file.c:122-126 | one chunk is a transaction of at most MAXOPBLOCKS blocks, and of exactly that many at the edge of the direct blocks on a disk with scattered free blocks |
| `Files.Filewrite` | file.c:106-137 | writes a prefix of the bytes at the offset and nothing else, all of them exactly when it returns their number; on a file it stops early only at the largest size; on a device it asks the driver chunk by chunk, returns the count exactly if the driver takes every chunk whole, -1 exactly if the first other answer is negative, with the chunks before it done, and panics "short filewrite" exactly if that answer is not negative; a negative count changes nothing; every boundary it adds holds whole chunks |
| `FileSteps.DeviceCases` | file.c:113-134 | whatever a driver answers, a write to it has exactly one of the three outcomes: all taken, a negative answer, or a short count |
| `FileSteps.DeviceTakesAll` | file.c:117-134 | a write to a device returns its count exactly if the driver takes each of its chunks whole |
| `FileSteps.HasBit` | file.c:259-289 | the test of a flag looks at that bit and at no other, below it or above |
| `FileSteps.OpenModes` | fcntl.h:1-4 | so for each access mode, with O_CREATE or without: RDONLY reads, WRONLY writes, RDWR does both, and create depends on O_CREATE alone |
| `FileState.OpenReferenced` | file.c:52-74 | the inode of every open file is referenced |
| `FileSteps.OverwriteTwice` | file.c:117-133 | chunk after chunk is the same as one write |
| `FsDisk.BoundaryWhole` | log.c:129-135 | between operations the disk alone has all invariants and holds the state in memory |
| `FsDisk.Booted` | log.c:49-62 | and such a disk is all that boot needs |
| `SysState.Sys.constructor` | log.c:49-62 | boot from any recoverable disk gives a system in order with the contents the log stands for |
| `Mkfs.Build` | mkfs.c:67-168 | makes an image exactly if the files fit, counted to the block; the kernel finds the image in order exactly if the names can be told apart, there are enough inodes, and the root entries are not a multiple of 32; then every file is there under its name with its bytes, and nothing else; the layout reads back from block 1 |
| `MkfsOrder.OrderlyMade` | mkfs.c:117-163 | the files laid out from inode 2 on with such names make a tree in order, with all files in it |
| `MkfsOrder.ShownOrderly` | mkfs.c:117-163 | if the kernel finds the image in order, none of the three things spoke against it |
| `MkfsOrder.RootHole` | mkfs.c:158-163 | a disk whose root directory has the rounded size of a multiple of 32 entries and no block behind them is not in order |
| `Mkfs.Iappend` | mkfs.c:255-297 | the bytes come at the end of the file and nothing else changes; exactly the blocks that the file has more are taken; gives up exactly past the largest file or the end of the image |
| `Mkfs.FileBlock` | mkfs.c:269-286 | the block number of a file block, allocated in sequence where it is missing; fails exactly at the end of the image |
| `Mkfs.Ialloc` | mkfs.c:223-235 | the next inode, with one link |
| `Mkfs.AddFile` | mkfs.c:130-156 | inode, name and contents of one file, or failure exactly for want of room |
| `Mkfs.Balloc` | mkfs.c:237-251 | the bitmap block has exactly the first blocks; gives up exactly if one block does not do |
| `FsState.SuperRoundTrip` | fs.h:14-22 | the layout survives being written as the superblock and read by readsb |
| `Mkfs.LayoutOk` | mkfs.c:94-108 | the layout computed from the constants meets what the kernel assumes |
| `MkfsTree.RoundedHole` | mkfs.c:158-163 | the rounded size claims a block that the directory does not have exactly for a multiple of 32 entries |
| `MkfsTree.DirRounded` | mkfs.c:158-163 | otherwise the rounded directory has free entries at the end and the tree stays in order |
| `MkfsTree.BlankImage` | mkfs.c:108-115 | the zeroed disk is an empty file system |
| `Peterson.FencedIsExclusive` | 09/peterson-fence.c:13-35 | with the fence, in every interleaving of instructions and buffer flushes, both threads are never in the section at once, and the counter is 0 once both are done and their buffers are empty |
| `Peterson.CounterCounts` | 09/peterson-fence.c:13-35 | on the way the counter is 1 when only the producer has finished, -1 when only the consumer has, and 0 before |
| `Peterson.CanFinish` | 09/peterson-fence.c:13-35 | nobody is locked out: every run, wherever it has got to, can be completed with both threads done |
| `Peterson.UnfencedIsNot` | 09/peterson-breaks.c:13-29 | without it, there is a run with both threads in the section |
| `Pipe.PipeIsFifo` | 09/sem-mpmc.c:18-35 | for any number of threads: what is read is a prefix of what is written, at most SZ characters are under way, writers exclude each other, readers exclude each other, and a write and a read in progress never use the same slot |
| `Pipe.WritePuts` | 09/sem-mpmc.c:18-25 | each call of pipe_write puts its own character in once, during the call, and that is what stays written at its place |
| `Pipe.ReadGets` | 09/sem-mpmc.c:27-35 | each call of pipe_read returns the character that was written at one place, taken once, during the call |
| `Pipe.PlacesDiffer` | 09/sem-mpmc.c:18-35 | no two calls put to the same place, and no two get from the same place |
| `Pipe.NeverStuck` | 09/sem-mpmc.c:18-53 | with at least one producer and one consumer, whatever characters come next, in every reachable state some thread can take a step of its role |
| `Pipe.MoveTokens` | 09/sem-mpmc.c:18-35 | the tokens of all four semaphores are conserved by every step |
| `RwLock.WritersExclude` | 09/rw-using-sems.c:15-74 | for any number of threads: a writer overlaps neither a reader nor another writer, every full scan adds up to what the array added up to at the start, 0 in the program, and tokens are conserved |
| `RwLock.WriterWrites` | 09/rw-using-sems.c:48-58 | from taking the write lock until posting it, the array changes by this writer's two updates and by nothing else |
| `RwLock.ReaderJoins` | 09/rw-using-sems.c:21-27 | readers share: while somebody reads and `lock` is free, any other reader can join with nobody else moving |
| `RwLock.NeverStuck` | 09/rw-using-sems.c:15-74 | with any readers and any writers, whatever elements a writer picks, in every reachable state some thread can take the next step of its role |
| `Dining.NeverStuck` | 09/dine.c:9-34 | for any number of philosophers from two on, in every reachable state one of them can move |
| `Dining.NeighboursExclude` | 09/dine.c:9-34 | neighbours never eat at the same time |
| `Dining.EatersHoldBoth` | 09/dine.c:9-34 | whoever eats has both forks, and neither neighbour has one of them |
| `Dining.CanEat` | 09/dine.c:12-34 | nobody need starve: every run, wherever it has got to, can go on so that a given philosopher eats |
| `Transfer.NeverStuck` | 09/dead-fix.c:23-50 | as long as a transfer is unfinished, some transfer can move |
| `Transfer.MoneyIsConserved` | 09/dead-fix.c:23-50 | the total is conserved whenever no transfer is between its two updates, and balances that start non-negative stay so |
| `Transfer.TransferPays` | 09/dead-fix.c:39-42 | from having both locks to giving up the first, the two accounts of a transfer change by what it does: exactly its amount goes over if the source had more than that, nothing otherwise |
| `Transfer.FinalBalances` | 09/dead-fix.c:52-75 | in every run, once all are done, each account has its first balance, plus the amounts of the transfers to it that paid, minus those of the transfers from it that paid |
| `Transfer.RunEnds` | 09/dead-fix.c:23-50 | no run has more than six steps for each transfer, so together with the law that some transfer can move, all transfers finish |
| `Sched.SwitchesAreSafe` | proc.c:125-190 | in every run: at every switch ncli is 1 and interrupts are off; at most one process runs, the CPU's current one; a tick in the scheduler never yields; popcli never panics, and sched always finds its caller not running and interrupts off |
| `Sched.NoOvertaking` | proc.c:125-150 | between two starts of the same process, every process that waits at the second of them has been started |
| `Sched.RoundRobin` | proc.c:125-150 | since a waiting process last ran, every other slot has run at most once |
| `Sched.NeverPanics` | proc.c:125-190 | in every run there is always a next step, none of the panics can happen, and who is in a critical section can leave it |
| `Sched.NobodyIsLost` | proc.c:125-183 | in every run a process that is there stays there: running or waiting, whatever preempts it |
| `Sched.FreshOnce` | proc.c:141-146 | a process goes to its entry point the first time it is started and back to where it was each time after |
| `Sched.ScanFinds` | proc.c:136-147 | a scan starts the first waiting process that it comes to, after one step for each slot before it |
| `Sched.ScanEnds` | proc.c:136-148 | if none waits, the round ends behind the last slot |
| `Sched.Rounds` | proc.c:132-149 | and the next round begins at the first slot, with interrupts on in between, where ticks change nothing |
| `Sched.ScanStartsAll` | proc.c:136-147 | a scan from the first slot to the end starts every process that was waiting when it began |
| `Sched.TickPreempts` | trap.c:66-71 | a tick that comes while a process has control leads in four steps, with nothing in between, to that process waiting and the scan going on behind it |
| `Sched.FreshWorks` | proc.c:185-190 | a process that is started for the first time leaves forkret and is at its work two steps later, with interrupts on, unless a tick comes before |
| `Sched.ResumesWork` | proc.c:159-183 | a process that is started again is back at its work three steps later, with interrupts on |
| `Sched.Nesting` | spinlock.c:32-53 | to any depth: with k pushclis open, fewer than k popclis leave interrupts off, the k-th puts them back as they were, and one more panics |
| `Sched.PushPop` | spinlock.c:32-53 | popcli undoes pushcli; only the outermost pair turns interrupts back on |
| `Sched.TickKeeps` | trap.c:66-71 | a tick keeps the invariant wherever it comes |
| `Ide.Disk.Submit` | ide.c:122-141 | the request goes to the end of the linked queue, which stays a chain without cycles or duplicates, and is started if the disk is idle, when a write changes its own block and nothing else; panics exactly with nothing to do |
| `Ide.Disk.Ideintr` | ide.c:97-117 | the head completes exactly once, in order of arrival, valid and clean and equal to the disk, and no other buffer changes; the next request is started, and if it is a write, its block is the only one of the disk that changes |
| `Ide.Disk.Last` | ide.c:134-136 | walking the links finds the end of the queue |

## Left out

- `FsFile.Writei`: asks that the transaction has room for the write; the code checks that block by block in `log_write`, and every caller modelled here meets it.
- `FsMap.Bmap`: asks for a block of the file or the one behind its last; the code takes any number, but no caller leaves a hole.
- `Mkfs.Build`: asks that the files and the root directory fit, with one slot to spare, into the inode blocks; `ialloc` does not check that and would write inodes over the bitmap.
- `Sched.NoOvertaking`: the set of processes is fixed; none is created after the start.
- `Transfer.NeverStuck`: source and destination of a transfer differ, as `main` arranges.
- `Log.TxnLog.LogWrite`, `BufferCache.Cache.Bwrite`: setting the data of a buffer and the call that follows it are one step.
- `FileState.Table`: every reference belongs to an open file; the kernel keeps one more for the current directory of its process (`proc.c:114`), which no modelled call uses.
- File system operations that overlap in time: `begin_op` is empty, so atomicity holds one operation at a time only.
- Device numbers: there is one device, so in-memory inodes carry no number and the cache is used with ROOTDEV.
- The superblock after boot: the layout is read from the image once; that no call writes block 1 is not stated.
- Device drivers behind `devsw`: their answers are parameters.
- `filestat`, `stati`, and stripping a leading underscore from file names in mkfs: only easy members.
- After a crash the inodes that were open without links stay allocated; nothing in the code collects them.
- Port-level work of `idestart` and `idewait`, device errors, and the wait loop of `iderw`: the device performs whole blocks.
- `swtch.S`, `trapasm.S`, boot code, memory, console, system call dispatch, `sysfile.c`: hardware, plumbing, or duplicates.
- Loops of the threads in `09/` are endless, with no counts and no output.
- Liveness under a fair schedule: stated is that some step is always possible, that runs can be completed, or continued so that a given philosopher eats, and that nobody is overtaken.
