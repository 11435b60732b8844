# A verified model of the xv6 kernel core, its shell tools and its system-call tracer

This project models the parts of the system that are hard to get right by reading, and
proves what they promise for every input, every run and every crash.

| file | what it models |
|---|---|
| `RedoLog.dfy` | the on-disk redo log as disk images: commit, recovery, and power failures between any two block writes |
| `BufCache.dfy` | the buffer cache: a ring of buffers linked through two arrays, over a disk with atomic block writes |
| `LogCommit.dfy` | `log_write`, `commit` and recovery as they run over that cache; every disk image they produce is recorded |
| `GroupCommit.dfy` | any number of processes in `begin_op`, `log_write` and `end_op`, one committer, and crashes, as a step machine |
| `Bytes.dfy`, `Fs.dfy` | the block bitmap, the block map of an inode, and file contents, on byte blocks |
| `FileWrite.dfy` | the cutting of a long write into log transactions |
| `Dir.dfy` | directories as finite maps from names to inode numbers |
| `Vm.dfy` | two-level page tables over a pool of frames: `walkpgdir`, `mappages`, `setupkvm`, `copyuvm`, `deallocuvm`, `freevm` |
| `ProcTable.dfy` | the process table: fork, exit, wait, sleep, wakeup and kill as steps, and their scans as loops on an array |
| `Pipe.dfy` | pipes: the ring with wrapping 32-bit counters, and readers, writers and closers as a step machine with both locks |
| `Heap.dfy` | the user heap: the circular, address-ordered free list of `malloc` and `free` |
| `ShellGrammar.dfy`, `Shell.dfy` | the shell's grammar as functions and a printer; the parser as it runs over the command line |
| `ShellLexing.dfy`, `ShellForms.dfy` | what a command line is without the parser: tokens with gaps between them, and every way to write a command, with its meaning |
| `Regex.dfy` | the pattern matcher of `grep` |
| `CStrings.dfy`, `Trace.dfy` | NUL-terminated strings; the tracer's number formatting, record text, filter and ring of ten records |
| `Common.dfy` | the kernel's parameters and facts about finite sets that several files share |

Code that changes things in place is modelled by classes, arrays and loops with invariants;
concurrency by step machines in which a step is one locked section, one unlocked write or one
block write. Theorems about whole runs quantify over every sequence of enabled steps.

## Where the code does not keep the property

In each case the model follows the code, a lemma or a short program gives the failing case
or its exact contract names it, and the exact condition is proved.

- The guard of `log_write` is evaluated before the lock is taken. Operations that each stay
  within `most` blocks can overrun the log area without a panic, and `write_log` then puts a
  copy on the block behind it. They cannot exactly when the area has more than 10 + 2 `most`
  blocks, or there is at most one process, or the area has no room for a copy. `mkfs` makes
  30 blocks: safe for 9 blocks per operation, not for MAXOPBLOCKS
  (`GroupCommit.LogOverrun`, `GroupCommit.OverrunHitsHome`, `GroupCommit.LogAreaMustExceedPeak`).
- Operations within MAXOPBLOCKS can meet the panic "too big a transaction"; for two or more
  processes it is out of reach exactly when 10 + 2 `most` is below both LOGSIZE and the
  number of copies, which for `mkfs`'s log is again 9 blocks per operation
  (`GroupCommit.TooBigReached`, `GroupCommit.TooBigIsExact`).
- A `filewrite` chunk can log 17 blocks, more than the MAXOPBLOCKS that `begin_op` reserves;
  how many it logs, and so when it stays within the reservation, is exact in offset, length
  and file size. Alone in their groups, the chunks of any write never panic
  (`FileWrite.SeventeenBlocks`, `FileWrite.WriteCost`, `FileWrite.WithinReservation`,
  `FileWrite.ChunksNeverPanic`).
- A commit needs one buffer besides those of the logged blocks. It panics in `bget`, before
  it has written anything, exactly when the logged blocks and the blocks that other
  processes hold fill the cache (`LogCommit.CommitPanics`, `LogCommit.Log.Commit`).
- A killed writer that returns from `pipewrite` with a full pipe has not woken the readers.
  This early return is the only step that loses a wakeup, and it does so exactly when a
  reader is parked (`Pipe.WakeupLost`, `Pipe.LossIsExact`).
- `kill` does not skip unused slots and `allocproc` does not clear `killed`, so a process can
  be born killed; the two steps that cause it are exact (`ProcTable.BornKilled`,
  `ProcTable.StainIsExact`, `ProcTable.BornAlive`).
- `deallocuvm` steps over 1024 pages from wherever it stands when a table is missing, so it
  can jump over mapped pages; which ones is exact. It jumps over none in an image whose
  pages below its size are all mapped, as those of a copied address space are
  (`Vm.PageJumped`, `Vm.Machine.Deallocuvm`, `Vm.NoHole`, `Vm.Machine.Copyuvm`).
- A `copyuvm` that runs out of memory can lose frames. `setupkvm` gives back none of the
  frames it took, and a page is lost when the frame for its table was the one too many. How
  many are lost is exact in the number of free frames: all of them below 65, one if the
  number is 66 plus a multiple of 1025, and otherwise none
  (`Vm.FramesLost`, `Vm.Machine.Copyuvm`).
- `malloc` computes its unit count in 32 bits; the block is large enough exactly for requests
  up to 2^32 - 8 bytes (`Heap.NUnitsEnough`). The kernel reads the byte count that `sbrk` gets
  as a signed int; it is not positive exactly for requests above 2^31 - 16 and up to
  2^32 - 8. If nothing fits, such a request makes `morecore` store a header in memory that
  the process does not have; in all other cases the contract of malloc holds
  (`Heap.SbrkArgument`, `Heap.Allocator.Malloc`).
- `dirlink` keeps 16 bits of the inode number; a link reads back exactly for numbers from 1
  to 65535 (`Dir.LinkReadsBack`).
- `itoa` negates in 32 bits; its text reads back exactly for numbers other than -2^31
  (`Trace.DecimalReads`).

## Model

| member | source | states |
|---|---|---|
| RedoLog.InstallAt | xv6_src/kernel/log.c:66-77 | after k copies of install_trans a home block is the log's copy of it if its entry is among the first k, and everything else, log area included, is untouched |
| RedoLog.LogCopyAt | xv6_src/kernel/log.c:160-171 | write_log changes only the log area, and puts the cached content of the i-th logged block into copy i |
| RedoLog.RecoveredAt | xv6_src/kernel/log.c:106-111 | what a finished recovery leaves in each home block |
| RedoLog.RecoveredEmptiesHeader | xv6_src/kernel/log.c:106-111 | a finished recovery leaves a well-formed disk with an empty header |
| RedoLog.RecoveryRestarts | xv6_src/kernel/log.c:106-111 | a recovery cut off after any number of block writes leaves a disk from which a full recovery ends in the same disk |
| RedoLog.CommitBeforeHeader | xv6_src/kernel/log.c:160-181 | up to the first header write a commit leaves home blocks and header as they were |
| RedoLog.HeaderWritten | xv6_src/kernel/log.c:94-104 | the header write alone makes recovery produce the new content of every logged block |
| RedoLog.CommitAfterHeader | xv6_src/kernel/log.c:173-181 | every disk image after the header write recovers to the same result |
| RedoLog.CrashAtomicity | xv6_src/kernel/log.c:66-181 | for a crash after any number of block writes of commit, and any series of crashes during recovery, the finished recovery finds the home blocks all old if the header write had not happened and all new if it had |
| BufCache.ToFrontPermutes | xv6_src/kernel/bio.c:115-132 | moving a buffer to the front keeps the ring a permutation of all buffers |
| BufCache.ToFrontOrder | xv6_src/kernel/bio.c:115-132 | the buffer that moves is in front, and any two others keep their order |
| BufCache.Unlink | xv6_src/kernel/bio.c:121-122 | the two stores that unlink a buffer leave a ring linked both ways without it |
| BufCache.PushFront | xv6_src/kernel/bio.c:46-53 | the four stores that insert behind the head leave a ring linked both ways with the buffer in front |
| BufCache.AllPinned | xv6_src/kernel/bio.c:82-91 | when no buffer can be recycled, the held and dirty blocks number exactly NBUF |
| BufCache.SomeUnpinned | xv6_src/kernel/bio.c:82-91 | while some buffer can be recycled, fewer than NBUF blocks are held or dirty |
| BufCache.Bcache.constructor | xv6_src/kernel/bio.c:39-55 | binit links all 30 buffers into the ring, highest index first, holding nothing |
| BufCache.Bcache.Find | xv6_src/kernel/bio.c:67-77 | the first loop of bget finds the buffer of a block exactly when there is one |
| BufCache.Bcache.Victim | xv6_src/kernel/bio.c:82-90 | the second loop finds the least recently released buffer that is neither busy nor dirty, exactly when there is one |
| BufCache.Bcache.Bget | xv6_src/kernel/bio.c:60-92 | at most one buffer per block; a dirty buffer is never recycled; a miss recycles the least recently released clean one; would sleep only if the block is held; the panic means all buffers are pinned |
| BufCache.Bcache.Iderw | xv6_src/kernel/ide.c:126-154 | writes a dirty buffer to the disk, or fills an invalid one from it, and touches no other buffer |
| BufCache.Bcache.Bread | xv6_src/kernel/bio.c:95-103 | the buffer handed out carries the latest logged or written content of the block, and the disk is unchanged; a block that nobody pins gets a buffer exactly when fewer than NBUF blocks are pinned |
| BufCache.Bcache.Bwrite | xv6_src/kernel/bio.c:106-111 | the buffer's content is on the disk, and is the block's content, when it returns |
| BufCache.Bcache.MarkDirty | xv6_src/kernel/log.c:208-208 | setting B_DIRTY makes the buffer's content the block's content and pins it |
| BufCache.Bcache.Brelse | xv6_src/kernel/bio.c:115-132 | the buffer is free and most recently released; no content changes |
| BufCache.Bcache.Relink | xv6_src/kernel/bio.c:121-126 | the pointer surgery of brelse on the link arrays is a move to the front |
| LogCommit.Log.constructor | xv6_src/kernel/log.c:52-63 | after power-on: an empty cache over whatever disk the last crash left |
| LogCommit.Log.LogWrite | xv6_src/kernel/log.c:192-210 | the block joins the header once, its buffer is pinned, and both panics happen exactly on their conditions |
| LogCommit.Log.CopyBuffer | xv6_src/kernel/log.c:71-75 | the copy, write and two releases that end a round of install_trans and write_log: one block write, both buffers released, the target no longer dirty |
| LogCommit.Log.CopyToLog | xv6_src/kernel/log.c:163-169 | one round of write_log is one block write of the right block; it fails exactly when the logged and the held blocks fill the cache, with nothing changed |
| LogCommit.Log.WriteLog | xv6_src/kernel/log.c:160-171 | each disk image of write_log is the corresponding LogCopy, the logged blocks stay pinned and held buffers are kept; it fails exactly when the cache is full of pinned blocks |
| LogCommit.Log.HeaderBlock | xv6_src/kernel/log.c:96-101 | the header block with the list in memory written over it |
| LogCommit.Log.WriteHead | xv6_src/kernel/log.c:94-104 | one block write that stores the header's list; held buffers are kept |
| LogCommit.Log.CopyHome | xv6_src/kernel/log.c:69-75 | one round of install_trans is one block write of the log's copy to its home, unpins that block and keeps held buffers |
| LogCommit.Log.InstallTrans | xv6_src/kernel/log.c:66-77 | its disk images are those of Install, no block is pinned at the end, and held buffers are kept |
| LogCommit.Log.ReadHead | xv6_src/kernel/log.c:80-89 | the list in memory becomes the header block's list |
| LogCommit.Log.Recover | xv6_src/kernel/log.c:106-111 | on an empty cache its disk images are exactly those of RecoverPrefix, and it ends with an empty log |
| LogCommit.Log.Commit | xv6_src/kernel/log.c:173-181 | with any blocks held that are neither logged nor in the log area: it fails, with nothing written, exactly when logged and held blocks fill the cache; otherwise its disk images are exactly those of CommitPrefix, each recovers to the old disk before the header write and to the cached blocks from it on, at the end the blocks are home, nothing is dirty, and the held buffers are as they were |
| LogCommit.Log.Rewrite | xv6_src/kernel/log.c:187-191 | bread, log_write and brelse of a block that is not logged yet add it to the header |
| LogCommit.CommitPanics | xv6_src/kernel/log.c:160-181 | 29 blocks logged and one more held by another process: the commit panics in bget |
| GroupCommit.KeepInv | xv6_src/kernel/log.c:114-210 | every step of every process, of the committer and of a crash keeps the invariant, unless it makes the header outgrow the log area |
| GroupCommit.KeepFinish | xv6_src/kernel/log.c:147-156 | when a commit finishes, every logged write so far is durable |
| GroupCommit.CrashRecovers | xv6_src/kernel/log.c:106-181 | in every state of the invariant, a crash and any interrupted recoveries end with the writes before the cut and no others |
| GroupCommit.FittingRunsAreAtomic | xv6_src/kernel/log.c:114-210 | over every interleaving and any crashes in which the header fits: recovery yields a prefix of the logged writes that splits no operation, and all of them when no operation is in progress and the last commit has finished; committing implies nothing outstanding, and two of the panics are unreachable |
| GroupCommit.SerialFits | xv6_src/kernel/log.c:192-210 | the header fits in every run in which log_write is never entered twice at once, whatever the operations log |
| GroupCommit.OperationsAreAtomic | xv6_src/kernel/log.c:114-210 | over every interleaving and any crashes: recovery yields a prefix of the logged writes that splits no operation, and all of them when no operation is in progress and the last commit has finished; committing implies nothing outstanding, and two of the panics are unreachable; for every log area if log_write is never entered twice at once, and for operations of at most `most` blocks if the area has more than 10 + 2 `most` blocks |
| GroupCommit.WritesAreIssued | xv6_src/kernel/log.c:114-210 | between power failures the logged writes are those that the steps pass to log_write, in order, each under the number of its operation |
| GroupCommit.KeepReserved | xv6_src/kernel/log.c:114-210 | every step keeps the header plus what the operations in progress may still add within 10 + 2 `most` |
| GroupCommit.ReservationHolds | xv6_src/kernel/log.c:118-123 | over every run of operations that add at most `most` blocks, header plus what may still be added stay within 10 + 2 `most`, which is LOGSIZE for MAXOPBLOCKS |
| GroupCommit.DisciplinedFits | xv6_src/kernel/log.c:192-210 | with a larger log area than that, such a run never overruns it |
| GroupCommit.LogOverrun | xv6_src/kernel/log.c:195-205 | with 2 up to 10 + 2 `most` blocks of log area and any number of processes above one, a run of such operations that overruns it without a panic |
| GroupCommit.OverrunHitsHome | xv6_src/kernel/log.c:160-171 | committing the overrun header, write_log writes the block behind the log area |
| GroupCommit.LogAreaMustExceedPeak | xv6_src/kernel/log.c:192-210 | no run of such operations overruns the log if and only if the area has more than 10 + 2 `most` blocks, or there is at most one process, or the area has no room for a copy |
| GroupCommit.TooBigReached | xv6_src/kernel/log.c:195-196 | a run of operations within `most` blocks that ends in the panic "too big a transaction" |
| GroupCommit.TooBigIsExact | xv6_src/kernel/log.c:114-210 | for two or more processes no such run meets that panic if and only if 10 + 2 `most` is below LOGSIZE and below the number of copies |
| GroupCommit.SoloNeverTooBig | xv6_src/kernel/log.c:195-198 | an operation alone in its group never meets the panic if it logs fewer than size - 1 and fewer than LOGSIZE blocks |
| GroupCommit.AloneIsSolo | xv6_src/kernel/log.c:192-210 | operations alone in their groups whose blocks lie in sets of at most `most` blocks add at most `most` blocks |
| GroupCommit.AloneNeverPanics | xv6_src/kernel/log.c:114-210 | no run of such operations meets a panic, if `most` is below LOGSIZE and below the number of copies |
| Bytes.SetBitAt | xv6_src/kernel/fs.c:57-59 | setting bit k changes bit k and no other |
| Bytes.ClearBitAt | xv6_src/kernel/fs.c:79-82 | clearing bit k changes bit k and no other |
| Bytes.GetPut | xv6_src/kernel/fs.c:348-351 | a word written into an indirect block is read back |
| Fs.MarkAt | xv6_src/kernel/fs.c:57-59 | marking a block in the bitmap changes that block's mark and no other, across bytes and bitmap blocks |
| Fs.NoSharing | xv6_src/kernel/fs.c:332-358 | no block is referred to by two slots of any inodes |
| Fs.UsedIffReachable | xv6_src/kernel/fs.c:49-85 | a block is marked if and only if it is metadata or some inode refers to it |
| Fs.FreeCount | xv6_src/kernel/fs.c:49-69 | the free blocks number the data blocks less those that some inode refers to |
| Fs.NeedIs | xv6_src/kernel/fs.c:332-358 | how many blocks bmap allocates for a round of writei, and whether it writes the indirect block, from how far the file reaches |
| Fs.GiveDirect | xv6_src/kernel/fs.c:336-340 | filling a direct slot keeps bitmap and references in agreement |
| Fs.GiveIndirect | xv6_src/kernel/fs.c:345-346 | so does giving an inode an indirect block |
| Fs.GiveEntry | xv6_src/kernel/fs.c:348-352 | so does filling an entry of an indirect block |
| Fs.DropDirect | xv6_src/kernel/fs.c:370-375 | and freeing a direct block |
| Fs.DropEntry | xv6_src/kernel/fs.c:380-383 | and freeing an entry's block while the indirect block still names it |
| Fs.DropIndirect | xv6_src/kernel/fs.c:385-386 | and freeing the indirect block itself |
| Fs.OtherFiles | xv6_src/kernel/fs.c:430-458 | a file whose blocks kept owner and content kept its content |
| Fs.FreedExactly | xv6_src/kernel/fs.c:365-391 | the blocks that became free are exactly those of the inode |
| Fs.FileSystem.constructor | xv6_src/mkfs/mkfs.c:232-244 | the bitmap of a fresh file system marks the metadata and nothing else; every file is empty |
| Fs.FileSystem.Balloc | xv6_src/kernel/fs.c:49-69 | the lowest free block, marked and zeroed; out of blocks exactly when all are marked |
| Fs.FileSystem.Bfree | xv6_src/kernel/fs.c:72-85 | clears one mark; the panic happens exactly on a free block |
| Fs.FileSystem.Bmap | xv6_src/kernel/fs.c:332-358 | the block of file block bn; allocates exactly when missing, fails exactly when too few blocks are free, logs exactly the new blocks, their bitmap blocks and the indirect block whose entry it fills, keeps ownership and every other file |
| Fs.FileSystem.BmapDirect | xv6_src/kernel/fs.c:336-340 | the same for a direct slot |
| Fs.FileSystem.LoadIndirect | xv6_src/kernel/fs.c:344-347 | the indirect block exists afterwards, and translations are unchanged |
| Fs.FileSystem.BmapEntry | xv6_src/kernel/fs.c:347-354 | the same for an entry of the indirect block |
| Fs.FileSystem.WriteChunk | xv6_src/kernel/fs.c:446-450 | one round of writei changes exactly its bytes of the file, takes exactly the blocks it needs or fails exactly when they are not free, and logs exactly the data block, the bitmap blocks of what it took and the indirect block if it filled an entry |
| Fs.FileSystem.WriteRound | xv6_src/kernel/fs.c:446-450 | one round against the state at the start of writei: bytes, blocks taken and blocks logged so far |
| Fs.FileSystem.WriteLoop | xv6_src/kernel/fs.c:445-451 | the loop of writei, across the direct and indirect blocks; it succeeds exactly when the free blocks suffice, and what it took and logged is exact |
| Fs.FileSystem.Iupdate | xv6_src/kernel/fs.c:189-203 | the inode block agrees with the in-memory inode |
| Fs.InodePlaces | xv6_src/kernel/fs.h:28-41 | every inode has 64 bytes of its own in a block of the inode area, in the order of the numbers |
| Fs.FileSystem.Writei | xv6_src/kernel/fs.c:430-458 | content becomes c[..off] + src + c[off+n..], other files keep theirs, refused calls change nothing, refusal is exact under 32-bit wrap, out of blocks exactly when fewer are free than needed, the logged blocks are exactly the data blocks written, the bitmap blocks of those taken, the indirect block if an entry was filled and the inode block if the file grew, and the inode blocks agree with the inodes after each call although iupdate is conditional |
| Fs.FileSystem.TruncDirect | xv6_src/kernel/fs.c:370-375 | frees exactly the direct blocks; "freeing free block" is unreachable |
| Fs.FileSystem.TruncIndirect | xv6_src/kernel/fs.c:377-387 | frees exactly the indirect block and its entries; the panic is unreachable |
| Fs.FileSystem.Itrunc | xv6_src/kernel/fs.c:365-391 | exactly the inode's own blocks become free, the file is empty on disk and in memory, other files keep their contents |
| Fs.FileSystem.ReadLoop | xv6_src/kernel/fs.c:419-424 | reads the file's bytes and allocates nothing |
| Fs.FileSystem.Readi | xv6_src/kernel/fs.c:404-426 | returns c[off..min(off+n, size)], refuses exactly when off is past the end or off+n wraps, changes nothing |
| FileWrite.ChunkConstant | xv6_src/kernel/file.c:116-116 | the chunk size is the one the source computes from LOGSIZE |
| FileWrite.ChunkSpan | xv6_src/kernel/file.c:109-125 | a chunk touches at most 14 file blocks at any offset, so it logs at most 17 |
| FileWrite.WriteCost | xv6_src/kernel/fs.c:430-458 | how many blocks a write logs, exactly: data blocks in its range, one if it fills an indirect entry, one if the file grows, and the bitmap blocks; on a disk with one bitmap block a formula in offset, length and size |
| FileWrite.WithinReservation | xv6_src/kernel/file.c:110-116 | a write logs at most MAXOPBLOCKS blocks if and only if it touches at most 10, 9, 8 or 7 file blocks, depending on whether it stays in the file, in its last block, in the direct blocks or not |
| FileWrite.OpenFile.Transaction | xv6_src/kernel/file.c:123-128 | one chunk: it succeeds exactly when offset, size and free blocks allow it, logs exactly that many blocks, patches the content and advances the offset, or changes nothing |
| FileWrite.OpenFile.NextChunk | xv6_src/kernel/file.c:118-135 | one round of the loop: progress, or a failure that decides the outcome of the whole write |
| FileWrite.OpenFile.Filewrite | xv6_src/kernel/file.c:102-139 | which of done, -1, a panic and a device call it is, exactly, from type, offset, size, length and free blocks at the start, so a write that fits is done; how far a write that fails gets; however it is cut up, the content is that of one write of everything, or of the bytes before the refused chunk; each transaction logs at most 16 blocks and the bitmap, and with one bitmap block exactly the number the formula gives for its chunk |
| FileWrite.ChunksNeverPanic | xv6_src/kernel/file.c:118-135 | in the log that mkfs makes, no run of filewrite's transactions, each alone in its group, meets a panic |
| FileWrite.SeventeenBlocks | xv6_src/kernel/file.c:109-136 | 100 bytes and then a full chunk behind them, on a fresh file system: the chunk logs 17 blocks |
| Dir.Namecmp | xv6_src/kernel/fs.c:463-463 | 0 exactly for names with the same bytes up to the terminator or 14 bytes |
| Dir.Strncpy | xv6_src/kernel/string.c:58-67 | the 14 bytes stored mean the same name |
| Dir.DirMapAt | xv6_src/kernel/fs.c:467-489 | with unique names, the map has a name exactly when a slot holds it, with that slot's inode number |
| Dir.WithSlotAt | xv6_src/kernel/fs.c:511-513 | writing an entry changes that slot and no other, in place or at the end |
| Dir.LinkMap | xv6_src/kernel/fs.c:492-517 | an entry in a free place adds one name to the map, keeps names unique and disturbs no other |
| Dir.ClearMap | xv6_src/kernel/sysfile.c:184-197 | clearing an entry removes exactly the name it held |
| Dir.LinkReadsBack | xv6_src/kernel/fs.c:511-513 | a linked name reads back its inode number if and only if the number is between 1 and 65535 |
| Dir.Directory.ReadEntry | xv6_src/kernel/fs.c:475-476 | one entry's bytes, with nothing changed |
| Dir.Directory.DirLookup | xv6_src/kernel/fs.c:467-489 | finds a name exactly when the map has it, with the inode number and offset of its entry |
| Dir.Directory.FreeSlot | xv6_src/kernel/fs.c:503-509 | the lowest empty slot, or the end of a directory whose slots are all taken |
| Dir.Directory.WriteEntry | xv6_src/kernel/fs.c:511-514 | the directory with that one entry written, all other files unchanged; it fails exactly at the maximal size or without the blocks it needs |
| Dir.Directory.DirLink | xv6_src/kernel/fs.c:492-517 | refused, with nothing changed, exactly when the map has the name; panics exactly when every slot is taken and the directory cannot grow; otherwise the map gains the name and other files keep their contents |
| Dir.Directory.ClearEntry | xv6_src/kernel/sysfile.c:184-197 | the map loses that name and nothing else; the panic is unreachable, also on a full disk |
| Vm.WithWordLookup | xv6_src/kernel/vm.c:43-84 | writing one page-table word changes the translation of that page only |
| Vm.AddTable | xv6_src/kernel/vm.c:51-58 | a fresh zeroed table, whose directory entry is writable and open to user code, changes no translation and keeps every frame in one role |
| Vm.SetUser | xv6_src/kernel/vm.c:71-83 | mapping a fresh frame keeps every frame in one role, none free and none forgotten |
| Vm.ClearUser | xv6_src/kernel/vm.c:241-248 | unmapping and freeing a page does so too, and changes that page's translation only |
| Vm.Machine.Kalloc | xv6_src/kernel/kalloc.c:74-85 | the first free frame, or nothing exactly when none is free |
| Vm.Machine.Walk | xv6_src/kernel/vm.c:43-61 | the page's table exists afterwards, no other table is new and no translation has changed; fails exactly when the table is missing and may not or cannot be allocated |
| Vm.Machine.MapPage | xv6_src/kernel/vm.c:73-77 | one page translates to its frame, all others as before; the panic exactly on a mapped page |
| Vm.Machine.Mappages | xv6_src/kernel/vm.c:66-84 | page after page of the range translates to frame after frame, all others as before, and exactly the tables of the range are there; "remap" only if a page of the range was mapped; out of memory only with no frame free and a table of the range missing |
| Vm.Machine.Setupkvm | xv6_src/kernel/vm.c:109-136 | by address: physical memory below PHYSTOP appears at KERNBASE, devices at their own addresses, nothing is open to user code, only the text is read-only, and there is no other page; fails exactly with fewer than 65 free frames; "remap" is unreachable |
| Vm.Machine.MapRegion | xv6_src/kernel/vm.c:130-134 | one line of the kernel's map: the region is mapped and its tables are there, or there are fewer than 65 frames in all |
| Vm.KernelByAddress | xv6_src/kernel/vm.c:86-119 | the four regions of the table, read by address: frame, user access and write access of every kernel address |
| Vm.RegionsDisjoint | xv6_src/kernel/vm.c:109-119 | no page lies in two kernel regions, wherever the kernel's text ends |
| Vm.Machine.FreePage | xv6_src/kernel/vm.c:241-248 | a mapped page's frame is free and filled with junk, and only that page lost its translation |
| Vm.Machine.Deallocuvm | xv6_src/kernel/vm.c:229-251 | exactly which pages lose their translation; their frames, and no others, become free |
| Vm.NothingJumped | xv6_src/kernel/vm.c:236-240 | deallocuvm jumps over no page if the range starts on a 4 MB boundary or the tables have no hole |
| Vm.NoHole | xv6_src/kernel/vm.c:236-240 | nor over a page of an image whose pages below its size are all mapped, from any start |
| Vm.PageJumped | xv6_src/kernel/vm.c:236-240 | a well-formed directory and a start from which it jumps over a mapped page |
| Vm.Machine.Freevm | xv6_src/kernel/vm.c:255-268 | every frame of the directory, and nothing else, is back on the free list, once |
| Vm.Machine.CopyPage | xv6_src/kernel/vm.c:298-302 | the child's page has a fresh frame with the same bytes and flags; "remap" is unreachable; fails only with no free frame, or with one and the table missing |
| Vm.Machine.Copyuvm | xv6_src/kernel/vm.c:283-309 | each page below sz translates in the child to its own formerly free frame with the parent's bytes and flags, addresses above as in a fresh kernel directory; frames in use, hence the parent, are unchanged; deallocuvm on the child jumps over no page; success, panic and failure are exact in the number of free frames and the first page that the parent lacks, and so is the number of frames left, after a failure too |
| Vm.Machine.CopyAndFree | xv6_src/kernel/proc.c:166-171 | a child forked, and its directory freed as wait does: the pool has exactly the frames it had before, and no frame in use was written; after a failure, how many frames are lost |
| Vm.Census | xv6_src/kernel/vm.c:43-136 | the frames of a directory are one for itself, one for each table and one for each user page |
| Vm.FramesTaken | xv6_src/kernel/vm.c:123-309 | an address space with n user pages has taken 65 frames, one for each 1024 pages or part of them, and n |
| Vm.TooFew | xv6_src/kernel/vm.c:123-136 | setupkvm runs out of memory only with fewer than 65 frames |
| Vm.FramesLost | xv6_src/kernel/vm.c:123-309 | with ten free frames, a copy fails and leaves none free |
| ProcTable.ExitedAt | xv6_src/kernel/proc.c:223-238 | exit slot by slot: children go to init, the parent is awake, and so is init if it inherits a zombie, and nobody else is woken |
| ProcTable.KeepFork | xv6_src/kernel/proc.c:70-198 | the steps of fork keep the invariant, between its unlocked writes too |
| ProcTable.KeepScan | xv6_src/kernel/proc.c:245-282 | a scan of wait keeps it |
| ProcTable.KeepExit | xv6_src/kernel/proc.c:203-241 | exit keeps it |
| ProcTable.KeepInv | xv6_src/kernel/proc.c:70-446 | every step keeps it |
| ProcTable.ProcessTree | xv6_src/kernel/proc.c:70-282 | in every reachable table parents are alive, every process but init has one, pids in use are distinct, no pid is reaped twice, and whoever sleeps in wait has a child, no zombie child and has not been killed |
| ProcTable.WakesExactly | xv6_src/kernel/proc.c:203-446 | a sleeper becomes runnable exactly when its channel is woken, kill finds it first, or, in wait, a child exits or init inherits a zombie |
| ProcTable.OffAndOn | xv6_src/kernel/proc.c:348-425 | sleep and yield take a process off the processor, and after a wakeup of its channel and the scheduler it is as it was |
| ProcTable.ForkMakesChild | xv6_src/kernel/proc.c:70-198 | fork as a whole: the lowest unused slot becomes a runnable child with the next pid, and nothing else changes |
| ProcTable.ForkWithoutSlot | xv6_src/kernel/proc.c:74-79 | fork finds no slot exactly when all are in use, and then changes nothing |
| ProcTable.BornKilled | xv6_src/kernel/proc.c:430-446 | a run in which fork gets a process that is already killed |
| ProcTable.StainIsExact | xv6_src/kernel/proc.c:70-446 | an unused slot comes to carry the killed flag if and only if kill hits an unused slot or a fork that fails gives up a killed one |
| ProcTable.BornAlive | xv6_src/kernel/proc.c:70-109 | in a run without those two, fork never gets a killed process |
| ProcTable.Slots.Wakeup1 | xv6_src/kernel/proc.c:412-418 | exactly the sleepers on the channel become runnable, and nothing else changes |
| ProcTable.Slots.WaitScan | xv6_src/kernel/proc.c:249-281 | reaps exactly when there is a zombie child, the lowest one; fails exactly when there is none and the process has no child or is killed; sleeps on itself otherwise; it is the machine's Wait step |
| ProcTable.Slots.KillPid | xv6_src/kernel/proc.c:430-446 | the lowest slot with the pid is marked, and runnable if it was asleep, and nothing else changes; found exactly when a slot has the pid; it is the machine's Kill step |
| ProcTable.Slots.ExitProc | xv6_src/kernel/proc.c:223-238 | the two wakeups, the adoption loop and the zombie state are the machine's Exit step |
| Pipe.TestsAreExact | xv6_src/kernel/pipe.c:78-105 | the full and empty tests are exact after the counters have wrapped |
| Pipe.PutAppends | xv6_src/kernel/pipe.c:86-86 | storing a byte appends it to the contents, across both wraps |
| Pipe.DropRemovesFront | xv6_src/kernel/pipe.c:107-107 | reading removes the oldest byte |
| Pipe.KeepFifo | xv6_src/kernel/pipe.c:56-112 | every step keeps: bytes stored = bytes taken + contents |
| Pipe.KeepLocal | xv6_src/kernel/proc.c:376-425 | every step keeps lock ownership, and a process going to sleep still sees its condition |
| Pipe.KeepOwed | xv6_src/kernel/pipe.c:56-112 | every step but the early return of a killed writer keeps: whoever sleeps although its condition holds is owed a wakeup by the lock holder |
| Pipe.PipeIsFifo | xv6_src/kernel/pipe.c:73-112 | in every run the bytes read are a prefix of the bytes written, and the rest, at most 512, is in the ring |
| Pipe.KeepCalls | xv6_src/kernel/pipe.c:56-112 | every step keeps: a writer has stored the first bytes of its source, a reader has taken exactly the bytes in its buffer |
| Pipe.CallsGetTheirBytes | xv6_src/kernel/pipe.c:56-112 | in every run, for every call that was started: a write has stored a prefix of its source and returns its length exactly when that is all of it, a read hands out the bytes it took, in order and no more than it asked for, stops short only on an empty pipe, and returns 0 only at the end of the file; a finished close has closed its end |
| Pipe.KilledReturns | xv6_src/kernel/pipe.c:73-103 | a process asleep in the pipe that is killed returns -1 on its next steps, with the pipe as it was |
| Pipe.NoLostWakeup | xv6_src/kernel/pipe.c:56-112 | when the pipe lock is free no reader sleeps with data or a closed end, no writer with room or a closed end, in every run without the early return |
| Pipe.LossIsExact | xv6_src/kernel/pipe.c:79-82 | a step loses a wakeup if and only if it is that early return with a reader parked |
| Pipe.WakeupLost | xv6_src/kernel/pipe.c:78-85 | a run that ends with the lock free, 512 bytes in the pipe and a reader asleep |
| Pipe.PipeBuffer.constructor | xv6_src/kernel/pipe.c:30-34 | an empty pipe |
| Pipe.PipeBuffer.CopyIn | xv6_src/kernel/pipe.c:77-87 | stores bytes in order until the source or the room ends |
| Pipe.PipeBuffer.CopyOut | xv6_src/kernel/pipe.c:104-108 | takes the oldest min(n, count) bytes in order |
| Heap.NUnitsEnough | xv6_src/user/umalloc.c:63-63 | the unit count covers the request if and only if the request is at most 2^32 - 8 |
| Heap.SbrkArgument | xv6_src/user/umalloc.c:48-50 | sbrk receives the byte count that morecore meant if and only if the request is at most 2^31 - 16 or above 2^32 - 8; otherwise the kernel sees a count that is not positive |
| Heap.SearchTest | xv6_src/user/umalloc.c:28-30 | the two-sided test of free's search succeeds at exactly one place of the ring |
| Heap.FreeLinks | xv6_src/user/umalloc.c:31-40 | linking a freed block keeps the list circular, sorted, disjoint and coalesced |
| Heap.FreeMerges | xv6_src/user/umalloc.c:31-40 | so does merging it with its lower neighbour |
| Heap.TakeWhole | xv6_src/user/umalloc.c:70-71 | so does handing out a block of exact size |
| Heap.TakeTail | xv6_src/user/umalloc.c:72-76 | so does handing out the tail of a larger one |
| Heap.GrowHeap | xv6_src/user/umalloc.c:50-55 | units fresh from sbrk are a block in use that overlaps no other |
| Heap.LapEnd | xv6_src/user/umalloc.c:80-82 | a finished lap has seen every block too small, and no lap finishes after morecore has succeeded |
| Heap.Allocator.constructor | xv6_src/user/umalloc.c:21-22 | an empty heap |
| Heap.Allocator.Free | xv6_src/user/umalloc.c:24-42 | the search ends, the block's units are in one free block, the list is sorted, circular, coalesced, free and live units add up to those obtained, no live unit is touched |
| Heap.Allocator.FreeAt | xv6_src/user/umalloc.c:31-41 | both merges, from the right place |
| Heap.Allocator.Sbrk | xv6_src/kernel/proc.c:140-154 | growing delivers fresh units at the old end, or refuses exactly at the kernel's base or without memory; a count that is not positive delivers none and may take units away |
| Heap.Allocator.Morecore | xv6_src/user/umalloc.c:44-57 | the new units, at least 4096, are free and large enough; nothing changes if sbrk refuses; and exactly for a count that is not positive, the unit where the header would go is not in memory |
| Heap.Allocator.Take | xv6_src/user/umalloc.c:69-79 | the block handed out has the requested size and was free |
| Heap.Allocator.Malloc | xv6_src/user/umalloc.c:59-84 | a new live block of the requested units that overlaps no other; 0 exactly when nothing fits and sbrk refuses; sbrk called at most once and only when nothing fits; all this except exactly when nothing fits and the request is above 2^31 - 16 and up to 2^32 - 8 |
| Heap.Allocator.Search | xv6_src/user/umalloc.c:68-83 | the search loop ends, also on the lap after morecore, with malloc's result |
| ShellGrammar.UnitRead | xv6_src/user/sh.c:591-634 | a printed command, with its redirections or parentheses, is read back by parseexec and parseblock |
| ShellGrammar.PipeRead | xv6_src/user/sh.c:557-566 | a printed pipeline is read back by parsepipe |
| ShellGrammar.HeadRead | xv6_src/user/sh.c:542-549 | a printed job with its ampersands is read back by parseline's loop |
| ShellGrammar.LineRead | xv6_src/user/sh.c:542-555 | a printed line is read back by parseline |
| ShellGrammar.LexText | xv6_src/user/sh.c:469-510 | the tokens of a text are the tokens it was made of |
| ShellGrammar.RoundTrip | xv6_src/user/sh.c:469-634 | every command the grammar can build (at most nine arguments each) is read back from its text as itself |
| ShellGrammar.ParsedIsBuildable | xv6_src/user/sh.c:527-634 | the parser builds nothing else, and reading the printed form of what it accepted gives the same command |
| ShellLexing.LexSpaced | xv6_src/user/sh.c:466-510 | tokens with gaps of white space around them, a gap being needed only where two of them would run together, are read back |
| ShellLexing.LexGaps | xv6_src/user/sh.c:466-510 | every line is its tokens with such gaps |
| ShellLexing.TokensAreExact | xv6_src/user/sh.c:466-510 | the tokens of a line are exactly those it can be spaced out from |
| ShellForms.UnitSound | xv6_src/user/sh.c:568-634 | a command written in any way, words and redirections in any order, is read as what it means |
| ShellForms.LineSound | xv6_src/user/sh.c:542-634 | and so is a line, with any parentheses |
| ShellForms.UnitComplete | xv6_src/user/sh.c:568-634 | whatever is read as a command was written in one of those ways |
| ShellForms.LineComplete | xv6_src/user/sh.c:542-634 | and so was every line |
| ShellForms.FormIsRead | xv6_src/user/sh.c:527-634 | a command line that spells a form is parsed as the form's meaning |
| ShellForms.AcceptedIffForm | xv6_src/user/sh.c:527-634 | the shell accepts a line if and only if it spells a form within the argument limit |
| ShellForms.AnyOrder | xv6_src/user/sh.c:605-634 | redirections before and between the words of a command do not change its words or their own order |
| ShellForms.Redirected | xv6_src/user/sh.c:568-589 | what each of <, > and >> adds to any command: read-only as descriptor 0, or created and written as descriptor 1 |
| Shell.GetToken | xv6_src/user/sh.c:469-510 | consumes exactly the first token, reports its kind, and for a word its exact extent |
| Shell.Peek | xv6_src/user/sh.c:512-520 | skips blanks only, and tells whether the next token starts with one of the characters |
| Shell.ParseRedirs | xv6_src/user/sh.c:568-589 | the grammar's redirections, or its error |
| Shell.ParseExec | xv6_src/user/sh.c:605-634 | the grammar's command, or its error |
| Shell.ParseBlock | xv6_src/user/sh.c:591-603 | the grammar's block, or its error; the panic "parseblock" is unreachable |
| Shell.ParsePipe | xv6_src/user/sh.c:557-566 | the grammar's pipeline, or its error |
| Shell.ParseLine | xv6_src/user/sh.c:542-555 | the grammar's line, or its error; parsing ends because the remaining text shrinks |
| Shell.Nulterminate | xv6_src/user/sh.c:637-679 | every word of the tree ends with a NUL, and NULs fall outside words only |
| Shell.WordReads | xv6_src/user/sh.c:637-679 | a terminated word reads as exactly its token, whatever other words were terminated |
| Shell.ParseCmd | xv6_src/user/sh.c:527-540 | the tree of C strings in the buffer is the grammar's tree of the line; an error exactly when the grammar has it, with the buffer unchanged |
| Regex.PrintParse | xv6_src/user/grep.c:79-89 | reading a pattern forgets none of it |
| Regex.ParsePrint | xv6_src/user/grep.c:79-89 | every pattern that a text can express is read back as itself |
| Regex.Match | xv6_src/user/grep.c:68-76 | 1 if and only if some substring, as the anchors allow, is a concatenation of strings that the pattern's items denote |
| Regex.MatchHere | xv6_src/user/grep.c:79-89 | 1 if and only if some prefix is, the whole text if the pattern ends in an anchor |
| Regex.MatchStar | xv6_src/user/grep.c:92-98 | 1 if and only if some run of the character is followed by such a prefix |
| Trace.DecimalReads | xv6_src/kernel/strace.c:79-118 | the text of a number reads back as the number if and only if it is not -2^31 |
| Trace.DecimalChars | xv6_src/kernel/strace.c:79-118 | at most 11 characters, no blank and no NUL |
| Trace.Reverse | xv6_src/kernel/strace.c:64-77 | reverses the prefix in place and leaves the rest |
| Trace.WriteDigits | xv6_src/kernel/strace.c:100-106 | the digits, lowest first, for either sign |
| Trace.Itoa | xv6_src/kernel/strace.c:79-118 | leaves that text in the buffer |
| Trace.Strcat | xv6_src/kernel/strace.c:26-44 | the C string in the buffer is the old one followed by the source |
| Trace.LineFits | xv6_src/kernel/syscall.c:149-162 | a record's line leaves room in a 1000-byte row |
| Trace.LineReads | xv6_src/kernel/syscall.c:149-162 | pid and return value can be read off the line whatever the names, exactly for numbers other than -2^31 |
| Trace.LineNames | xv6_src/kernel/syscall.c:149-162 | the names can be read off the line: the system call's exactly when it has no blank, and then the command's whatever it is |
| Trace.WriteTrace | xv6_src/kernel/syscall.c:149-162 | appends exactly that line |
| Trace.OneSlotEach | xv6_src/kernel/syscall.c:264-272 | each of the last ten records is the newest of its slot |
| Trace.Tracer.constructor | xv6_src/kernel/strace.c:4-23 | nothing recorded, no filter |
| Trace.Tracer.SetOptions | xv6_src/kernel/proc.c:494-500 | the history gains the option setting; the ring is kept |
| Trace.Tracer.SetCallFlag | xv6_src/kernel/proc.c:478-481 | the history gains the watched call; the ring is kept |
| Trace.Tracer.StoreTrace | xv6_src/kernel/syscall.c:164-240 | the slot's row holds the message, the other rows are kept |
| Trace.Tracer.Insert | xv6_src/kernel/syscall.c:341-350 | the record is in slot k mod 10, callcount is one past it, the other slots keep their newest record |
| Trace.Tracer.RecordSyscall | xv6_src/kernel/syscall.c:242-352 | after any history of calls and settings the ring holds exactly the last min(k, 10) records that one filter predicate accepts |
| Trace.Tracer.Dump | xv6_src/kernel/proc.c:483-492 | the line of the newest accepted record of that slot |

## Left out

- Hardware: drivers, boot code, traps, interrupt masking and `swtch`; the disk is a sequence of blocks with atomic reads and writes, and a lock's acquire and release are steps.
- A second disk device: a buffer belongs to no device or to the root device.
- The sleep inside `bget` and `begin_op`: the step that would sleep is reported, or not enabled, and the retry is a new call.
- The inode cache, path lookup and link counts: `iget`, `iput`, `ialloc`, `namex`, `sys_link`, `create`.
- The byte layout of an inode on disk: an inode block's inodes are kept as a second sequence of inode records.
- Device reads and writes: `readi` and `writei` report that the call goes to a driver.
- Fs.FileSystem.Bmap: file block numbers of 140 and above, for which the source panics, are excluded by a precondition; `readi` and `writei` never pass one.
- FileWrite.OpenFile.Filewrite: the logged blocks are those of a transaction alone in its group; in a shared group a block may be in the log already.
- LogCommit.Log.Commit: what other processes hold does not change during the call, and is neither logged nor in the log area; for a held block that is logged, the source sleeps until its holder releases it.
- LogCommit.Log.LogWrite: guard and append are one step here; the unlocked guard is a step of its own in GroupCommit.
- BufCache.Bcache.Brelse: a holder that changed the data has logged or written it before it releases the buffer, which is the protocol that log.c states.
- BufCache.Bcache.Iderw: the driver's request queue and the sleep until the interrupt are one atomic transfer.
- Dir.Directory.ClearEntry: models the clearing of an entry found by dirlookup, not the rest of unlink.
- `allocuvm`, `loaduvm`, `inituvm`, `copyout`, `switchuvm`, and the carrying of `traced`, open files and registers through fork.
- Vm.Machine.Mappages: user mappings are of one page each, as `copyuvm` makes them; longer ranges are above KERNBASE.
- The wrap of `nextpid`: process ids are unbounded integers.
- Scheduling fairness: that a woken process runs eventually.
- Heap.Allocator.Malloc: after `morecore` has been led to store a header outside the process's memory, the model stops; the size of the process at the call of sbrk, at or above the end of the heap, is a parameter, as other code may call sbrk too.
- The exec node of the shell's tree is built after its redirections have been read; the source fills it in place through a pointer that the redirections already wrap.
- The shell's main loop, `runcmd`, option handling, and listing of the trace; memory running out in the parser.
- The line loop of `grep` that feeds the matcher.
- Trace.Itoa: base ten only, which is the only base in use.
- Trace.Tracer.RecordSyscall: the copy printed on the console, and the copy of the command name, are not modelled; names have at most 31 characters.
- Trace.Tracer.Dump: only slots that have been filled; the source would follow a null pointer for the others.
