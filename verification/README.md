# Verified model of the xv6 core

This project models the parts of xv6 (x86) whose correctness is hard to see from the code and proves what they
promise: the crash-safe storage stack, processes and their synchronisation, memory management, and the shell's
parser. `dafny verify dfyconfig.toml` checks everything.

Code that works by changing things in place is a class or a method with loops (`Log`, `FileSystem`, `Cache`,
`Queue`, `ProcessTable`, `Pipe`, `Allocator`, `Vm`, `Parser`), proved against specification functions. Protocols
with several processes or with crashes are state machines whose steps are the lock-protected sections or the
single block writes of the code; their theorems hold for every run.

## What is modelled

**Redo log** (`Machine`, `Blocks`, `RedoLog`, `CrashAtomicity`, `LogRuns`, `LogSafety`, `LogQuota`, `LogCode`).
The disk is a sequence of 512-byte blocks; one block write is one atomic step. `RedoLog` gives the writes that
commit and recovery issue, down to the bytes of the header block. `CrashAtomicity` cuts a commit after any
write, then recovery any number of times after any write. `LogRuns` lets any number of operations interleave
begin_op, log_write and end_op with cache traffic, commits and crashes; `LogSafety` proves that a crash at any
point leaves the boot image plus a whole number of operations, which is what the cache showed at an earlier
moment when no operation was under way; so whatever holds of the home blocks at all such moments holds after
every crash. `LogQuota` shows that begin_op's reservation protects log_write exactly when the log region has
more than LOGSIZE blocks; mkfs.c:25 makes it LOGSIZE blocks, so on such a disk three operations within their
reservations can reach the "too big a transaction" panic. A chunk of filewrite may log more blocks than begin_op
reserves, and on a disk with any log two such operations can reach that panic (`TwoChunksPanic`). `LogCode` is
log.c as code and is proved to issue exactly the writes of `RedoLog`.

**Buffer cache** (`BufRing`, `BufCache`, `BufCode`, `BufRuns`). Over the driver of memide.c (`MemIde`): the
doubly linked ring in arrays, bget's two scans, and the block map that cache and disk stand for. Buffers that
were never used all carry the same identity, so uniqueness is stated for real devices. `BufRuns` lets any number
of processes call bread, bwrite and brelse: from its bget to its brelse a buffer has one holder, whoever sleeps
in bget sleeps on a buffer that is held, and a holder reads what was last stored in the block.

**Disk driver** (`IdeQueue`). The interrupt-driven queue of ide.c over an abstract disk refines the synchronous
iderw of memide.c.

**File system blocks** (`FsLayout`, `DiskInode`, `Ownership`, `FileContents`, `FsCode`, `FileSpan`, `FileIo`,
`FileRead`, `FileWrite`, `FileHole`, `FsCrash`). Bitmap bits, inodes packed in their blocks, direct and indirect
slots and the owner of every block; balloc, bfree, bmap, itrunc, iput, iupdate, readi, writei and the chunking
of filewrite. When they run out of blocks is stated exactly, by counting the clear bits of the map. writei
stores the inode only when the file grows: `StoredIff` says exactly when the inode on disk is then not the one
in memory, and `FillHole` makes such a call, after which the disk has a block that nobody owns. `FsCrash` joins
the two halves: ownership that holds on disk whenever no operation is under way holds after every crash.

**Processes** (`SleepWakeup`, `ProcTable`, `ProcCode`, `ProcTree`). sleep and wakeup lock step by lock step for
any number of processes; the table scans of allocproc, exit, wait, kill and wakeup1, each stated slot by slot;
the process tree over every run. A process asleep in wait always has a child that is alive.

**Pipes** (`PipeRing`, `PipeRuns`). The ring with its wrapping 32-bit counters; any number of readers and
writers. Once the write end is closed, reads return what is left and then end of file. A killed writer returns
without waking readers (pipe.c:85-88); `LiveIffNotStranding` shows that this is the one step that can leave a
reader asleep beside data, and `KilledWriterStrands` gives a run where it happens.

**User allocator** (`FreeList`, `Heap`, `Malloc`). The circular free list of umalloc.c, spelled out by the ptr
and size fields of headers in memory. Requests above 2^31 - 16 bytes make morecore ask sbrk to shrink;
`Allocate` says exactly when what malloc has is then not inside the process, and `HugeRequest` makes such a
call.

**Virtual memory** (`PageTable`, `AddressSpace`, `SpaceGrowth`, `UserPages`, `CopySpace`, `UserMemory`,
`VmCode`, `SpaceSize`, `FrameNeed`, `FrameLedger`, `KernelHalf`, `FrameCalls`). Physical pages are free, tables
of 1024 entries, or data; a two-level table stands for a flat page map (section 4.3 of the Intel 64 and IA-32
Architectures Software Developer's Manual, Volume 3A). deallocuvm skips 4MB from where it is when a table is
absent: `ReachesAllIff` says exactly when it then misses a page, and `SkipCanMiss` shows one. allocuvm ignores
mappages' result: `AllocOutcome` says exactly when a frame is lost and when the call reports success with its
last page unmapped, and `FalseSuccess` makes such a call. setupkvm gives nothing back when it fails, and copyuvm
loses the frame of a page whose table it cannot allocate: `CopyOutcome` says which happens from the number of
free pages alone. `FrameLedger` puts the calls together: from boot on, through any sequence of them on any
number of address spaces, each page is free, taken by the kernel for itself (kernel stacks, pipes), in exactly
one address space, or one of the lost ones. `KernelHalf` proves of the same runs that every address space maps
the kernel exactly as kmap says. `FrameCalls` shows that the procedures are such calls.

**exec's stack** (`ExecStack`). Argument strings, the argv vector and the guard page below them.

**Shell parser** (`ShellSyntax`, `ShellParse`, `ShellBuffer`, `ShellGrammar`, `ShellSound`, `ShellAccept`,
`ShellPrint`, `ShellRoundTrip`). The parser as functions of the line, the cursor-driven procedures that compute
them, and nulterminate on the line buffer. `ShellGrammar` says what a command line is, by derivation trees over
tokens; the parser accepts exactly the lines that have a derivation, with the command it stands for, and every
panic is traced to tokens of the line. And the round trip: a tree is the parse of some line exactly when its
words are words and no command has more than nine, and then it is the parse of its printed form whichever arrow,
`>` or `>>`, is written for each output file.

## Model

| member | source | states |
|---|---|---|
| `Blocks.WordRoundTrip` | log.c:101-112 | a 32-bit word stored in a block reads back and no other word of the block moves |
| `RedoLog.HeaderRoundTrip` | log.c:84-112 | what write_head stores, read_head reads back |
| `RedoLog.ApplyHits` | log.c:68-81 | of several writes to a block the last one wins |
| `RedoLog.ApplyMisses` | log.c:68-81 | a list of writes changes no block it does not name |
| `CrashAtomicity.RecoverInstalls` | log.c:114-121 | recovery copies a log slot to the home block the header names |
| `CrashAtomicity.LogSlots` | log.c:175-187 | after the first k writes of write_log the first k slots hold the first k logged blocks, in order, and the header and all home blocks are unchanged |
| `CrashAtomicity.RecoverMisses` | log.c:114-121 | recovery changes no home block the header does not name |
| `CrashAtomicity.RecoveredIsFixed` | log.c:114-121 | after recovery the log is empty and recovering again changes nothing |
| `CrashAtomicity.RecoveryIdempotent` | log.c:114-121 | recovery cut after any of its writes and run again gives the uncut result |
| `CrashAtomicity.InterruptedRecoveries` | log.c:114-121 | the same for any number of cut recoveries |
| `CrashAtomicity.CommitEndsAsRecovery` | log.c:189-199 | after the first header write commit issues exactly recovery's writes |
| `CrashAtomicity.CommitIsAtomic` | log.c:189-199 | commit cut anywhere, recovery cut anywhere any number of times: every home block is new or every one old, and new exactly when the first header write reached the disk |
| `LogSafety.StepKeeps` | log.c:124-230 | the invariant of the logging system is kept by begin_op, log_write, end_op, every block write, cache traffic, crashes and recovery |
| `LogSafety.RunsAreCrashSafe` | log.c:124-230 | stop any run anywhere, crash, cut recovery: the disk is the boot image plus the committed log_writes, every operation is wholly in or out, the cache shows all log_writes, commit overlaps no operation, and the "log.committing" and "outside of trans" panics are unreachable |
| `LogSafety.DurableStep` | log.c:189-199 | only a commit's header write makes log_writes durable; it makes all of them so, with no operation under way |
| `LogSafety.CrashesLandOnQuiet` | log.c:114-199 | after a crash anywhere and recovery cut anywhere, the home blocks are those the cache showed at an earlier state of the same run with no operation under way, or the boot image's |
| `LogSafety.QuietPropertiesSurvive` | log.c:114-199 | a property of home blocks that holds of the boot image and whenever no operation is under way holds after every crash |
| `LogSafety.CommittedStays` | log.c:144-199 | a committed log_write is never lost, whatever runs or crashes follow |
| `LogSafety.HomeWritesFollowCommit` | log.c:189-199 | a home block changes on disk only after a header naming it is there |
| `LogSafety.CommitMakesDurable` | log.c:144-171 | when the committing end_op is done every log_write so far is on disk |
| `LogQuota.QuotaMeansRoom` | log.c:124-140 | an operation with reserved slots left finds the log below LOGSIZE |
| `LogQuota.ReservationHolds` | log.c:124-140 | in every run in which operations stay within MAXOPBLOCKS slots, slots taken plus slots reserved never exceed LOGSIZE and nothing panics, given log.size > LOGSIZE |
| `LogQuota.SmallLogPanics` | log.c:210-216 | with a log region of LOGSIZE blocks or fewer some such run panics |
| `LogQuota.AbsorbedWriteCanPanic` | log.c:210-230 | in a full log even logging an already logged block again panics, because the guard runs before the absorption scan |
| `LogQuota.ReservationIffRoom` | log.c:124-140 | no run within the reservations panics if and only if the log region has more than LOGSIZE blocks |
| `LogQuota.TwoChunksPanic` | file.c:134-143 | with a log of any size, two operations that begin_op admits and that log no more blocks than a chunk of filewrite may can reach the "too big a transaction" panic |
| `LogCode.Log.TryBeginOp` | log.c:124-140 | one pass of begin_op admits the operation exactly when no commit runs and ten blocks for each operation, this one included, fit in the thirty of the log beside those already there |
| `LogCode.Log.LogWrite` | log.c:210-230 | which panic, by the numbers; or a block already in the log is absorbed, a new one is appended, and its buffer is pinned |
| `LogCode.Log.WriteHead` | log.c:100-112 | writes the header that carries the in-memory block numbers, nothing else |
| `LogCode.Log.WriteLog` | log.c:174-187 | copies the cached contents of each logged block to its slot, in order |
| `LogCode.Log.InstallTrans` | log.c:68-81 | copies each slot to its home block, in order, and leaves no buffer pinned |
| `LogCode.Log.Commit` | log.c:189-199 | the writes issued are exactly those the atomicity theorem is about |
| `LogCode.Log.ReadHead` | log.c:84-95 | the in-memory block numbers become the header's |
| `LogCode.Log.RecoverFromLog` | log.c:114-121 | the writes issued are exactly recovery's, and the disk is the recovered one |
| `LogCode.Log.EndOp` | log.c:144-171 | the last operation out commits, others write nothing; panics only during a commit |
| `BufRing.UnlinkLinked` | bio.c:123-142 | unlinking a buffer leaves a closed ring of the others in the same order |
| `BufRing.RelinkLinked` | bio.c:123-142 | linking a buffer in after the head gives the ring with it in front |
| `BufCache.RecycleKeeps` | bio.c:62-96 | giving an idle clean buffer to another block keeps one buffer per block and changes no block's contents |
| `BufCache.PutView` | bio.c:112-119 | changing one buffer changes the block map at its block only |
| `BufCache.Chosen` | bio.c:62-96 | which buffer bget chooses, or why none, stated by the buffers' fields alone, in both directions |
| `BufCode.Cache.constructor` | bio.c:39-57 | binit's ring holds every buffer once and none holds a block |
| `BufCode.Cache.Bget` | bio.c:62-96 | by the buffers' fields: returns an idle buffer of the block when there is one, waits exactly when a buffer of the block is busy, otherwise recycles the idle clean buffer released longest ago, and fails exactly when all are busy or dirty; only that buffer changes; the block map is unchanged |
| `BufCode.Cache.Recycle` | bio.c:83-95 | the second scan finds the reusable buffer released longest ago |
| `BufCode.Cache.Bread` | bio.c:99-109 | never returns a buffer that was busy and waits exactly when a busy buffer has the block; otherwise the last contents written or logged, in a busy buffer; the driver does not panic and writes nothing |
| `BufCode.Cache.Iderw` | memide.c:37-59 | panics exactly when the buffer is not busy, there is nothing to do or the block does not exist; otherwise buffer and disk agree, the disk having changed only for a dirty buffer |
| `BufCode.Cache.Bwrite` | bio.c:112-119 | the disk block becomes the buffer's contents and the buffer clean and valid; if it was valid no block's contents change |
| `BufCode.Cache.Brelse` | bio.c:123-142 | the buffer is idle and first in the ring, the others keep their order |
| `BufCode.Cache.Modify` | log.c:182-182 | the holder of a buffer changes its block in the block map and no other |
| `BufCode.Cache.Update` | log.c:179-186 | bread, change, bwrite or log_write, brelse, with the same answers of bget: the block map changes at this block only, and the disk only by bwrite |
| `BufRuns.StepKeeps` | bio.c:62-142 | the invariant (busy means held, one buffer per block, sleepers on held buffers, contents coherent) is kept by every step of any process |
| `BufRuns.GetsAreExclusive` | bio.c:62-96 | from binit on in every run: the buffer a bget returns was held by nobody and is then held by the caller for its block; it waits exactly when somebody holds a buffer of the block |
| `BufRuns.HolderAlone` | bio.c:62-142 | between a bget and its brelse no other bget returns the buffer, and nobody but the holder changes it |
| `BufRuns.HoldersAgree` | bio.c:62-142 | no two held buffers are for the same block; whoever sleeps in bget sleeps on the held buffer of its block; a held buffer that has been read has the contents last stored in its block by anyone |
| `MemIde.SyncAgrees` | memide.c:37-59 | after the synchronous iderw buffer and disk agree and no other block changed |
| `IdeQueue.StepKeeps` | ide.c:71-163 | FIFO: completed then queued requests are the submitted ones; each buffer queued at most once; the disk works on the head only |
| `IdeQueue.OperateIsSync` | ide.c:71-127 | the disk carrying out a command is one synchronous iderw of the head |
| `IdeQueue.QueueRefinesSync` | ide.c:71-163 | every run of the driver has the effect, on buffers and disk, of the synchronous driver run once per command |
| `IdeQueue.DriverRefinesSync` | ide.c:71-163 | from boot on; and when the queue is empty every request has completed in the order of submission and buffers and disk are the synchronous driver's |
| `IdeQueue.ReturnedOnce` | ide.c:133-163 | iderw returns only when each submission of its buffer was completed once |
| `IdeQueue.Queue.Append` | ide.c:147-152 | the walk over qnext puts the buffer at the end of the queue |
| `IdeQueue.Queue.Pop` | ide.c:99-127 | ideintr takes the head, or nothing when the queue is empty |
| `FsLayout.BlockBitPut` | fs.c:53-93 | setting or clearing a bit of a bitmap block moves no other bit |
| `FsLayout.BitmapBytes` | fs.c:64-93 | bit bi of the bitmap is the bit of value 2^(bi mod 8) in byte bi / 8; setting or clearing it changes that byte by that value and no other byte |
| `DiskInode.InodeRoundTrip` | fs.h:28-41 | an inode packed in its inode block reads back, and no other inode of the block changes |
| `DiskInode.InodeBytes` | fs.h:28-36 | struct dinode by byte offset: type, major, minor and nlink at 0, 2, 4 and 6 of the 64 bytes, size at 8, addrs from 12 on, little-endian |
| `DiskInode.InodeStored` | fs.h:28-36 | the bytes a stored inode has at those offsets |
| `Ownership.SlotsDistinct` | fs.c:356-384 | a block number is in one slot of one inode only, which is allocated, and it is a data block |
| `Ownership.BitIffUsed` | fs.c:53-93 | a bitmap bit is set exactly for metadata and for blocks in a slot of an allocated inode |
| `Ownership.FreeCount` | fs.c:53-93 | every data block is free or owned and not both: clear bits and owned blocks add up to the data blocks |
| `Ownership.AllocKeeps` | fs.c:53-75 | balloc of a clear bit hands out an unowned data block and changes no slot |
| `Ownership.GrowAddr` | fs.c:356-384 | a block put in an empty direct or indirect slot keeps ownership exact; fresh indirect blocks are empty because they were zeroed |
| `Ownership.GrowEntry` | fs.c:356-384 | the same for an entry of the indirect block |
| `Ownership.UnlinkKeeps` | fs.c:391-419 | freeing a direct block and clearing its slot keeps ownership exact |
| `Ownership.FreeEntryKeeps` | fs.c:391-419 | freeing an entry whose bytes stay in the doomed indirect block keeps ownership exact outside that gap |
| `Ownership.FreeIndirectKeeps` | fs.c:391-419 | freeing the indirect block closes the gap |
| `Ownership.GrownSlots` | fs.c:356-384 | growing one inode leaves every slot of the others |
| `FsCode.FileSystem.Balloc` | fs.c:53-75 | the lowest clear bit, zeroed; fails exactly when no bit is clear |
| `FsCode.FileSystem.Bfree` | fs.c:78-93 | panics exactly when the bit is already clear, else clears it alone |
| `FsCode.FileSystem.Iupdate` | fs.c:199-215 | the inode read back from the inode blocks becomes the in-memory one, every other inode and block stays, and ownership is kept |
| `FsCode.FileSystem.Bmap` | fs.c:356-384 | the block of file block bn, allocating exactly it and the indirect block where missing; runs out of blocks exactly when fewer are free than are missing; never touches a mapped file block |
| `FsCode.FileSystem.Itrunc` | fs.c:391-419 | every block of the inode is given back, "freeing free block" is unreachable, other inodes and all data are untouched |
| `FsCode.FileSystem.Iput` | fs.c:318-337 | the last reference to an unlinked inode frees the inode, its flags and all its blocks, and panics exactly when that inode is busy; any other changes nothing; no slot of a free inode ever holds a block |
| `FileContents.SpliceTwice` | fs.c:462-492 | writing in two pieces is writing once |
| `FileContents.PatchBytes` | fs.c:462-492 | changing one block of a file changes those bytes and no others |
| `FileIo.UntouchedBytes` | fs.c:462-492 | a write to one file leaves every other file's bytes, with or without holes |
| `FileIo.WriteFitsMeans` | fs.c:471-475 | the unsigned bounds tests are the real bounds |
| `FileSpan.NeedOn` | fs.c:356-384 | what bmap of the next file block takes is what the longer span is short of in addition |
| `FileSpan.BmapSameByte` | fs.c:356-384 | bmap changes no byte of the file: a hole becomes a block of zeros |
| `FileSpan.WholeNeed` | fs.c:434-492 | writing to a file without holes takes what the longer file occupies in addition; reading it takes nothing |
| `FileIo.Writei` | fs.c:462-492 | for files with and without holes: success splices the bytes into the file, fills exactly the addresses missing under the span, touches no other file, logs exactly the blocks named, and stores the inode exactly when the file grows; it panics if and only if fewer blocks are free than are missing, fails if and only if the bounds are exceeded |
| `FileIo.StoredIff` | fs.c:487-490 | the on-disk inode stays the in-memory one if and only if the file grows or no hole is filled whose address is in the inode |
| `FileIo.WholeStays` | fs.c:462-492 | a file without holes has none afterwards and its on-disk inode stays the in-memory one |
| `FileHole.FillHole` | fs.c:462-492 | a write into a hole after which the on-disk inode lacks the block and no ownership fits the disk |
| `FileRead.Readi` | fs.c:434-458 | returns the slice of the file's bytes, holes as zeros; no byte of the file changes; it takes exactly the blocks missing under the span read, changes nothing if there are none, and panics if and only if fewer are free, or some are missing and no operation is under way, or the span ends above the largest file |
| `FileWrite.ChunkBound` | file.c:125-132 | a chunk logs at most 17 blocks at any offset, and one does; it touches more than MAXOPBLOCKS exactly when offset in block plus length exceeds ten blocks |
| `FileWrite.AppendOver` | file.c:125-132 | a chunk appended at a block boundary logs more than MAXOPBLOCKS exactly when it is longer than eight blocks, or seven where it adds an indirect entry |
| `FileWrite.SpanLogged` | fs.c:462-492 | a write logs the blocks it touches, one bitmap block exactly when it allocates and the indirect block exactly when it adds an entry |
| `FileWrite.ChunkLogs` | file.c:134-143 | how many blocks a chunk logs, exactly |
| `FileWrite.WriteChunk` | file.c:138-144 | one chunk, one transaction, the exact number of blocks logged, at most 17; device, failure and panic each if and only if writei's condition holds, done otherwise |
| `FileWrite.NeedAgain` | file.c:134-152 | blocks taken chunk by chunk add up to the blocks that the whole write takes |
| `FileWrite.FileWriteInode` | file.c:125-152 | the chunks together write exactly the bytes, in order; on failure exactly the whole chunks that fit the largest file; which of device, failure, panic and done it is, decided by type, size, offset, length and free blocks before the call |
| `FsCrash.OwnershipSurvivesCrashes` | log.c:114-199 | if the disk the cache shows has exact ownership whenever no operation is under way, so has the recovered disk after every crash |
| `SleepWakeup.StepKeeps` | proc.c:366-421 | every lock, unlock, state change and table slot scanned keeps: a process going to sleep or asleep with its condition true has a wakeup coming |
| `SleepWakeup.NoLostWakeup` | proc.c:366-421 | in every run a process asleep with its condition true has another process that owes a wakeup and has not passed its slot |
| `SleepWakeup.SleepersOweNothing` | proc.c:366-399 | a process never goes to sleep owing a wakeup |
| `ProcCode.ProcessTable.Wakeup1` | proc.c:404-412 | slot by slot: exactly the sleepers on the channel become runnable and nothing else changes |
| `ProcCode.ProcessTable.AllocProc` | proc.c:37-52 | the first unused slot becomes an embryo with a new pid; none exactly when no slot is unused |
| `ProcCode.ProcessTable.Exit` | proc.c:196-214 | slot by slot: the caller is a zombie, its children have parent init, and exactly the sleepers on its parent are runnable, and those on init if a child was a zombie |
| `ProcCode.ProcessTable.Wait` | proc.c:219-258 | by the table: reaps exactly when there is a zombie child, the first, whose slot is cleared; fails exactly when there is none and there is no child or the caller is killed; sleeps exactly when there is a child, none a zombie, and the caller is not killed |
| `ProcCode.ProcessTable.Kill` | proc.c:426-444 | the first slot with the pid is marked killed, and made runnable if it sleeps; no other slot changes; found exactly when some slot has the pid |
| `ProcTree.ExitKeeps` | proc.c:175-215 | exit keeps the tree, the sleepers with their living children and the ledger of zombies |
| `ProcTree.WaitKeeps` | proc.c:219-258 | wait keeps them |
| `ProcTree.StepKeeps` | proc.c:131-444 | so does every step of fork, exit, wait, sleep, wakeup, kill and the scheduler |
| `ProcTree.TreeHolds` | proc.c:131-258 | from boot on every process past EMBRYO but init has a living parent, no process sleeps in wait beside a zombie child, and the zombies are exactly the processes that exited and were not reaped |
| `ProcTree.WaiterHasChild` | proc.c:219-258 | from boot on a process that goes to sleep in wait, or is asleep there, is not killed and has a child that is alive |
| `ProcTree.ReapedOnce` | proc.c:219-258 | wait reaps a pid that exited and was never reaped before |
| `PipeRing.TestsAreExact` | pipe.c:77-120 | the full and empty tests are exact across counter wrap-around |
| `PipeRing.PushBuffered` | pipe.c:92-92 | storing at nwrite appends to the buffered bytes, also across wrap-around |
| `PipeRing.PopBuffered` | pipe.c:112-116 | the byte at nread is the oldest one |
| `PipeRing.Pipe.Write` | pipe.c:77-97 | how many bytes go in, in order; returns exactly when all fit, and otherwise the pipe is full and it fails exactly when the read end is closed or the caller killed |
| `PipeRing.Pipe.Read` | pipe.c:99-120 | returns exactly when there are bytes or the write end is closed, fails exactly when there are none, it is open and the caller is killed, else sleeps; what comes out is the front of the buffer, as much as was asked for or all |
| `PipeRuns.RunFifo` | pipe.c:58-120 | in every run bytes read followed by bytes buffered are the bytes written, and at most PIPESIZE are buffered |
| `PipeRuns.WriteAnswers` | pipe.c:77-97 | one pass of a writer by the contents: when it answers the count, when -1, when it sleeps, and what is then in the pipe |
| `PipeRuns.ReadAnswers` | pipe.c:99-120 | one pass of a reader by the contents: bytes, -1 or sleep |
| `PipeRuns.NobodySleepsOnClosed` | pipe.c:58-120 | in every run, kills included, a process asleep in the pipe is not killed and both ends are open |
| `PipeRuns.EndOfFile` | pipe.c:58-120 | in every run, after the write end is closed nothing more is written, every read returns at once with the next bytes not yet read, as many as asked for or all, and with none exactly when none were asked for or everything written has been read |
| `PipeRuns.LiveIffNotStranding` | pipe.c:77-97 | a step keeps every sleeper justified if and only if it is not a killed writer giving up on a pipe with a sleeping reader |
| `PipeRuns.SleepersJustified` | pipe.c:77-120 | without kills a sleeping reader means an empty pipe, a sleeping writer a full one, and never both |
| `PipeRuns.KilledWriterStrands` | pipe.c:84-91 | with a kill a reader can be left asleep on a full pipe |
| `FreeList.InsertUnits` | umalloc.c:24-44 | free adds exactly the block's units |
| `FreeList.InsertSorted` | umalloc.c:24-44 | free keeps address order, disjointness and full coalescing |
| `FreeList.InsertApart` | umalloc.c:24-44 | live blocks stay clear of the list |
| `FreeList.TakeUnits` | umalloc.c:75-83 | malloc removes exactly the units it hands out |
| `FreeList.TakeSorted` | umalloc.c:75-83 | malloc keeps the list sorted and the block clear of it |
| `Heap.InsertApartLinked` | umalloc.c:33-43 | free's stores spell out the new circular list |
| `Heap.InsertJoinedLinked` | umalloc.c:33-43 | the same when the block before absorbs it |
| `Heap.TakeAllLinked` | umalloc.c:75-77 | unlinking a whole block leaves the circle closed |
| `Heap.TakeTailLinked` | umalloc.c:78-82 | cutting a tail off changes only sizes |
| `Malloc.RoomIffNoWrap` | umalloc.c:63-68 | the block has room for the request exactly when the unit arithmetic does not wrap; then one unit less would not do, otherwise the block is a header alone |
| `Malloc.SbrkGrowsIff` | umalloc.c:46-61 | sbrk is asked for the block's size exactly when the request is at most 2^31 - 16 bytes or the unit count wraps |
| `Malloc.SbrkCovers` | proc.c:111-126 | an sbrk that does not refuse makes the process end where the block ends exactly when it was asked to grow; otherwise the whole block lies beyond the process |
| `Malloc.SbrkAnswers` | proc.c:111-126 | for every request, when sbrk refuses, by numbers: below 2^31 bytes exactly when the process would reach KERNBASE or there is no memory, from there to 2^32 exactly when the process is empty or just as large as what it is told to give back, at 2^32 never; and the size it otherwise leaves |
| `Malloc.Allocator.FindPlace` | umalloc.c:29-32 | free's search stops, at the block that precedes bp in memory |
| `Malloc.Allocator.Free` | umalloc.c:24-44 | the invariant is kept and the list is the old one with the block inserted |
| `Malloc.Allocator.Morecore` | umalloc.c:46-61 | new memory joins the list and the units obtained grow by it |
| `Malloc.Allocator.Carve` | umalloc.c:75-84 | the tail or all of a block becomes live |
| `Malloc.Allocator.Search` | umalloc.c:74-89 | first fit from the roving pointer, at most one morecore, termination |
| `Malloc.Allocator.Allocate` | umalloc.c:63-90 | for any size: returns 0 exactly when no free block was large enough and the size of the process, the request and the memory left make sbrk refuse (the numbers of SbrkAnswers); otherwise a new live block, cut off the end of the one found, with room exactly when the unit count does not wrap; free plus live units equal the units from sbrk; all of it inside the process exactly when sbrk was not asked or asked to grow |
| `Malloc.HugeRequest` | umalloc.c:63-90 | malloc of 2^31 bytes in a small process returns a block that ends beyond it |
| `PageTable.PutKeeps` | vm.c:70-90 | writing one entry changes the flat page map at that page only |
| `PageTable.AddKeeps` | vm.c:45-65 | adding a zeroed table changes no page |
| `PageTable.Elsewhere` | vm.c:45-65 | changing frames that are not its tables changes no page of an address space |
| `AddressSpace.VisitedIs` | vm.c:249-273 | exactly which pages deallocuvm looks at |
| `AddressSpace.ReachesAllIff` | vm.c:249-273 | deallocuvm misses no mapped page if and only if the first page's table is present or the first present table maps nothing before the offset the walk enters it at |
| `AddressSpace.AlignedOrPrefix` | vm.c:249-273 | it misses none from an aligned address or when the mapped pages form a contiguous prefix |
| `AddressSpace.SkipCanMiss` | vm.c:260-262 | a well-formed user address space with a proper free list on which the skip misses a mapped page |
| `AddressSpace.DropReleases` | vm.c:263-270 | freeing a page's frame and clearing its entry releases that page only |
| `AddressSpace.SpaceFreed` | vm.c:277-292 | after the walk from 0 and the loop over the directory exactly the frames of the address space are free |
| `SpaceGrowth.ExtendsTwice` | vm.c:70-90 | two extensions of an address space from the free list make one |
| `SpaceGrowth.MapStep` | vm.c:70-90 | one more page mapped, taking a frame exactly when its table is absent |
| `UserPages.GrowStep` | vm.c:230-241 | one more page: its own frame, the wanted contents and flags, every frame taken accounted for |
| `UserPages.CleanupReaches` | vm.c:233-237 | the clean-up after running out of memory reaches every page just mapped |
| `UserPages.GaveUp` | vm.c:233-237 | after it the pages are as before and every frame is free again except tables and at most one lost frame |
| `CopySpace.RowMapped` | vm.c:128-144 | one row of kmap gives exactly its pages |
| `CopySpace.KernelMap` | vm.c:120-125 | xv6's kernel half page by page: KERNBASE to PHYSTOP at its fixed offset, read-only over the kernel's text, the devices at their own addresses, nothing else and nothing for users |
| `CopySpace.CopyDone` | vm.c:309-332 | a finished copy has the parent's flags and bytes on frames that were free, the kernel's half, and owns every frame taken |
| `CopySpace.CopyFailed` | vm.c:334-336 | a failed copy gives everything back except at most one lost frame |
| `FrameNeed.NewTablesCount` | vm.c:45-90 | the tables a range of pages takes are the directory entries it spans less those present |
| `FrameNeed.KernelNeedIs` | vm.c:107-144 | setupkvm takes 65 pages, wherever kernel data starts |
| `FrameNeed.UserNeedIs` | vm.c:309-337 | the child's pages take one page each and one for every 1024 of them |
| `FrameNeed.OneFrameOver` | vm.c:326-330 | copyuvm stops with one frame over exactly when the frames left for the child are one more than a multiple of 1025 |
| `VmCode.Vm.Kalloc` | kalloc.c:82-95 | the first free page, or 0 exactly when there is none |
| `VmCode.Vm.Kfree` | kalloc.c:59-77 | the page joins the free list; the list holds each free page exactly once |
| `VmCode.Vm.FreeRange` | kalloc.c:45-52 | every whole page of the range, each once |
| `VmCode.Vm.WalkPgDir` | vm.c:45-65 | the table, a new zeroed one, or 0, in exactly these cases |
| `VmCode.Vm.MapPages` | vm.c:70-90 | success maps the whole range; out of memory or "remap" stop at the first page that has no table or is mapped |
| `VmCode.Vm.DeallocUvm` | vm.c:249-273 | the visited pages are unmapped and their frames freed, nothing else changes |
| `VmCode.Vm.FreeVm` | vm.c:277-292 | directory, tables and user pages are freed exactly once each, everything else is untouched |
| `VmCode.Vm.AllocUvm` | vm.c:220-243 | with frames enough, zeroed pages; otherwise exactly when it undoes everything, when a frame is lost, and when it reports success with its last page unmapped |
| `VmCode.FalseSuccess` | vm.c:230-241 | a call that reports success with its page unmapped and its frame lost |
| `VmCode.Vm.SetupKvm` | vm.c:128-144 | the kernel's mappings and an empty user half, exactly when there are pages enough for directory and tables, which it takes; otherwise 0 and every free page is lost |
| `VmCode.Vm.CopyUvm` | vm.c:309-337 | panics if and only if it meets an absent page with frames for everything before it; otherwise a copy on disjoint frames if and only if there are frames for kernel tables, pages and their tables; the whole free list lost if and only if there are too few for the kernel tables; otherwise all given back but the last frame, lost if and only if one more than a multiple of 1025 were left for the child; the parent is unchanged |
| `VmCode.FailedCopyReturnsAll` | vm.c:309-337 | a failed copyuvm gives every frame back if and only if there were none, or enough for the kernel tables and not one more than a multiple of 1025 beyond |
| `VmCode.Vm.ClearPteu` | vm.c:296-305 | only PTE_U of that page changes |
| `VmCode.Vm.UvaToKa` | vm.c:341-352 | the frame exactly when the page is present and the user's; a null entry is read exactly when its table is absent |
| `VmCode.Vm.CopyOut` | vm.c:357-378 | stops at the first byte whose page is not the user's, with a fault exactly when that page has no table; the bytes before it are in place and no other byte changes |
| `UserMemory.StoreIsStored` | vm.c:357-378 | storing bytes in one page changes those bytes of the address space and no others |
| `UserMemory.StoredTwice` | vm.c:357-378 | two adjoining stores are one |
| `SpaceSize.GrownIsSized` | vm.c:220-243 | after growing, the mapped user pages are exactly those below the new size |
| `SpaceSize.UndoneIsSized` | vm.c:233-237 | after allocuvm gave up they are those below the old size |
| `SpaceSize.ReleasedIsSized` | vm.c:249-273 | after shrinking too, and every frame given up is free |
| `SpaceSize.ChildIsSized` | vm.c:309-337 | a child has its parent's size and bytes on frames the parent does not have |
| `SpaceSize.TwoPagesReady` | exec.c:50-56 | exec's two pages give a stack page above a page the user cannot use |
| `FrameLedger.LocalKeeps` | vm.c:220-273 | a procedure that keeps to its own address space and the free list keeps the ledger of all pages |
| `FrameLedger.SpaceAdded` | vm.c:309-337 | so does fork's copy, which adds an address space |
| `FrameLedger.SpaceRemoved` | vm.c:277-292 | so does freevm, which removes one |
| `FrameLedger.PageTaken` | proc.c:54-59 | so does a page that the kernel takes for itself, such as a kernel stack |
| `FrameLedger.PageGiven` | pipe.c:58-76 | so does giving it back |
| `FrameLedger.CallKeeps` | vm.c:128-378 | every call keeps the ledger, and lost pages stay lost |
| `FrameLedger.PagesAreConserved` | vm.c:128-378 | from boot, after any calls, a page is on the free list exactly once, or held by the kernel, or in use by exactly one address space, or lost |
| `KernelHalf.CallKeepsKernel` | vm.c:128-378 | every call keeps the kernel's half of every address space and gives a new one the same |
| `KernelHalf.KernelInEverySpace` | vm.c:92-100 | from boot, after any calls, every address space maps the kernel exactly as kmap says and no such page is the user's |
| `FrameCalls.Kernel.constructor` | kalloc.c:30-52 | with every page on the free list the runs of the ledger begin |
| `FrameCalls.Kernel.Alloc` | vm.c:220-243 | allocuvm is a call of the ledger |
| `FrameCalls.Kernel.Dealloc` | vm.c:249-273 | so is deallocuvm |
| `FrameCalls.Kernel.Copy` | vm.c:309-337 | so is copyuvm, unless it panics, and when |
| `FrameCalls.Kernel.Setup` | vm.c:128-144 | so is setupkvm |
| `FrameCalls.Kernel.FreeSpace` | vm.c:277-292 | so is freevm |
| `FrameCalls.Kernel.Clear` | vm.c:296-305 | so is clearpteu |
| `FrameCalls.Kernel.CopyTo` | vm.c:357-378 | so is copyout |
| `FrameCalls.Kernel.Take` | kalloc.c:82-95 | so is kalloc for the kernel itself |
| `FrameCalls.Kernel.Give` | kalloc.c:59-77 | so is kfree of such a page |
| `ExecStack.GuardStops` | exec.c:58-79 | bytes that end in the stack page can be copied out exactly when they start there |
| `ExecStack.HeldWord` | exec.c:68-79 | a word stored as four bytes reads back |
| `ExecStack.LayoutDone` | exec.c:58-81 | return address, argc, argv and the vector read back; the strings are aligned, disjoint and complete |
| `ExecStack.PushArgs` | exec.c:58-81 | builds that layout in the single stack page exactly when there are at most MAXARG arguments and everything fits the page, and changes no other byte; reads a null entry exactly when a string makes the stack pointer wrap to an address without a page table; otherwise fails |
| `ShellBuffer.EndsAreWordEnds` | sh.c:450-494 | every terminator position is the end of a word |
| `ShellBuffer.TokensReadBack` | sh.c:450-494 | after nulterminate every argument and file name reads back as its token |
| `ShellBuffer.Nulterminate` | sh.c:450-494 | writes a NUL at the end of every token and nowhere else |
| `ShellBuffer.LineWords` | sh.c:345-360 | every token of a parsed line is a maximal word, and no command has more than nine |
| `ShellParse.Parser.GetToken` | sh.c:266-309 | the token by its characters: `>>` exactly for Append, each symbol exactly for itself, a word up to the next blank or symbol; its interval; and the cursor after the blanks behind it |
| `ShellSyntax.ScanIs` | sh.c:266-309 | what gettoken returns at each character, in both directions |
| `ShellParse.Parser.Peek` | sh.c:311-321 | whether the next character is one of these |
| `ShellParse.Parser.Redirs` | sh.c:375-398 | computes the grammar's redirections, or panics as it says |
| `ShellParse.Parser.Exec` | sh.c:416-447 | computes the grammar's command |
| `ShellParse.Parser.Arguments` | sh.c:429-446 | the argument loop computes the grammar's argument list |
| `ShellParse.Parser.Block` | sh.c:400-414 | computes the grammar's block, or panics when there is no opening parenthesis |
| `ShellParse.Parser.Pipeline` | sh.c:362-373 | computes the grammar's pipeline |
| `ShellParse.Parser.CommandLine` | sh.c:345-360 | computes the grammar's line |
| `ShellParse.Parser.Background` | sh.c:351-354 | the loop over & computes the grammar |
| `ShellParse.Parser.Command` | sh.c:328-343 | computes the grammar's command line, or panics exactly as the grammar fails |
| `ShellSound.ReadRedirs` | sh.c:375-398 | what parseredirs reads is redirections; it panics only at an arrow that no word follows |
| `ShellSound.ReadArguments` | sh.c:429-446 | what the argument loop reads is arguments and redirections in order; it panics only at a parenthesis inside the command, a tenth argument or an arrow without a file |
| `ShellSound.ReadLine` | sh.c:345-360 | soundness: what parseline reads has a derivation with that command, and a panic has a fault at some token |
| `ShellAccept.TakeLine` | sh.c:345-360 | completeness: a line with a derivation is read, up to its end, as the command of that derivation |
| `ShellAccept.AcceptedIffDerived` | sh.c:328-447 | parsecmd accepts a line as command c if and only if the line has a derivation that stands for c |
| `ShellAccept.RejectedForAReason` | sh.c:328-447 | a rejected line has no derivation, and its panic names what some token shows: an arrow without a file, a parenthesis left open or inside a command, a tenth argument, or tokens left after a whole line |
| `ShellAccept.ReadCommand` | sh.c:328-343 | the parser as it runs returns a command exactly when the line has a derivation, then that command, and otherwise panics for such a reason |
| `ShellPrint.ReadFiles` | sh.c:375-398 | printed redirections, with any arrow at each, are read back in order |
| `ShellRoundTrip.ReadArgs` | sh.c:416-447 | printed arguments and redirections are read back |
| `ShellRoundTrip.ReadExec` | sh.c:400-447 | a printed command or parenthesised line is parsed back to its tree |
| `ShellRoundTrip.ReadPipe` | sh.c:362-373 | a printed pipeline is parsed back to its tree |
| `ShellRoundTrip.ReadBack` | sh.c:351-354 | so is a command followed by any number of & |
| `ShellRoundTrip.ReadLine` | sh.c:345-360 | so is a line of commands |
| `ShellRoundTrip.PrintedParsesBack` | sh.c:328-447 | every tree of good words, printed with parentheses where needed and with `<`, `>` or `>>` chosen at every redirection, is parsed back to the same tree |
| `ShellRoundTrip.AcceptedIffGood` | sh.c:328-447 | a tree is the parse of some line if and only if its words are words and no command has more than nine |

## Left out

- Spinlocks, memory ordering and interrupts: lock-protected sections are atomic steps.
- log_write reads its guards before it takes the lock; the model takes guard and update as one step.
- The number of buffers (NBUF) does not bound the cache in the log's runs; the buffer cache itself is bounded.
- In the buffer cache's runs a transfer is one step, as with memide.c, and a run ends when bget panics for want of buffers.
- Concurrency inside the file system: balloc, bmap, itrunc, iput, readi and writei are modelled one call at a time; inode locks, iget and ialloc are not modelled.
- FileIo.Writei: says nothing about the file after the panic of balloc, which ends the kernel; the caller is inside a transaction.
- FsCrash.OwnershipSurvivesCrashes: that each transaction leaves the disk with exact ownership is a hypothesis.
- Device files: readi and writei stop at the call into the driver.
- Directories, path names, link counts, sysfile.c and mkfs.c: the image invariants are hypotheses.
- Disk errors, port I/O, idewait and spurious geometry: the disk is an abstract device that carries out one command and interrupts once.
- swtch, trap frames and scheduling order: only the effect on process states is modelled; pid wrap-around is not.
- ProcTree.TreeHolds: says nothing about the killed flag of a fresh slot, which kill can set through a stale pid.
- Malloc.Allocator.Allocate: starts from a heap inside the process; what later calls do after a request that left it outside is not modelled.
- VmCode.Vm.MapPages: the range is at least one page and does not wrap around the address space; addresses are page numbers.
- VmCode.Vm.CopyUvm: says nothing about the child after a panic, which ends the kernel.
- ExecStack.PushArgs: strings are shorter than KERNBASE, as strings in user memory are; nothing is said about the kernel after it reads a null entry.
- loaduvm, inituvm, switchuvm, seginit and the ELF loop of exec: they only add easier members.
- The parse tree is a value: the source fills argv arrays after redircmd nodes already point to them, the model puts the redirections around the finished command.
- runcmd, getcmd, fork1 and the rest of the shell; console.c, printf, grep.c, xvsh.c and the small programs.
