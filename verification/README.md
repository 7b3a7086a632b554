# xv6: storage, processes, memory and user programs, verified

A model of the core of xv6, with the copy-on-write `fork` of this tree, and proofs about it. The storage
stack is modelled from the disk up: redo log, buffer cache, inodes, directories. Kernel concurrency is
modelled as step systems: sleep and wakeup, exit and wait, pipes, copy-on-write faults. The self-contained
algorithms are page tables, the user heap, the shell's parser and grep's matcher.

`dafny verify dfyconfig.toml` checks the whole project.

| file | what it models |
|---|---|
| `LogSpec.dfy`, `Log.dfy` | `log.c`: what the on-disk log means, crash atomicity; the code over the buffer cache |
| `BufferCache.dfy` | `bio.c` over the disk of `memide.c` |
| `FsSpec.dfy`, `Fs.dfy`, `File.dfy` | block allocation, `bmap`, `readi`, `writei`, `itrunc`; `filewrite` and what a crash leaves of it |
| `Disk.dfy` | where inodes, bitmap and data are in the sectors; crash safety of the file system |
| `Directories.dfy` | directory entries and link counts: `link`, `unlink`, `create`, `mkdir` |
| `Paths.dfy` | `skipelem`, `namex` |
| `SleepWakeup.dfy` | `sleep`, `wakeup`, the scheduler's hand-over and the locks, for any number of processes |
| `ExitWait.dfy` | `fork`, `exit`, `wait`, `kill` on the process table |
| `Pipe.dfy` | `pipe.c` |
| `CowSpec.dfy`, `Cow.dfy` | copy-on-write fork and its page faults |
| `VmSpec.dfy`, `Vm.dfy` | two-level page tables and the free list of frames |
| `Umalloc.dfy` | the user heap allocator |
| `Shell.dfy`, `ShellTyping.dfy`, `ShellParser.dfy` | the shell's parser: what it computes and the round trip; the lines that users type and what they mean; the parser as it runs |
| `Grep.dfy` | grep's regular expressions |
| `Bytes.dfy`, `Finite.dfy`, `Options.dfy` | sectors as bytes and little-endian words; finite sets and sequences; optional values |

## How to read it

A disk is a sequence of 512-byte sectors, and a sector write is atomic. A crash keeps the disk and loses
everything else. A `panic` is shown not to happen, or is a precondition, or is an outcome. Process identifiers,
addresses and inode numbers are integers; 32-bit wrap-around is written out where the code depends on it
(pipe counters, `writei` and `readi` offsets, `malloc` sizes).

Main results:

- `LogSpec.CrashAtomicity` and `Log.Log.Transaction`: for any transaction, cut after any sector write, and any
  number of recoveries cut short, the recovery that completes finds all of it or none of it.
- `File.Boot`, `File.Start`, `File.CrashFindsLog`: the superblock that `mkfs` writes leads `initlog` to the log, on a new
  disk and after every crash, so that transactions can be committed on a disk that has been started.
- `Log.Log.Bread`: inside a transaction a read returns the latest logged contents, and no home sector has
  changed on disk.
- `Fs.FileSystem.Writei`, `Readi`, `Itrunc`: files are flat byte sequences; the block accounts stay exact.
- `Disk.FileOnDisk`, `Disk.BitmapOnDisk`: the contents of every file and the state of every block, read straight from
  the sectors by the numbers of `fs.h`.
- `File.Writer.Filewrite`: chunked writing is one write, at most seven sectors to a transaction.
- `File.Commit`, `File.CommitAll`: the log's code takes each of these transactions without a panic, in a log of eight
  sectors or more, because the inode is logged last.
- `File.CrashDuringWrite`, the whole storage stack together: whenever the machine stops during a long write, and
  however often again while it recovers, the recovered sectors hold a file system in which the file has some
  beginning of the write, everything else is as it was, and the block accounts balance. `File.CommitWrite`: so it is
  from every disk that the log's code passes through when it commits the write.
- `Directories.FileTree`: link counts are the number of entries that name an inode. `Paths.Namex`: a path
  leads to an inode exactly when a chain of directories does, each with an entry for the next element that is the
  first of its name; from a linked directory it leads only to linked inodes.
- `SleepWakeup.NoLostWakeups`: no run of any number of processes loses a wakeup. `SleepWakeup.WaitersHaveIt`: over every
  run, who has waited for the condition and is in its critical section has it.
- `ExitWait.Families`: at every point of every run from boot, families are in order, no one sleeps in `wait` beside a
  zombie child, no pid is in use twice or returned twice. `ExitWait.ProcTable.Run`: what the code does is such a run.
- `Pipe.FirstInFirstOut`: first in, first out, within 512 bytes, over every run, killed processes included.
  `Pipe.Ring.Run`: the ring, across counter wrap-around, is that queue.
- `Cow.IndistinguishableIff`: over every run, copy-on-write gives everyone the memory that copying would, exactly when
  no one stores to a shared guard page; `Cow.PoliteMatches`: so it does for programs that leave their guard pages
  alone. `Cow.Kernel.Run`: what the code does is such a run.
- `Vm.Kernel.SetupKvm`: frame and rights of every kernel page.
- `Vm.Kernel.CopyUvm`: the exact number of frames a copy needs, and exactly when a failed one loses some.
  `Vm.Kernel.CopyAndFree`: a copy and its end leave the free list as it was.
- `Umalloc.Heap.Malloc` and `Free`: the free list, no two free blocks that touch, no live block disturbed.
- `ShellTyping.ReadIff` and `ShellParser.ParseCmd`: the shell accepts exactly the lines of a grammar that is written down
  without it, with blanks, bare pipelines and redirections anywhere, reads each as the one thing it means, and the
  buffer read as C strings has its words. `ShellTyping.TypedRoundTrip`, `Shell.RoundTrip`: every legal command, typed
  without needless parentheses or printed with all of them, is read back.
- `Grep.Match`: exactly the language of the pattern. `Grep.ParseOfShow`, `Grep.ShowOfParse`: patterns and their syntax
  are two forms of the same thing.

Where the code does less than its comments say:

- `balloc` scans up to the end of the disk and so into the log area. A block outside the log is returned just if
  one is free (`Fs.FileSystem.Balloc`), and this is why writing needs `Room`; otherwise a log block can be
  (`Fs.AllocatesLogBlock`).
- A transaction of ten sectors, which `log_write` accepts in a log of eleven sectors or more, pins or holds all ten
  buffers, and there is none for its last log block (`Log.Log.RunsOut`, `Log.PinsEveryBuffer`). With fewer it always
  completes (`Log.Log.Transaction`); `Log.LogBlockIff` is the condition at one `log_write`.
- `isshared` stops at the first free slot of the process table. With a hole in the table it can miss a sharer
  (`Cow.HoleHidesSharer`); servicing the fault is right exactly when it is not the case that there are sharers and
  all of them are behind a free slot (`Cow.ServicedIsSafeIff`).
- The fault handler does not ask whether a page is the user's. A store to the guard page faults for ever, but when
  another process shares the page, the fault turns it into an ordinary one (`Cow.GuardGoesAway`). An event does what
  it does on a machine that copies exactly when it is not such a store (`Cow.StepIff`).
- `deallocuvm` steps 4 MB over a missing table without aligning first. It can miss pages (`Vm.StrideMisses`); what it
  misses is stated exactly (`Vm.DeallocIff`), and it misses nothing from an aligned start
  (`Vm.AlignedMissesNothing`) or when the pages in use are contiguous (`Vm.ContiguousMissesNothing`).
- `copyuvm` does not give back a page when the table for it cannot be had: exactly when the frames left for user
  pages are k full tables' worth and one (`Vm.Kernel.CopyUvm`, `Vm.LosesPage`). Nor does it give back the kernel part
  of a directory that could not be completed: exactly when there are some frames, but fewer than that part needs
  (`Vm.LosesDirectory`).
- A killed writer that has more than 512 bytes to write while a reader sleeps fills the pipe and returns without
  waking the reader (`Pipe.KilledWriter`). Everyone asleep has a reason throughout a run exactly when that does not
  happen in it (`Pipe.NoOneForgotten`).
- `kill` looks at free slots too, and a failed `fork` keeps the mark of a killed process in its slot, so that a process
  can be killed when it starts (`ExitWait.BornKilled`). No free slot is ever marked exactly when no one kills a pid that
  a free slot has, and no `fork` fails whose new process has been killed (`ExitWait.StartsUnmarked`).
- `malloc` of more than 2^31 - 16 bytes, when nothing on the list fits, asks `sbrk` for a negative or zero amount
  (`Umalloc.GrowthIff`). A request of more than 2^32 - 8 bytes gets a block of one unit: a block has room for the
  request exactly when the request is not one of these (`Umalloc.Heap.Malloc`).
- Making a file or a directory in a directory that has been removed leaves a count that its entries do not account
  for (`Directories.MadeInRemoved`); counts are right exactly when the parent is still linked (`Directories.LeafIff`,
  `Directories.DirIff`).

## Model

| member | source | states |
|---|---|---|
| LogSpec.InstalledAt | xv6/log.c:69-82 | after installing the first k log blocks, each sector holds the block of the last header entry that names it, or what it held |
| LogSpec.InstallAgain | xv6/log.c:69-82 | an image that installation has partly changed installs to the same disk as the original |
| LogSpec.RecoveredIsClean | xv6/log.c:115-122 | a recovered disk has an empty log, and recovering it again changes nothing |
| LogSpec.RecoveredReplays | xv6/log.c:69-122 | every sector that the header names has the log block of the last entry that names it, the other home sectors are as they were, and the log is empty |
| LogSpec.CrashInRecovery | xv6/log.c:115-122 | a crash after any sector write of recovery leaves a disk that recovers to the same disk |
| LogSpec.CrashChainRecovers | xv6/log.c:115-122 | however many recoveries are cut short, the one that completes gives the same disk |
| LogSpec.LoggedOnce | xv6/log.c:169-179 | absorption: no sector is in the log header twice |
| LogSpec.LogHoldsLatest | xv6/log.c:159-181 | before the commit, the log block of each logged sector holds what was last written to it |
| LogSpec.UncommittedIsUndone | xv6/log.c:115-122 | without the commit header, recovery leaves the home sectors as they were |
| LogSpec.CommittedIsRedone | xv6/log.c:98-142 | with the commit header, recovery leaves the home sectors as the whole transaction makes them |
| LogSpec.CommittedSector | xv6/log.c:69-82 | the same, sector by sector |
| LogSpec.CommitImageRecovers | xv6/log.c:135-143 | every image from the commit header on recovers to the whole transaction |
| LogSpec.UncommittedImageRecovers | xv6/log.c:159-181 | every image before the commit header recovers to the disk before the transaction |
| LogSpec.CrashAtomicity | xv6/log.c:69-181 | for any writes with absorption, any crash point and any chain of crashes during recovery: all of the transaction or none of it, decided by the commit header alone |
| LogSpec.LeftAlone | xv6/log.c:69-181 | a home sector that the transaction does not write is as it was, in every image and after any crashes in recovery |
| BufferCache.UnlinkLinked | xv6/bio.c:127-128 | unlinking a node leaves a circular doubly linked list of the others in the same order |
| BufferCache.PushFrontLinked | xv6/bio.c:129-132 | linking a node after the head leaves a circular doubly linked list with it first |
| BufferCache.Cache.constructor | xv6/bio.c:38-56 | every buffer is on the list, clean, and caches nothing |
| BufferCache.Cache.FindCached | xv6/bio.c:68-80 | the forward scan finds the buffer that caches the sector, or there is none |
| BufferCache.Cache.FindRecyclable | xv6/bio.c:82-91 | the backward scan finds the least recently used buffer that is neither busy nor dirty, or there is none |
| BufferCache.Cache.Bget | xv6/bio.c:61-93 | a buffer exactly when the sector's own is free or another can be recycled; which one; no other buffer changes; no sector is cached twice |
| BufferCache.Cache.Iderw | xv6/memide.c:36-58 | a dirty buffer is written, one that is not valid is read; nothing else changes |
| BufferCache.Cache.Bread | xv6/bio.c:96-105 | the buffer returned holds the latest contents, whether on disk or only in a pinned buffer, and the disk does not change |
| BufferCache.Cache.Bwrite | xv6/bio.c:108-115 | the sector on disk becomes the buffer's data in one write; buffers come from `bread` and so are valid |
| BufferCache.Cache.MoveToFront | xv6/bio.c:127-132 | the buffer is first and the others keep their order |
| BufferCache.Cache.Brelse | xv6/bio.c:119-138 | the buffer is free and most recently used; its contents stay |
| Log.CleanBuffer | xv6/bio.c:82-92 | fewer logged sectors than buffers leave a clean one, so that "no buffers" does not happen |
| Log.Log.InitLog | xv6/log.c:53-66 | the log is where words 0 and 3 of the superblock say; every sector that its header names has the block of the last entry that names it, the others are as they were, and the log is empty, through the images of recovery and no others |
| Log.Log.ReadHead | xv6/log.c:84-96 | the in-memory header is the one on disk: the count in its first word, the sectors in the words after it |
| Log.Log.EncodeHead | xv6/log.c:105-110 | the count in the first word, the sectors in the words after it, and otherwise what the block held |
| Log.Log.WriteHead | xv6/log.c:101-113 | one sector write, of the header |
| Log.Log.InstallTrans | xv6/log.c:69-82 | the disk goes, one sector write at a time, to the installed one; nothing stays pinned |
| Log.Log.Recover | xv6/log.c:115-122 | the disk becomes what recovery makes of it, through exactly the listed images |
| Log.Log.BeginTrans | xv6/log.c:124-133 | a transaction starts exactly when none is active |
| Log.Log.FindSlot | xv6/log.c:169-172 | the slot that already has the sector, or the next |
| Log.Log.LogWrite | xv6/log.c:159-181 | the buffer's contents are in the log and the buffer is pinned; the transaction is one write longer; no home sector has changed on disk |
| Log.Log.CommitHead | xv6/log.c:139 | the commit point: one write makes the logged disk the committed one |
| Log.Log.CommitTrans | xv6/log.c:135-149 | the disk holds the whole transaction, having passed through the listed images and no others |
| Log.Log.Bread | xv6/bio.c:96-105 | in a transaction: the latest logged contents are read, and the home sectors on disk are those before the transaction |
| Log.Log.Brelse | xv6/bio.c:119-138 | in a transaction: releasing keeps the pins and the disk |
| Log.Log.Update | xv6/log.c:151-158 | read, modify, log, release: the transaction is one write longer |
| Log.Log.Transaction | xv6/log.c:124-181 | any sequence of writes that the log accepts and that leaves a buffer unpinned is applied, and the sector writes are those CrashAtomicity speaks about |
| Log.Log.RunsOut | xv6/log.c:159-181 | any other sequence that the log accepts comes to a last write for which the tests for room pass and no buffer is to be had |
| Log.LogBlockIff | xv6/log.c:174-175 | a buffer for the log block can be had exactly when the held and the pinned sectors do not take up all of them |
| Log.PinsEveryBuffer | xv6/log.c:159-181 | from a new disk with eleven log sectors, ten writes come to that point |
| LogSpec.FewAccepted | xv6/log.c:164-165 | writes that leave room for one more sector have passed every test on the way |
| FsSpec.Attach | xv6/fs.c:356-384 | a new pointer to a free block keeps every block pointed at from exactly one place |
| FsSpec.Detach | xv6/fs.c:391-419 | clearing a pointer and freeing its block keeps the accounts |
| FsSpec.DataUndisturbed | xv6/fs.c:356-384 | allocating a block changes no byte of any file |
| FsSpec.DataWriteBytes | xv6/fs.c:479-485 | writing into a data block changes those bytes of that file and no other byte of any file |
| FsSpec.WriteContents | xv6/fs.c:462-492 | the loop of writei leaves the file's contents spliced and every other file's as they were |
| FsSpec.ReadBytes | xv6/fs.c:451-456 | the bytes of a mapped block are that slice of the file |
| Fs.FileSystem.Balloc | xv6/fs.c:52-76 | the first free block, zeroed and marked; none left exactly when all are marked; outside the log exactly when one there is free |
| Fs.AllocatesLogBlock | xv6/fs.c:52-76 | on any disk with every data block in use the first block of the log is marked and returned |
| Fs.Mkfs | xv6/mkfs.c:86-105 | a new disk: size, data blocks, inodes and log blocks in the first four words of sector 1; every inode is an empty file, the accounts balance, and every data block is free |
| Fs.Super | xv6/mkfs.c:86-89 | the four words of the superblock, in the order of the structure |
| Fs.FileSystem.Bfree | xv6/fs.c:79-95 | the block's bit is cleared |
| Fs.FileSystem.Iupdate | xv6/fs.c:201-217 | size and addresses of the inode on disk are those in memory, in one logged sector |
| Fs.FileSystem.Bmap | xv6/fs.c:356-384 | the block's address, allocated if it is the next one; no byte of any file changes; the accounts stay exact; nothing changes if it was mapped |
| Fs.FileSystem.BmapIndirect | xv6/fs.c:367-381 | the same past the direct blocks, with the indirect block allocated when it is first needed |
| Fs.FileSystem.Writei | xv6/fs.c:462-492 | succeeds exactly when the write starts inside the file and ends within 140 blocks; splices the bytes in; other files keep theirs; the inode on disk never goes stale though it is written back only on growth; which sectors are logged, the inode's last |
| Fs.FileSystem.Readi | xv6/fs.c:434-458 | the slice of the file clipped at its end, or -1 exactly for a start past the end or a wrapped sum; never allocates |
| Fs.FileSystem.FreeDirect | xv6/fs.c:398-403 | a direct block goes back once, and "freeing free block" is not reached |
| Fs.FileSystem.FreeEntries | xv6/fs.c:407-411 | so does every block under the indirect block |
| Fs.FileSystem.Itrunc | xv6/fs.c:391-419 | the file is empty, exactly its blocks are free again, other files keep their contents |
| Disk.WithBitBits | xv6/fs.c:64-66 | setting or clearing a bit leaves the others |
| Disk.PutBit | xv6/fs.c:88-92 | one bit of a bitmap sector changes and no other |
| Disk.BitmapStep | xv6/fs.c:61-68 | the bitmap sector with one bit changed holds the bitmap with that bit changed; inodes and data are where they were |
| Disk.BlockStep | xv6/fs.c:37-47 | a data sector is a data block, and no inode or bitmap bit is in it |
| Disk.InodeStep | xv6/fs.c:201-217 | storing an inode changes it and no other in its sector |
| Disk.Unambiguous | xv6/fs.c:269-297 | a disk holds one file system |
| Disk.FileOnDisk | xv6/fs.h:22-40 | size and any byte of a file in terms of the sectors alone: eight inodes of sixteen words to a sector from the third on, twelve direct addresses, and one of a block of addresses |
| Disk.BitmapOnDisk | xv6/fs.h:42-46 | whether a block is in use, in terms of the sectors alone: one bit each, lowest first, after the inodes |
| Bytes.LowestFirst | xv6/mkfs.c:48-58 | a word on disk is four bytes, the lowest first |
| Disk.HomeDecides | xv6/log.c:62-63 | the log area does not matter for which |
| Disk.CrashSafe | xv6/log.c:69-181 | after a crash at any point of a transaction and any crashes in recovery, the recovered disk holds the file system before it or the one after it |
| Fs.FileSystem.Take | xv6/fs.c:64-70 | the bit and then the zeroed block, each logged, and the sectors hold both |
| Fs.FileSystem.SetBlock | xv6/fs.c:481-484 | the block's contents, logged |
| File.SurvivesCrash | xv6/file.c:139-144 | a chunk's transaction passes the test for room at each log_write, fits the log, and is atomic under any crashes |
| File.CrashDuringWrite | xv6/file.c:134-151 | at whatever point a long write is cut, recovery leaves some beginning of it in the file, everything else as it was, and block accounts that balance |
| File.WroteTwice | xv6/file.c:134-151 | two adjacent writes are one |
| File.SevenSectors | xv6/file.c:126-132 | with one bitmap block a chunk logs at most seven sectors |
| File.SixSectors | xv6/fs.c:474-490 | at most six of them before the inode |
| File.ChunkAccepted | xv6/log.c:164-165 | so a log of eight sectors has room at every log_write of a chunk |
| File.Commit | xv6/log.c:124-181 | the log's code on a chunk: no panic, the file system after it on disk, and the disks on the way are exactly those a crash is considered at |
| File.CommitAll | xv6/file.c:134-151 | on all chunks of a write in a row: the disks on the way are those of the chunks, one after the other |
| File.CrashAnywhere | xv6/file.c:134-151 | from any of these disks, after any crashes in recovery, some beginning of the write is recovered, with balanced accounts |
| File.CommitWrite | xv6/file.c:134-151 | so it is from every disk that the log's code writes when it commits a whole write |
| File.CrashFindsLog | xv6/log.c:53-66 | at whatever point a chunk is cut and however often recovery is, the superblock still leads to the log |
| File.Start | xv6/log.c:53-66 | starting any disk whose superblock leads to the log, with a sound log, recovers it and leaves the log ready for transactions |
| File.Boot | xv6/mkfs.c:86-105 | a new disk that has been started: the log where the geometry has it, and an empty file to write, in the state that committing a write needs |
| File.Writer.WriteChunk | xv6/file.c:139-144 | one transaction: the chunk is written or nothing is, within seven sectors |
| File.Writer.Filewrite | xv6/file.c:117-155 | succeeds exactly when the whole write fits, and then is one write of n bytes; otherwise the chunks before the first that does not fit; its transactions follow on each other, each between two beginnings of the write, in sectors and in file contents |
| Directories.RefsPlus | xv6/sysfile.c:135 | one more entry is one more link |
| Directories.ChildIsRef | xv6/sysfile.c:204-205 | the inode that an entry names is in use and has a link, so "nlink < 1" is not reached |
| Directories.OnlyRef | xv6/sysfile.c:206-221 | only the entry in its parent names an empty directory |
| Directories.EmptyDirRefs | xv6/sysfile.c:206-221 | an empty directory has exactly one link |
| Directories.Parent | xv6/sysfile.c:214-217 | removing a directory leaves its parent linked: it has a second link |
| Directories.LeafKeeps | xv6/sysfile.c:135-151 | an entry for a file, with its count raised, keeps every count, the tree, and names apart |
| Directories.LeafIff | xv6/sysfile.c:241-277 | the counts are right afterwards exactly when the parent is still linked |
| Directories.DirKeeps | xv6/sysfile.c:254-272 | so does making a directory |
| Directories.DirIff | xv6/sysfile.c:254-272 | the counts are right afterwards exactly when the parent is still linked |
| Directories.MadeInRemoved | xv6/sysfile.c:234-277 | they do go wrong: a directory is made and removed, and whatever is then made in it leaves counts wrong |
| Directories.LessKeeps | xv6/sysfile.c:211-222 | so does removing the entry of a file |
| Directories.GoneKeeps | xv6/sysfile.c:211-222 | so does removing an empty directory, which then has no link |
| Directories.FreeKeeps | xv6/fs.c:317-336 | so does freeing an inode without links |
| Directories.FileTree.constructor | xv6/mkfs.c:107-118 | a new disk: the root, which is its own parent, and nothing else |
| Directories.FileTree.DirLookup | xv6/fs.c:505-529 | the first entry of that name, or there is none |
| Directories.FileTree.DirLink | xv6/fs.c:532-559 | refused exactly when the name is there; otherwise the entry is in the first free slot and no other slot changes; a full directory is a panic |
| Directories.FileTree.IsDirEmpty | xv6/sysfile.c:163-176 | whether there is an entry other than the dots |
| Directories.FileTree.Link | xv6/sysfile.c:115-160 | succeeds exactly for a file, a resolvable target and a new name; then its count is one higher, the entry is in the first free slot, and kinds, other slots and other inodes are as they were; otherwise nothing has changed, the raised count included; counts stay right exactly when the target was linked |
| Directories.FileTree.Unlink | xv6/sysfile.c:179-232 | when it succeeds; then the slot is empty, the count one lower, and the parent's too for a directory, and kinds, other slots and other inodes are as they were; counts stay right; the dots and full directories stay |
| Directories.FileTree.Ialloc | xv6/fs.c:180-198 | the first free inode, emptied |
| Directories.FileTree.Create | xv6/sysfile.c:234-277 | an existing file is returned when a file was asked for; otherwise the first free inode, of that kind with one link and the dots of a directory, and the entry in the first free slot; nothing else changes; counts stay right exactly when the parent was linked or nothing was made |
| Directories.FileTree.Reclaim | xv6/fs.c:317-336 | an inode without links is freed and counts stay right |
| Paths.SkipElem | xv6/fs.c:576-599 | the next element, cut to 14 characters, and where the one after it starts; none exactly when only slashes are left |
| Paths.Namex | xv6/fs.c:604-637 | an inode exactly when a chain of directories leads there, from the root for a leading slash and otherwise from the current directory, each having as its first entry of the next element's name the next inode; or the directory that holds the last element, and its name |
| Paths.ResolveIff | xv6/fs.c:604-637 | the same for the function that the other properties are about |
| Paths.ParentThenLookup | xv6/fs.c:639-650 | namei is nameiparent and one lookup |
| Paths.ResolvesToLinked | xv6/fs.c:604-637 | from a linked directory a path leads only to linked inodes, never to a free one |
| Paths.ElementsOfJoin | xv6/fs.c:564-599 | taking apart names of any length with any slashes around them gives the names back, cut to 14 characters |
| SleepWakeup.AdvanceKeeps | xv6/proc.c:508-563 | every instruction of sleep and wakeup keeps the locks, states and channels in order, and every sleeper who could go on owed a wakeup |
| SleepWakeup.ChangeKeeps | xv6/sleep1.p:116-133 | so does a change of the condition, with the wakeup before or after the lock is released |
| SleepWakeup.OtherKeeps | xv6/proc.c:423-454 | so do the scheduler and kill |
| SleepWakeup.RunKeeps | xv6/proc.c:508-563 | and so does every run |
| SleepWakeup.NoLostWakeups | xv6/proc.c:508-563 | in every reachable state a process that sleeps, or is about to, while the condition holds is owed a wakeup by a process that has yet to do it |
| SleepWakeup.WaitersHaveIt | xv6/sleep1.p:104-106 | over every run, a process that last began by waiting and is in its critical section has the condition |
| SleepWakeup.WaiterGoesOn | xv6/sleep1.p:97-133 | a run in which a waiter sleeps while the condition is false, and one in which, after a change and a wakeup, it goes on |
| SleepWakeup.AtRest | xv6/proc.c:517-526 | when all are idle or asleep, no one sleeps while the condition holds |
| SleepWakeup.LockDiscipline | xv6/spinlock.c:24-64 | one holder at a time for each lock; no lock is taken twice or released by another; sched is entered with the table's lock alone and a changed state |
| ExitWait.ExitKeeps | xv6/proc.c:348-363 | exit keeps families, sleepers and pids in order |
| ExitWait.ReapKeeps | xv6/proc.c:384-399 | a reaped pid was never returned before, and its slot is free |
| ExitWait.StartKeeps | xv6/proc.c:46-56 | so does taking a slot for a new process |
| ExitWait.ParentSet | xv6/proc.c:309 | so does naming its parent, without the lock |
| ExitWait.EndKeeps | xv6/proc.c:293-320 | so does letting it run, or giving the slot back |
| ExitWait.ProcTable.Wakeup1 | xv6/proc.c:546-554 | exactly the sleepers on the channel become runnable |
| ExitWait.ProcTable.Exit | xv6/proc.c:329-366 | a zombie; its parent is woken, its children are init's, init is woken for a zombie among them; nothing else of any slot changes; the invariant holds |
| ExitWait.ProcTable.AllocProc | xv6/proc.c:40-56 | the first free slot with a new pid and no parent yet, or none is free; other slots are as they were |
| ExitWait.ProcTable.Wait | xv6/proc.c:370-413 | a zombie child is reaped exactly when there is one: its slot is free, without pid, parent and mark, and other slots are as they were; failure exactly without children or when killed; otherwise sleep |
| ExitWait.ProcTable.Kill | xv6/proc.c:568-586 | the first slot with the pid is marked, and woken if asleep; other slots are as they were |
| ExitWait.NextKeeps | xv6/proc.c:280-413 | every event keeps families, sleepers and pids in order, and takes back no returned pid |
| ExitWait.Families | xv6/proc.c:280-413 | at every point of every run from boot: live parents, no sleeper in wait with a zombie child, no pid in use twice, none returned twice |
| ExitWait.UnmarkedIff | xv6/proc.c:280-586 | an event leaves the free slots unmarked exactly when it neither kills a pid that a free slot has nor is a fork that fails after its new process has been killed |
| ExitWait.StartsUnmarked | xv6/proc.c:280-586 | over every run from boot, no free slot is ever marked exactly when neither happens |
| ExitWait.BornKilled | xv6/proc.c:568-586 | it does happen: init kills pid 0 and forks, and the new process is marked |
| ExitWait.ProcTable.Perform | xv6/proc.c:280-413 | an event changes the table, the next pid and the returned pids as the step relation says |
| ExitWait.ProcTable.Run | xv6/proc.c:280-413 | the events are performed in order up to the first that cannot happen, and the tables passed through are a run |
| Pipe.WrappedPlace | xv6/pipe.c:92 | wrap-around at 2^32 does not move a byte's place in the ring |
| Pipe.WrappedApart | xv6/pipe.c:84-105 | the tests for empty and full are right for counters that wrap |
| Pipe.Ring.constructor | xv6/pipe.c:32-35 | an empty queue, both ends open |
| Pipe.Ring.Write | xv6/pipe.c:77-97 | the ring is the queue after the write; it ends exactly when all bytes fit into 512, and otherwise adds as many as fit; who is woken and who sleeps |
| Pipe.Ring.Read | xv6/pipe.c:99-120 | the ring is the queue after the read; the oldest bytes are returned, as many as asked for and there, and the rest stays; it sleeps or is interrupted exactly on an empty pipe that can be written |
| Pipe.Ring.Close | xv6/pipe.c:58-74 | the ring is the queue with one end closed and the other side woken |
| Pipe.Ring.Perform | xv6/pipe.c:58-120 | an event on the ring is the event on the queue, and accepts and returns the same bytes |
| Pipe.Ring.Run | xv6/pipe.c:58-120 | over any interleaving the ring is the queue, and what it accepted and returned is what the queue did |
| Pipe.NextConserves | xv6/pipe.c:77-120 | held and accepted bytes are returned and then held bytes |
| Pipe.FirstInFirstOut | xv6/pipe.c:77-120 | over any run, killed processes included: bytes in are bytes out and then the bytes held, at most 512 |
| Pipe.ReasonsIff | xv6/pipe.c:84-90 | an event keeps everyone's reason to sleep exactly when it is not a killed writer with more than 512 bytes beside a sleeping reader |
| Pipe.NoOneForgotten | xv6/pipe.c:77-120 | no one sleeps without a reason throughout a run exactly when that does not happen in it |
| Pipe.KilledWriter | xv6/pipe.c:84-90 | it does happen, from a new pipe: a reader asleep beside a full one |
| CowSpec.MadeWritable | xv6/proc.c:266-268 | making a page writable that no one else maps keeps every frame safe and all memory as it is seen |
| CowSpec.Moved | xv6/proc.c:258-264 | so does mapping a copy of its frame |
| CowSpec.Cleared | xv6/proc.c:301-304 | so does clearing write bits |
| CowSpec.Stored | xv6/trap.c:82-91 | a store to a writable page is seen by its process and by no other |
| CowSpec.Forked | xv6/proc.c:194-228 | the child's directory, table and frame give it the parent's memory, with shared frames read-only on both sides |
| Cow.Kernel.IsShared | xv6/proc.c:133-163 | the first scanned slot that shares decides; nothing exactly when no scanned slot shares |
| Cow.Kernel.FindSharer | xv6/proc.c:133-163 | with pid 0 on free slots only, a frame is reported shared exactly when the scan finds a sharer, and a directory or table never is |
| Cow.PackedFinds | xv6/proc.c:133-163 | with used slots packed the scan finds something exactly when a live process maps the frame too |
| Cow.Kernel.CopyFrame | xv6/proc.c:258-264 | the page is on a fresh frame with its contents |
| Cow.Kernel.CopyPage | xv6/proc.c:231-270 | a copy if the scan finds a sharer, the write bit otherwise; no panic |
| Cow.ServicedRight | xv6/proc.c:231-270 | that keeps frames safe and everyone's memory if the scan finds a sharer or there is none |
| Cow.ServicedKeeps | xv6/proc.c:231-270 | with used slots packed it always does, and the page is writable, and the user's if it was or was shared |
| Cow.Kernel.Store | xv6/trap.c:82-91 | a store, with the fault it may take, changes one byte of one process's memory; it takes effect exactly when the page is the user's or shared |
| Cow.Kernel.UserStore | xv6/trap.c:82-91 | the same for any page and offset; every other byte of everyone's memory is as it was |
| Cow.Kernel.Load | xv6/proc.c:194-228 | the byte that the page table leads to is the one that the process, or its forefathers before they forked, last had there |
| Cow.Kernel.ClearPages | xv6/proc.c:300-304 | every page but the last is read-only and no one has noticed |
| Cow.Kernel.MakeChild | xv6/proc.c:194-228 | the child sees the parent's memory, everyone else what they saw |
| Cow.Kernel.Fork | xv6/proc.c:280-323 | the first unused slot becomes a child with the parent's memory, sharing every frame but the last read-only, or there is none |
| Cow.Kernel.Exit | xv6/proc.c:362-363 | memory-wise, only the state changes |
| Cow.Kernel.Perform | xv6/proc.c:133-323 | an event changes slots, page tables, memory and rights as the step relation says |
| Cow.Kernel.Run | xv6/proc.c:133-323 | any sequence of forks, stores and exits is performed in order, and the states passed through are a run |
| Cow.StepIff | xv6/proc.c:133-323 | an event does what it does on a machine that copies exactly when it is not a store to a shared page that is not the user's |
| Cow.IndistinguishableIff | xv6/proc.c:133-323 | at every point of a run memory and rights are those of a machine that copies exactly when no event in it is such a store |
| Cow.PoliteMatches | xv6/proc.c:133-323 | they are if no process stores to its guard page on the machine that copies |
| Cow.GuardGoesAway | xv6/proc.c:258-264 | after a fork a store to the guard page takes effect, and memory is no longer what copying would have given |
| Cow.ServicedIsSafeIff | xv6/proc.c:133-270 | servicing a fault keeps frames safe exactly when it is not the case that there are sharers and all are behind a free slot |
| Cow.HoleHidesSharer | xv6/proc.c:138-140 | with a free slot between two sharers the scan misses one, and the fault makes the shared frame writable |
| VmSpec.NewTable | xv6/vm.c:54-63 | a frame from the free list becomes a table: one owner, no mapping changes |
| VmSpec.NewPage | xv6/vm.c:83-94 | a frame of nobody's becomes a user page, with one owner |
| VmSpec.PageFreed | xv6/vm.c:272-279 | unmapping a user page and freeing its frame keeps every frame in exactly one place |
| VmSpec.TableFreed | xv6/vm.c:294-299 | so does freeing an empty table |
| VmSpec.DirFreed | xv6/vm.c:300 | so does freeing an empty directory |
| Vm.Kernel.Kalloc | xv6/kalloc.c:81-94 | the head of the free list, or none |
| Vm.Kernel.WalkAlloc | xv6/vm.c:45-65 | the table, made if it is missing, for one frame; no mapping changes; fails exactly when it is missing and no frame is free |
| Vm.Kernel.MapPage | xv6/vm.c:83-91 | one page is mapped, or, exactly for want of a frame for its table, nothing changes |
| Vm.Kernel.MapPages | xv6/vm.c:75-96 | page n of a region is mapped to frame n of its frames, with the region's write bit and not for the user, one frame for each new table; nothing outside it changes |
| Vm.Kernel.SetupKvm | xv6/vm.c:137-153 | a new directory in which every page of every region has its own frame, the region's write bit and no user bit, and nothing else is mapped, exactly when there are frames for it and its tables; otherwise what was built stays in use |
| Vm.KernelEntries | xv6/vm.c:122-153 | frame and rights of each page of the kernel's map, and no entry outside it |
| Vm.Stride | xv6/vm.c:267-280 | where the loop can be, and what one stride passes over |
| Vm.Kernel.DeallocUvm | xv6/vm.c:258-282 | which pages go and which are stepped across; every frame freed once; other address spaces keep theirs |
| Vm.DeallocIff | xv6/vm.c:267-280 | nothing stays mapped in the range exactly when no mapped page lies where the stride misses |
| Vm.AlignedMissesNothing | xv6/vm.c:267-280 | from the start of a table nothing is stepped across |
| Vm.ContiguousMissesNothing | xv6/vm.c:267-280 | contiguous pages are all freed |
| Vm.StrideMisses | xv6/vm.c:267-280 | an unaligned start can leave a page mapped |
| Vm.Kernel.FreeVm | xv6/vm.c:286-301 | every user frame, table and the directory itself go back to the free list once; nothing else changes hands |
| Vm.Kernel.CopyPage | xv6/vm.c:365-374 | a fresh frame with the parent's contents; fails exactly without a frame for the page, or with just one where a table is missing, which is then lost |
| Vm.Kernel.CopyNext | xv6/vm.c:364-380 | one turn of the loop, with what is given back when it fails |
| Vm.Kernel.CopyUvm | xv6/vm.c:354-381 | succeeds exactly when there are frames for directory, kernel tables, pages and their tables; then exactly the parent's pages on fresh frames with equal contents, every kernel page on its frame with its rights and nothing else, the parent untouched; otherwise exactly when a page is lost and when the kernel part is |
| Vm.Kernel.CopyAndFree | xv6/vm.c:286-381 | the copy succeeds exactly when there are frames for it, and it and its end leave the free list with the frames it had |
| Vm.LosesPage | xv6/vm.c:370-380 | with three frames left the copy of one page loses the page's frame and nothing else |
| Vm.LosesDirectory | xv6/vm.c:143-152 | with one frame left the directory made stays in use, and the rest is as it was |
| Umalloc.OneCircle | xv6/user/umalloc.c:24-44 | following the list from any free block leads to every other |
| Umalloc.JoinUpper | xv6/user/umalloc.c:33-35 | taking over the upper neighbour keeps blocks disjoint, the list in order, free blocks apart |
| Umalloc.JoinLower | xv6/user/umalloc.c:38-40 | so does joining the lower neighbour |
| Umalloc.LinkLower | xv6/user/umalloc.c:41-42 | so does linking after it |
| Umalloc.TakeWhole | xv6/user/umalloc.c:76-77 | so does taking a whole block |
| Umalloc.TakeTail | xv6/user/umalloc.c:78-82 | so does taking the tail of a block |
| Umalloc.Conserved | xv6/user/umalloc.c:24-90 | free and live blocks add up to the units that sbrk gave |
| Umalloc.PayloadIsFree | xv6/user/umalloc.c:84 | what a program stores in its blocks does not concern the allocator |
| Umalloc.RoomIff | xv6/user/umalloc.c:69 | a block is large enough exactly when the rounding does not wrap, and never a unit too large |
| Umalloc.GrowthIff | xv6/user/umalloc.c:52-58 | what is asked of sbrk is what is used, exactly up to 2^31 - 16 bytes, and above 2^32 - 8 |
| Umalloc.Heap.FindPlace | xv6/user/umalloc.c:30-32 | the loop ends, at the free block after which the block belongs |
| Umalloc.Heap.Free | xv6/user/umalloc.c:24-44 | the block is free, alone or joined; the invariant holds; no live block is touched |
| Umalloc.Heap.MoreCore | xv6/user/umalloc.c:46-61 | at least 4096 units are added, or nothing; then the block found first or last is large enough |
| Umalloc.Heap.Search | xv6/user/umalloc.c:74-88 | one lap ends, at the first large enough block, or there is none |
| Umalloc.Heap.Fit | xv6/user/umalloc.c:74-88 | sbrk is asked exactly when nothing fits, and after it succeeds the next lap does |
| Umalloc.Heap.Malloc | xv6/user/umalloc.c:63-90 | a new live block, with room for the request exactly when it does not wrap and no unit to spare, or 0 exactly when nothing fits and sbrk fails; no live block is touched |
| Shell.LineSpanned | xv6/user/sh.c:266-309 | every word of a parsed line is a maximal word of the text |
| Shell.ParsesArgs | xv6/user/sh.c:430-446 | words one space apart are read back as arguments, in order |
| Shell.ParsesBlock | xv6/user/sh.c:400-414 | a parenthesised command is read back, and then its redirections |
| Shell.ParsesLine | xv6/user/sh.c:345-447 | what is printed at any place, up to a closing parenthesis or the end, is what is read there |
| Shell.RoundTrip | xv6/user/sh.c:328-447 | for every legal command, parsing its canonical text gives it back |
| Shell.LineFew | xv6/user/sh.c:440-441 | a command that parses has fewer than ten arguments everywhere |
| Shell.Normalises | xv6/user/sh.c:328-447 | every line that parses is a legal command, and parsing its canonical text gives it back |
| ShellTyping.ReadsAsTyped | xv6/user/sh.c:328-447 | every line of the grammar, with blanks, `<`, `>` and `>>` among the arguments, bare pipelines and parentheses anywhere they may be, is read as what it means |
| ShellTyping.PlainMeans | xv6/user/sh.c:328-447 | every legal command has such a line, in which no parentheses can be left out |
| ShellTyping.TypedRoundTrip | xv6/user/sh.c:328-447 | so every legal command typed that way, with `>` or `>>` and redirections after any of the arguments, is read back as itself |
| ShellTyping.ReadIff | xv6/user/sh.c:328-447 | a line is read exactly when it is one of the grammar, and then as the one thing it means |
| ShellParser.GetToken | xv6/user/sh.c:266-309 | the loops and cases compute the token |
| ShellParser.Peek | xv6/user/sh.c:311-321 | where the next token starts and whether it is one of those asked for |
| ShellParser.ParseRedirs | xv6/user/sh.c:375-398 | the loop computes the redirections that ReadIff is about, `>>` among them |
| ShellParser.ParseExec | xv6/user/sh.c:416-447 | the procedure computes the command or its panic |
| ShellParser.ParseArgs | xv6/user/sh.c:430-446 | the loop computes the arguments or the panic |
| ShellParser.ParseBlock | xv6/user/sh.c:400-414 | the procedure computes the block or its panic |
| ShellParser.ParsePipe | xv6/user/sh.c:362-373 | the procedure computes the pipeline |
| ShellParser.ParseLine | xv6/user/sh.c:345-360 | the procedure computes the line |
| ShellParser.TreeReads | xv6/user/sh.c:449-494 | with a NUL at the end of every word and at no word character, C strings read as the words scanned |
| ShellParser.NulTerminate | xv6/user/sh.c:450-494 | a NUL at the end of every word and nowhere else |
| ShellParser.ParseCmd | xv6/user/sh.c:328-343 | a command exactly when the text is a line of the grammar, and then its words, read as C strings from the buffer, make up what the line means; otherwise a panic, and the buffer is as it was |
| ShellParser.ParsePrinted | xv6/user/sh.c:328-494 | a buffer with the canonical text of a command reads, after parsing, as that command |
| Grep.HereOne | xv6/user/grep.c:92-93 | one character and then the rest |
| Grep.HereMany | xv6/user/grep.c:98-105 | the rest after some run of fitting characters |
| Grep.ParseOfShow | xv6/user/grep.c:84-95 | writing a pattern down and taking it apart gives it back |
| Grep.ShowOfParse | xv6/user/grep.c:84-95 | taking any text apart and writing it down gives the text back |
| Grep.MatchHere | xv6/user/grep.c:84-95 | true exactly when some stretch from here on is in the language |
| Grep.MatchStar | xv6/user/grep.c:98-105 | true exactly when the rest matches after some run of the character |
| Grep.Match | xv6/user/grep.c:71-81 | true exactly when some substring, anchored where required, is in the pattern's language |
| Grep.DottedFound | xv6/user/grep.c:71-95 | a pattern of characters and dots, with `^` or `$` or both, is found exactly where it occurs, at the start or the end where required |
| Grep.StarFound | xv6/user/grep.c:71-105 | `^c*` and more of these is found exactly when they occur after some run of the character |
| Grep.PlainFound | xv6/user/grep.c:71-95 | a pattern without special characters is found exactly where it occurs |

## Left out

- Drivers, boot code, interrupts, traps and system-call plumbing: no property beyond order of device accesses.
- The IDE queue: the disk is the synchronous one of `memide.c`.
- The inode fields type, major, minor and nlink in sectors, and the bytes of directory entries: `Disk.dfy` places sizes, addresses, bits and data; `Directories.dfy` has entries as values.
- Inode types, devices and `T_DEV` branches of `readi` and `writei`.
- The inode cache (`iget`, `iput` counts, `ilock`): operations start from resolved inodes. `Directories.FileTree.Reclaim` stands for the last `iput`.
- One device: `sys_link` across devices is not modelled.
- Sleeping inside the storage stack is an outcome (`Asleep`, `BeginTrans` false), not a wait; the stack is used by one process at a time.
- Yielding at a timer interrupt and processor affinity in `SleepWakeup.dfy`; `pushcli` and `popcli` nesting.
- Stores without the lock in `fork` are steps of their own in `ExitWait.dfy`; what other code reads them meanwhile is not.
- Frame reclamation under copy-on-write, processes over 4 MB, accessed and dirty bits, the TLB: frames carry no reference counts.
- `exec`, `growproc`, `allocuvm`, `loaduvm`, `copyout`.
- `runcmd` and the reading of the command line; grep's input loop.
- BufferCache.Cache.Bwrite: the buffer is valid, as every buffer that `bread` returns is.
- BufferCache.Cache.Brelse: a buffer whose data was changed must have been written or logged before it is released, as every caller does; what the cache would hold otherwise is not modelled.
- Log.Log.InitLog: trusts the header on disk to name at most ten home sectors, as the code does.
- Log.Log.Transaction: home sectors are outside the log.
- Fs.FileSystem.Iupdate: does not store type, major, minor and nlink.
- Fs.FileSystem.Bmap: the block asked for is mapped or the next one, as in `readi` and `writei`; files have no holes.
- Fs.FileSystem.BmapIndirect: the same.
- File.CrashDuringWrite: needs one bitmap sector and at least eight log sectors, as `mkfs` makes them, and a log that is empty when a transaction begins.
- Directories.FileTree.DirLink: the directory has room; a full one is a panic.
- Paths.Namex: takes the tree as it is at one moment; inode locks are not modelled.
- SleepWakeup.LockDiscipline: does not count `pushcli` nesting.
- Cow.Kernel.Run: needs three free frames for each fork and one for each store, and used slots that form a prefix.
- Cow.Kernel.UserStore: a store outside the process changes nothing. The code panics there, except at exactly the size of a process whose size is a whole number of pages: that address passes the test in `trap.c` and goes to `copypage`, which then panics on reading the page that is not there, or sets the write bit of its absent entry and faults for ever.
- Vm.Kernel.CopyUvm: takes page contents as a whole and frames as typed; the kernel's map is any set of disjoint regions in the upper half.
- Umalloc.Heap.Malloc: addresses and sizes count headers, so that alignment is taken for granted; what becomes of a process that asks `sbrk` for a negative amount is not modelled.
