# xv6 kernel and user programs: a verified model

A Dafny model of the hard parts of an xv6 kernel for RISC-V, extended with priorities, waitpid, threads, shared pages,
mutexes and semaphores, and of three of its user programs (malloc, the shell's parser and grep's matcher).  Code that
updates state step by step is modelled as classes and methods with loops, proved against specifications over values;
protocols between processes are modelled as step systems whose invariants hold in every state of every run.  Table sizes
(buffers, log blocks, processes, CPUs, descriptors, keys) are symbolic.

`dafny verify dfyconfig.toml` checks the whole project.

| files | what they model |
|---|---|
| `Blocks`, `Bcache` | disk blocks; the buffer cache and its ring of buffers |
| `Recovery`, `LogViews`, `Log` | the redo log: commit among other readers, installation, recovery, and crashes between any two disk writes |
| `Transactions` | whole operations through the log, from begin_op to the end of end_op, one after the other |
| `Admission` | begin_op, log_write and end_op by any number of processes |
| `Bitmap`, `Inodes`, `Contents`, `Journals`, `Files` | block allocation, who owns each block, inodes on disk, files as byte sequences |
| `Durability` | files through the log: what a crash leaves of them |
| `Strings`, `Directories`, `Paths` | names, directories as maps, path walks |
| `PageTables`, `VirtualMemory` | the frame pool and three-level page tables |
| `FreeRing`, `Umalloc` | the user-level allocator |
| `SleepWakeup`, `ExitWait`, `Scheduler` | sleep and wakeup under locks; exit and wait; the priority scheduler |
| `Rings`, `Virtio`, `Pipes` | ring buffers with wrapping counters, the disk queue, pipes |
| `Shm` | shared pages and their reference counts |
| `ShellParser`, `ShellGrammar`, `ShellPrinting`, `ShellStrings` | the shell's parser, its grammar, its round trip, and termination of words in place |
| `Regex` | grep's pattern matcher |

Main results, each over all inputs, runs or reachable states:

- A commit is atomic under a crash after any of its disk writes, and stays so however often recovery is itself cut short
  (`Recovery.AllOrNothing`).  The commit of the log makes exactly those writes, whatever other processes read, lock and
  release between any two of its steps (`Logging.Log.Commit`), and in every state the disk recovers to the last
  committed contents (`Logging.Log.CrashSafe`).
- Any number of operations one after the other are each durable as a whole or not at all (`Transactions.Run`), and a crash
  after any disk write leaves the contents from before or after the one under way (`Transactions.Transact`).
- A write to a file, taken through the allocator, the inode's bytes on disk and the log, leaves after a crash at any disk
  write a well-formed file system whose files are the old ones, or the old ones with the data spliced in
  (`Durability.WriteDurably`, `Durability.CrashConsistent`).
- A buffer that bread returns holds the block's logical contents, and eviction takes the unreferenced buffer released
  longest ago (`Logging.Log.Bread`, `BufferCache.Bcache.Bget`).
- log_write can panic for operations that keep within their reservation.  `Admission.AbsorbedWriteCanPanic` exhibits it
  with the kernel's own constants, and `Admission.PanicsExactlyWhenFull` says exactly when: the log is full, which never
  happens to a block that still needs a slot.
- No block is in two files, a data block is marked exactly when a file reaches it, and truncating never frees a free
  block; files are byte sequences that writei splices and readi slices.
- Every frame has at most one use after every operation, also one that ran out of memory, and freeing an address space
  returns exactly its own frames.
- No wakeup is lost and no exit goes unreaped by a waiting parent, for any number of processes and any interleaving.
- Whatever the scheduler dispatches beats every entry as its scan found it (`Scheduler.BeatsWhatItSaw`), and no CPUs wait
  for each other in a circle (`Scheduler.NoCycle`, `Scheduler.NeverDeadlocked`).
- mutex_release does not look at who calls it, so two processes can hold a mutex (`SleepWakeup.ReleaseCanShare`).  A lock
  is exclusive in every run in which only holders release it (`SleepWakeup.MutualExclusion`), and a release keeps it so
  exactly when the caller holds it (`SleepWakeup.ReleaseExactlyWhen`).
- mutex_init and sem_init on an object in use are safe exactly when they leave no sleeper with the way clear and take no
  lock from a holder (`SleepWakeup.ReinitExactlyWhen`); `SleepWakeup.ReinitCanStrand` reaches a state where they are not.
- The shell's parser answers exactly what a grammar of lines, pipelines and commands derives
  (`ShellGrammar.ParseExactly`), it inverts a printer that parenthesises everything, and the strings it leaves in the line
  buffer are the words it parsed.

## Model

| member | source | states |
|---|---|---|
| `BufferCache.Bcache.constructor` | kernel/bio.c:36-53 | binit: the buffers form one doubly linked cycle, none in use |
| `BufferCache.Bcache.Bget` | kernel/bio.c:58-89 | the one buffer for the block if it is cached; otherwise the unreferenced buffer released longest ago is recycled, and no block that is in use is ever held by two buffers; the panic happens exactly when the block is not cached and every buffer is referenced |
| `BufferCache.Bcache.FindCached` | kernel/bio.c:65-73 | the walk along next finds the block's buffer exactly when there is one |
| `BufferCache.Bcache.FindVictim` | kernel/bio.c:75-87 | the walk along prev stops at the unreferenced buffer whose last release is oldest |
| `BufferCache.Bcache.Brelse` | kernel/bio.c:116-137 | the last reference moves the buffer to the front, and the ring stays one cycle ordered by release |
| `BufferCache.Bcache.Bwrite` | kernel/bio.c:106-112 | exactly one disk block changes, to the buffer's contents |
| `BufferCache.UnlinkKeepsRing` | kernel/bio.c:128-129 | taking a buffer out by its two pointer writes leaves one cycle over the others, in order |
| `BufferCache.PushKeepsRing` | kernel/bio.c:130-133 | putting a buffer in at the front leaves one cycle over all buffers |
| `Recovery.HeadRoundTrip` | kernel/log.c:87-115 | a header written by write_head reads back as the same count and block list |
| `Recovery.CommitCrashAtomic` | kernel/log.c:179-204 | after any prefix of a commit's writes, recovery yields the old contents of every home block up to the header write and the new contents of every one after it |
| `Recovery.RecoveryCrashSafe` | kernel/log.c:66-124 | after any prefix of recovery's own writes, recovering again yields the same home blocks |
| `Recovery.RecoveryCrashesSafe` | kernel/log.c:66-124 | any number of crashes inside recovery does not change what it restores |
| `Recovery.AllOrNothing` | kernel/log.c:66-204 | a crash anywhere in commit followed by any number of crashes in recovery leaves all home blocks old or all new, decided by the header write |
| `Recovery.RecoveredOverlays` | kernel/log.c:117-124 | recovery installs exactly the listed log blocks and changes no other home block |
| `Logging.Log.CrashSafe` | kernel/log.c:66-204 | in every valid state the disk as it stands recovers to the durable contents of every home block |
| `Logging.Log.Bread` | kernel/bio.c:92-103 | a buffer nobody has locked is found or filled, is locked by the caller and holds the block's logical contents: the disk overlaid with what is logged and not yet installed; without a free buffer nothing changes |
| `Logging.Log.LogWrite` | kernel/log.c:215-236 | panics exactly when the log is full or no operation is active, and then nothing has changed; otherwise the block's logical contents become the buffer's, and the block list gains the block unless it is already there |
| `Logging.Log.BeginOp` | kernel/log.c:127-143 | an operation is admitted exactly when no commit runs and the log could hold every reservation |
| `Logging.Log.EndOp` | kernel/log.c:147-165 | one operation fewer; the last to leave, and only that one, is to commit, and from then on no operation is admitted |
| `Logging.Log.EndCommit` | kernel/log.c:171-174 | once commit has returned with nothing left pending, operations are admitted again |
| `Logging.Log.Acquire` | kernel/bio.c:58-103 | bread with any steps of other processes (reference, lock, fill, release) between its own: either the block's buffer is locked by the caller, or it waits or no buffer is to be had; what the caller had locked is untouched and the log stays consistent throughout |
| `Logging.Log.Others` | kernel/bio.c:58-137 | any steps of other processes keep the log consistent, and neither touch a buffer this process has locked nor drop its references |
| `Logging.Log.CopyToLog` | kernel/log.c:185-190 | one disk write, of the logical contents of the next listed block to its place in the log; the log stays consistent |
| `Logging.Log.WriteLog` | kernel/log.c:179-192 | among any steps of other processes, the writes are the logged blocks in order into the log area, all of them when it completes and a prefix otherwise, and no home block reads differently |
| `Logging.Log.WriteHead` | kernel/log.c:103-115 | one write, of the header block with the count and block list of the transaction |
| `Logging.Log.CommitHead` | kernel/log.c:199 | with every block copied, writing the header makes the whole transaction durable: the durable contents become the logical ones |
| `Logging.Log.InstallBlock` | kernel/log.c:75-82 | one disk write, of the next listed block to its home; its pin is dropped and the log stays consistent |
| `Logging.Log.Install` | kernel/log.c:66-84 | among any steps of other processes, the writes are the logged blocks to their home positions, in order, all of them when it completes and a prefix otherwise |
| `Logging.Log.EraseHead` | kernel/log.c:201-202 | one write, of a header that lists nothing, with which the transaction is gone from the disk and its contents stay |
| `Logging.Log.Commit` | kernel/log.c:194-204 | among any steps of other processes: however far it gets, it has made exactly the first writes of the commit that the crash analysis is about, no home block reads differently, and the durable contents are the old ones up to the header write and the new ones after it; when it completes the log is empty |
| `Logging.Log.Recover` | kernel/log.c:117-124 | with the buffers unlocked, as at boot: the disk becomes what recovery is specified to restore, by exactly the specified writes; if a buffer cannot be had the disk still recovers to the same contents |
| `LogViews.RecycleKeeps` | kernel/bio.c:75-87 | recycling an unreferenced buffer never loses a logged block that is not installed |
| `LogViews.InstallKeeps` | kernel/log.c:70-83 | installing one block keeps cache and disk in agreement |
| `Transactions.CommitSurvives` | kernel/log.c:194-204 | after any number of the disk writes of a commit, made or cut short, the disk recovers to the home blocks of before or of after it |
| `Transactions.Transact` | kernel/log.c:127-236 | an operation from begin_op through its log_writes to the end of end_op, among steps of other processes: completed, its updates are durable and the next may begin; stopped anywhere, all or none of them are; and a crash after any of its disk writes recovers to one of the two |
| `Transactions.Run` | kernel/log.c:127-236 | any number of operations in a row: those completed are durable in order, and the one that was not is durable as a whole or not at all |
| `Admission.StepKeeps` | kernel/log.c:127-236 | every step of every process keeps reservations, lock holders, sleepers and the block list consistent |
| `Admission.RunKeeps` | kernel/log.c:127-236 | the invariant holds in every state of every run from boot |
| `Admission.LogNeverOverflows` | kernel/log.c:127-143 | in every state of every run what is logged plus what active operations may still log fits in the log, and no block is listed twice |
| `Admission.NewBlockFits` | kernel/log.c:220-234 | a write of a block that needs a new slot always finds one |
| `Admission.CommitRunsAlone` | kernel/log.c:147-176 | while a process commits no operation is active and no other process commits |
| `Admission.SleepersWillBeWoken` | kernel/log.c:127-176 | with the lock free, a process asleep in begin_op must wait, and an operation is active or a commit under way that will wake it |
| `Admission.PanicsExactlyWhenFull` | kernel/log.c:220-225 | a write within its operation's reservation panics exactly when the log is full; then the block is already listed and every reservation is used up; an operation with reservation left never panics |
| `Admission.AbsorbedWriteCanPanic` | kernel/log.c:220-225 | a reachable state with the kernel's constants in which a write of an already listed block panics |
| `Files.ChunkFitsReservation` | kernel/file.c:148-173 | on a disk with at most four bitmap blocks the blocks logged by one chunk of filewrite fit in MAXOPBLOCKS |
| `Files.ChunkFootprint` | kernel/file.c:148-173 | one chunk logs at most the bitmap blocks, four data blocks, the indirect block and the inode block |
| `Bitmap.MarkedAfter` | kernel/fs.c:66-106 | setting or clearing a block's bit changes the mark of that block and of no other |
| `Inodes.NoSharing` | kernel/fs.c:405-444 | two different slots of files never hold the same block |
| `Inodes.MarkedIffReachable` | kernel/fs.c:405-476 | a data block is marked in the bitmap exactly when some file reaches it |
| `Inodes.AllocKeeps` | kernel/fs.c:66-89 | marking a free block keeps every file's blocks distinct and marked |
| `Inodes.FreeKeeps` | kernel/fs.c:92-106 | clearing the mark of a block no slot reaches keeps them so |
| `Inodes.AssignKeeps` | kernel/fs.c:411-429 | a freshly allocated block put in a direct slot or as the indirect block |
| `Inodes.AssignEntryKeeps` | kernel/fs.c:430-440 | a freshly allocated block put in an entry of the indirect block |
| `Files.FileSystem.Balloc` | kernel/fs.c:66-89 | the lowest free block, marked and zeroed, or 0 exactly when the disk is full |
| `Files.FileSystem.Bfree` | kernel/fs.c:92-106 | the panic happens exactly when the block is not marked; otherwise the block's mark goes and nothing else changes |
| `Files.FileSystem.Bmap` | kernel/fs.c:405-444 | panics exactly for a position past the largest file, with nothing changed; otherwise the block of the file at that position, allocated and zeroed if there was none, or 0: only when the disk is full, and always then if there was none; nothing already in any file changes, and ownership holds on every exit |
| `Files.FileSystem.Itrunc` | kernel/fs.c:448-476 | no bfree panics, exactly the inode's blocks lose their owner and mark, the inode is empty in memory and on disk, every other inode and every data block is as before |
| `Files.FileSystem.Iupdate` | kernel/fs.c:226-242 | the inode's size and block addresses are stored in its block, which is logged; no other block changes |
| `Journals.GetPutInode` | kernel/fs.h:31-45 | an inode stored in its block reads back, and storing it disturbs no other inode of the block |
| `Files.FileSystem.Readi` | kernel/fs.c:494-519 | the exact slice of the file within its size, across block and indirect boundaries; nothing changes |
| `Files.FileSystem.Writei` | kernel/fs.c:528-562 | the bytes that fit on the disk are spliced in at the offset, every other file is unchanged, and the inode is written back; -1 exactly for a bad offset or length; a short count, at a block boundary, only when the disk is full or the source could not be read, and in that case more bytes within the file may be overwritten in one block that is not logged |
| `Files.FileSystem.Filewrite` | kernel/file.c:148-173 | the file is spliced with the bytes written, the offset advances by them, the result is the whole count or -1; it stops short only on a full disk, past the largest file or at memory it cannot read, and then as writei does; each transaction logs at most the bitmap blocks and six more |
| `Contents.StoredIsSplice` | kernel/fs.c:539-554 | what the write loop stored block by block is the splice of the flat byte sequence |
| `Durability.CrashConsistent` | kernel/log.c:66-204 | a crash after any of the writes of a commit, followed by any number of crashes during recovery: once recovery completes the disk holds a well-formed file system with the files of before the transaction, or of after it if the header was written |
| `Durability.Persist` | kernel/log.c:127-236 | what an operation on files logged, taken through the log among steps of other processes: durable when it completes, and after every disk write a crash leaves the files from before the operation or its own |
| `Durability.WriteDurably` | kernel/file.c:155-168 | one transaction of filewrite down to the disk writes: whenever the machine stops, recovery finds the files as they were or with the chunk spliced into this file, and nothing else changed |
| `Strings.Strncmp` | kernel/string.c:60-68 | 0 exactly when the strings cut to n bytes are equal, otherwise the difference at the first differing byte |
| `Strings.Strncpy` | kernel/string.c:70-81 | the string cut to n bytes and padded with NULs, the rest of the destination untouched |
| `Directories.DecodeEncode` | kernel/fs.h:56-61 | an entry reads back with its name cut to DIRSIZ and its inode number truncated to 16 bits |
| `Directories.Dirlookup` | kernel/fs.c:574-598 | what the directory's map says of the cut name, with the offset of the entry that says it |
| `Directories.Dirlink` | kernel/fs.c:602-629 | on success the map gains exactly the cut name, which was absent; for an inode number that is 0 modulo 65536 the call also returns 0 but the entry is a free one and the map stays as it was; on failure the directory is unchanged, and it fails only for a name that is there, a full disk or a full directory; no other file changes |
| `Directories.LinkAt` | kernel/fs.c:615-626 | storing an entry in a free or new slot adds one key to the map |
| `Directories.ListingNames` | kernel/fs.c:583-595 | a name is in the map exactly when a live entry carries it |
| `Paths.Skipelem` | kernel/fs.c:645-668 | nothing exactly when no component is left; otherwise the first component cut to DIRSIZ, and a position whose remaining components are the others |
| `Paths.ComponentsJoin` | kernel/fs.c:633-668 | any non-empty slash-free names come back from a path that spells them with any number of slashes |
| `Paths.Namex` | kernel/fs.c:674-707 | the fold of directory lookups over all components from the root or the current directory, or over all but the last, which is left in name |
| `PageTables.NoSharing` | kernel/vm.c:145-174 | no two mappings of any address spaces share a frame that a page table owns |
| `PageTables.OneReference` | kernel/vm.c:97-115 | at most one page-table entry refers to any pool frame, and none to a free one |
| `PageTables.PathsMeet` | kernel/vm.c:97-115 | walks that meet in a bottom table come from the same root and the same 512 pages |
| `PageTables.LeafLookup` | kernel/vm.c:145-174 | changing one bottom entry changes one page of one address space in the flat map |
| `PageTables.NewTableLookup` | kernel/vm.c:108-112 | linking in a zeroed table changes no mapping |
| `VirtualMemory.Vm.constructor` | kernel/kalloc.c:26-40 | kinit: every pool frame is on the free list once |
| `VirtualMemory.Vm.Kalloc` | kernel/kalloc.c:68-82 | the first free frame, or 0 exactly when there is none |
| `VirtualMemory.Vm.Kfree` | kernel/kalloc.c:46-63 | the frame is first on the free list |
| `VirtualMemory.Vm.Walk` | kernel/vm.c:97-115 | the bottom table of the page, built if asked; no mapping changes; it fails to build only when fewer than two frames are left |
| `VirtualMemory.Vm.Mappages` | kernel/vm.c:145-174 | panics on an unaligned or empty range with nothing changed, and on the first page that is mapped already; otherwise exactly the named pages are mapped to consecutive frames, all or, when memory for tables runs out, the first of them; no other mapping changes |
| `VirtualMemory.Vm.Uvmcreate` | kernel/vm.c:178-187 | a new address space with nothing mapped |
| `VirtualMemory.Vm.Uvmunmap` | kernel/vm.c:192-212 | none of the named pages is mapped, no other mapping changes, and only leaves of this address space are released |
| `VirtualMemory.GivenUp` | kernel/vm.c:192-212 | the frame of every page that was unmapped is back in the pool, or with the caller |
| `VirtualMemory.Vm.Uvmalloc` | kernel/vm.c:216-240 | every new page maps zeroed memory of its own with the right flags, or none does and no frame is lost; it fails only with fewer than three free frames for each page |
| `VirtualMemory.Vm.Uvmdealloc` | kernel/vm.c:246-258 | exactly the pages the new size does not need are gone |
| `VirtualMemory.Vm.Uvmcopy` | kernel/vm.c:296-324 | the child maps a private copy of every page with equal flags and contents, or nothing; the parent and everyone else are unchanged |
| `VirtualMemory.Vm.Freewalk` | kernel/vm.c:262-278 | every table of the tree is freed and nothing else; the panic on a leaf cannot happen once no page is mapped |
| `VirtualMemory.Vm.Uvmfree` | kernel/vm.c:282-288 | exactly the tables and pages of this address space are freed; all other frames and address spaces are unchanged |
| `FreeRing.Tiling` | user/umalloc.c:24-90 | every unit of the heap is in exactly one block, free or live |
| `FreeRing.AbsorbedKeeps` | user/umalloc.c:33-35 | merging with the free block above keeps order, tiling and separation |
| `FreeRing.JoinedKeeps` | user/umalloc.c:38-40 | merging with the free block below does |
| `FreeRing.InsertedKeeps` | user/umalloc.c:36-42 | linking a block in between does |
| `FreeRing.CarvedKeeps` | user/umalloc.c:78-82 | splitting off the tail of a free block does |
| `Umalloc.Allocator.FindPlace` | user/umalloc.c:29-32 | the search ends, at the last free block below the one being freed |
| `Umalloc.Allocator.Free` | user/umalloc.c:24-44 | the block becomes free, merged with its free neighbours; the ring stays in address order with one wrap, no two free blocks touch, every live block keeps its size |
| `Umalloc.Allocator.Morecore` | user/umalloc.c:46-61 | at least the units asked for join the heap, or nothing changes |
| `Umalloc.Allocator.Malloc` | user/umalloc.c:63-90 | a block of its own of exactly the units the request needs; 0 exactly when no free block is large enough and sbrk refuses; sbrk is asked at most once and only then; both loops end |
| `Umalloc.RequestFits` | user/umalloc.c:46-72 | for requests up to 2^31 - 32 bytes no size computation overflows |
| `Umalloc.SizeFits` | user/umalloc.c:11-17 | in a heap of fewer than 2^32 units no block outgrows its 32-bit size field |
| `SleepWakeup.StepKeeps` | kernel/proc.c:910-955 | every step of sleep, wakeup, acquire and release, by any process, keeps lock holders, sleepers and values consistent |
| `SleepWakeup.RunKeeps` | kernel/proc.c:910-955 | the invariant holds in every state of every run from boot |
| `SleepWakeup.SleepersMustWait` | kernel/sysproc.c:178-221 | in every state of every run, with the object's spinlock free, a process asleep on it or committed to sleep finds it locked or its count 0 |
| `SleepWakeup.MutualExclusion` | kernel/sleeplock.c:21-41 | a lock that only holders release never has two holders and is locked exactly while it has one, in every state of every run |
| `SleepWakeup.StolenIff` | kernel/sysproc.c:201-221 | a lock counts as stolen exactly when some earlier step released it, locked, for a process that did not hold it |
| `SleepWakeup.ReleaseExactlyWhen` | kernel/sysproc.c:201-221 | releasing a locked mutex leaves it free with nobody still inside exactly when the caller holds it; the source does not check |
| `SleepWakeup.ReleaseCanShare` | kernel/sysproc.c:201-221 | a reachable state in which two processes hold one mutex, after a release by a process that did not hold it |
| `SleepWakeup.CountConserved` | kernel/sysproc.c:242-303 | in every run, with objects initialised again at any time: a semaphore's count is its last initial value plus the posts less the successful waits since, is not negative, and fits an int while value and posts do |
| `SleepWakeup.ReinitExactlyWhen` | kernel/sysproc.c:157-176 | initialising an object in use keeps the invariant exactly when no process is committed to sleep on it (if the new value lets one through) and, for a lock, it has no holder |
| `SleepWakeup.ReinitCanStrand` | kernel/sysproc.c:157-176 | a reachable state in which initialising a mutex leaves a process asleep on a free lock |
| `ExitWait.StepKeeps` | kernel/proc.c:413-615 | every step of fork, exit, reparent, wait and sleep keeps the process table consistent |
| `ExitWait.RunKeeps` | kernel/proc.c:413-615 | the invariant holds in every state of every run from boot |
| `ExitWait.NobodyWaitsInVain` | kernel/proc.c:523-615 | in every state of every run, with wait_lock free, nobody asleep in wait, waitpid or join has a matching zombie child |
| `ExitWait.ParentsAreLive` | kernel/proc.c:463-521 | no process's parent is a zombie or an unused slot |
| `ExitWait.ForestRootedAtInit` | kernel/proc.c:463-476 | from every live or zombie process parents lead to init |
| `ExitWait.ReapedOnce` | kernel/proc.c:523-615 | no process is reaped twice, and the status delivered for each is the one it exited with |
| `ExitWait.ToldToTheParent` | kernel/proc.c:708-779 | for every report in every run there is a step at which it was made, by the parent of a process that was a zombie then, with that zombie's pid and status |
| `Scheduler.StepKeeps` | kernel/proc.c:794-869 | every step of every CPU keeps locks, choices and running processes consistent |
| `Scheduler.RunKeeps` | kernel/proc.c:794-869 | the invariant holds in every state of every run from boot |
| `Scheduler.DispatchesTheBest` | kernel/proc.c:805-829 | what a CPU dispatches has the highest priority its scan saw runnable, at the lowest index among equals, and still has it |
| `Scheduler.Seen` | kernel/proc.c:807-821 | in every run, a scan has looked at every entry it has passed, with the entry's lock held, and remembers it as it was at that step |
| `Scheduler.BeatsWhatItSaw` | kernel/proc.c:805-829 | in every run, against every entry of the table: the scan looked at it at some step, and if it was runnable then it had a lower priority than the process dispatched, or the same and no lower index; with nothing to dispatch no entry was runnable |
| `Scheduler.NeverOnTwoCpus` | kernel/proc.c:823-829 | no process runs on two CPUs in any state of any run |
| `Scheduler.HeldLieBelow` | kernel/proc.c:807-821 | the lock a waiting scan holds lies below the one it waits for |
| `Scheduler.AtMostTwo` | kernel/proc.c:807-821 | a CPU never holds three process locks |
| `Scheduler.WaitsClimb` | kernel/proc.c:807-821 | if one scan waits for a lock another holds, the other waits further up the table |
| `Scheduler.NeverDeadlocked` | kernel/proc.c:794-831 | from any CPU, following who holds the lock that each one needs is a chain of CPUs that ends at one that can take a step of its own |
| `Scheduler.NoCycle` | kernel/proc.c:794-831 | no chain of CPUs, each needing a lock the next one holds, closes to a circle |
| `Scheduler.BlockedClimb` | kernel/proc.c:807-821 | along such a chain the locks needed go up the table |
| `Rings.Pushed` | kernel/pipe.c:95 | an entry put in the next slot disturbs none of those waiting |
| `Rings.SameSlot` | kernel/pipe.c:95 | a wrapping counter picks the same slot as the true count |
| `Virtio.Disk.AllocDesc` | kernel/virtio_disk.c:156-166 | the first free descriptor, or -1 exactly when there is none |
| `Virtio.Disk.FreeDesc` | kernel/virtio_disk.c:169-182 | one more free descriptor, neither panic possible, every sleeper woken |
| `Virtio.Disk.FreeChain` | kernel/virtio_disk.c:185-197 | exactly the request's three descriptors become free |
| `Virtio.Disk.Alloc3Desc` | kernel/virtio_disk.c:201-213 | three distinct descriptors exactly when three are free; otherwise the free descriptors are as before |
| `Virtio.Disk.Submit` | kernel/virtio_disk.c:215-281 | a chained request is published, or the process sleeps exactly when fewer than three descriptors are free |
| `Virtio.Disk.Publish` | kernel/virtio_disk.c:271-277 | the avail ring gains the request and no pending entry is overwritten, 16-bit wrap included |
| `Virtio.Disk.DeviceTake` | kernel/virtio_disk.c:271-281 | the device always takes the oldest published request |
| `Virtio.Disk.DeviceComplete` | kernel/virtio_disk.c:309-317 | a request the device has taken goes to the used ring, in any order and with any status |
| `Virtio.Disk.Seen` | kernel/virtio_disk.c:312-324 | the oldest completion is for the buffer its request was for; it panics exactly on a status that is not 0, with nothing changed, and otherwise releases that buffer |
| `Virtio.Disk.Intr` | kernel/virtio_disk.c:294-327 | the completions are handled in order up to the first with a status that is not 0, where it panics, and all of them if there is none |
| `Virtio.HandledIs` | kernel/virtio_disk.c:312-324 | handling completions makes exactly their requests done and releases exactly their buffers |
| `Virtio.Disk.Finish` | kernel/virtio_disk.c:283-292 | the request is gone, its three descriptors are free and nobody is left asleep for descriptors |
| `Virtio.NeverFull` | kernel/virtio_disk.c:201-213 | requests listed in a ring never fill it |
| `Pipes.Pipe.Write` | kernel/pipe.c:76-103 | the bytes stored extend what was stored; sleeping means a full buffer with all readers woken; the killed exit wakes nobody |
| `Pipes.Pipe.Read` | kernel/pipe.c:105-134 | the bytes returned are the next ones stored, in order; sleeping means an empty open pipe and no sleeping writer |
| `Pipes.Pipe.Close` | kernel/pipe.c:58-74 | the other side is woken and the pipe is freed exactly when both ends are closed |
| `Pipes.Pipe.Rouse` | kernel/proc.c:961-979 | killing a process asleep in the pipe takes it off the sleepers and leaves the pipe consistent |
| `Shm.CountIsAttached` | kernel/proc.c:81-180 | when nothing is half done each key's count is the number of processes with its bit |
| `Shm.NoDanglingMap` | kernel/proc.c:81-180 | whoever maps a key's address maps the key's existing page, in every state |
| `Shm.Table.Get` | kernel/proc.c:108-151 | the process is attached at the key's fixed address, or nothing changes; it fails exactly for a bad key or when memory runs out |
| `Shm.Table.Release` | kernel/proc.c:170-177 | the count drops by one and the page is freed exactly when no reference is left |
| `Shm.Table.Detach` | kernel/proc.c:153-180 | exactly the key's bit is cleared, or -1 when it was not set |
| `Shm.Table.Cleanup` | kernel/proc.c:81-106 | every reference of the process is given up |
| `Shm.Table.Share` | kernel/proc.c:644-673 | run without interruption, the thread is attached to exactly its creator's pages, or torn down with all counts and pages as before; the missing-page exit is never taken |
| `Shm.Table.ShareKey` | kernel/proc.c:645-672 | one key of it under the key's lock: the creator's reference means the page is there, and count, bit and mapping of the thread agree afterwards |
| `Shm.Table.ShareAmong` | kernel/proc.c:644-673 | with any steps of other processes between the keys, the thread ends up attached to exactly its creator's pages, or torn down with none |
| `Shm.Table.ClearMask` | kernel/proc.c:105 | with every reference given up, the mask is cleared and counts still agree |
| `Shm.Table.CleanupAmong` | kernel/proc.c:81-106 | with any steps of other processes between the keys, the process ends up with no page and no reference |
| `ShellParser.GetToken` | user/sh.c:271-314 | the token at the cursor: kind, extent and where the next begins |
| `ShellParser.Peek` | user/sh.c:316-326 | whether the next character after spaces is one of those asked for |
| `ShellParser.ParseRedirs` | user/sh.c:380-403 | the command wrapped in the redirections that follow, the first innermost, or the missing-file error |
| `ShellParser.ParseSimple` | user/sh.c:421-452 | the words and redirections of a simple command, or its error |
| `ShellParser.ParseLine` | user/sh.c:350-365 | the grammar of lines, for every input |
| `ShellParser.ParsePipe` | user/sh.c:367-378 | the grammar of pipelines, for every input |
| `ShellParser.ParseBlock` | user/sh.c:405-419 | the grammar of blocks, for every input |
| `ShellParser.ParseCmd` | user/sh.c:333-348 | parsing ends on every input with what the descent specifies: a command that took the whole line, or an error |
| `ShellGrammar.ParseExactly` | user/sh.c:333-452 | the parser answers a command exactly when a syntax tree of lines, pipelines, commands, blocks, words and redirections spells out the line and stands for that command |
| `ShellGrammar.OneMeaning` | user/sh.c:333-452 | no line stands for two commands |
| `ShellPrinting.RoundTrip` | user/sh.c:333-452 | every command of valid words, at most MAXARGS - 1 in each simple command, comes back from its fully parenthesised printing |
| `ShellPrinting.PrintComesBack` | user/sh.c:350-452 | it does so inside any line, up to a closing parenthesis or the end |
| `ShellStrings.ParseTokens` | user/sh.c:271-452 | every word of every parsed command is a maximal token of the input |
| `ShellStrings.NulTerminate` | user/sh.c:454-499 | every word's NUL is written, and only where no word has a character |
| `ShellStrings.StringsAreWords` | user/sh.c:454-499 | after termination every argv and file string is exactly its word |
| `ShellStrings.ParseLineBuffer` | user/sh.c:333-348 | for every line that parses, the strings the command points at in the buffer are the words it was parsed from |
| `Regex.MatchHere` | user/grep.c:84-96 | true exactly when the pattern's pieces fit the beginning of the text |
| `Regex.MatchStar` | user/grep.c:99-106 | true exactly when some number of the starred character and then the rest fit |
| `Regex.Match` | user/grep.c:72-82 | true exactly when the pattern matches at some position, or at the first when it begins with '^' |

## Left out

- Logging.Log.Recover: assumes no buffer is locked, as at boot.
- Logging.Log.Bread: assumes nobody holds the block's buffer locked; with others about it is Logging.Log.Acquire, and waiting for the lock is the sleeplock of SleepWakeup.
- Logging.Log.EndOp: assumes that an operation has logged every buffer it changed before it is the last to leave.
- Logging.Log.Commit: a step that would wait for a lock, or finds no free buffer, ends the modelled run there; a run in which it waits and goes on is one in which the others' steps up to the release come before its attempt.
- Transactions.Run: operations come one at a time; several in one group commit are in Admission.
- Durability.Persist: takes one operation on files at a time, and one that left no block changed without logging it, which only a failed copy from user memory does.
- Durability.WriteDurably: the data to write can be read; a failed copy is in Files.FileSystem.Writei.
- SleepWakeup.StepKeeps: lets only a holder release a sleeplock, which the source's callers check by holdingsleep.
- SleepWakeup.CountConserved: the count is a natural number; past the largest int, where the source's count overflows, it goes on counting.
- ExitWait.StepKeeps: does not model wrap-around of process ids; sleep on other channels is part of running.
- Umalloc.Allocator.Malloc: assumes sbrk hands out header-aligned addresses below 2^36 bytes.
- Shm.Table.Get: keeps the shared-page window apart from the heap, as growproc does not check it.
- Pipes.Pipe.Write: does not promise that readers are woken after a writer is killed; the source does not wake them.
- Critical sections of pipes, the disk queue and shared pages are single steps, each a method; interleaving inside sleep and wakeup is in SleepWakeup.
- Inode reference counts, inode locks, ialloc and link counts; of an inode on disk only size and addresses, not type, device and link count.
- exec, and frames shared by threads (uvmshare, thread_freepagetable).
- copyin, copyout, copyinstr, vmfault and uvmclear: they would add little to the page-table results.
- The kernel's own page table, traps, interrupts, timers, devices other than the disk queue, and memory fences: steps are sequentially consistent.
- Spinlocks themselves: acquire and release are single steps.
- Fairness of the scheduler: strict priorities give none.
- Running commands in the shell, cd, and grep's reading of files.
- The exec node that the shell's parser fills while redirections already wrap it is modelled as a value with words added inside, not as a shared pointer.
