# Verified models of the xv6 kernels' core

Dafny models of one coherent xv6 kernel - the shared log, file, pipe and sleeplock code with
the amd64 file system, processes and virtual memory on top - and of two user programs, the
shell's parser and grep. Each model takes the form of its source: a class or an array where the
C updates memory in place, a loop where the C has one, a state machine where processes
interleave. `dafny verify dfyconfig.toml` checks everything.

## What is here

- `Blocks`, `LogProtocol`, `LogInvariant`, `LogRuns`, `LogBudget`: the write-ahead log with
  group commit as a state machine in which every disk write, buffer eviction and crash is a
  step, and its theorems over all runs. `LogImpl` is the C code as a class, each of whose
  methods extends a run of that machine. `LegacyLog` is the older log, held to the same
  crash specification.
- `Inodes`, `InodeLayer`, `FileIO`: the bitmap, direct and indirect addressing, truncation,
  readi, writei and filewrite over real blocks. Each used block has one owner, files are byte
  sequences without holes and with nothing allocated past their ends; each operation of
  filewrite stays within the log's budget, and itrunc logs the bitmap and one block more.
  `Mkfs` builds the first image and `Resize` is itruncate of libfs; `MkfsRuns` has two runs of
  mkfs that end badly.
- `DiskInodes`, `CrashFiles`: the inodes as bytes of their blocks, and the file system over the
  log: after any crash the disk recovers to a file system in order.
- `LinkCounts`, `Directories`: link counts and names under link, unlink and create, each with
  its whole next state; `DirectoryRuns` has the calls that reach the states where counts fail.
- `Pipes`, `PipeProtocol`, `PipeImpl`, `SleepLocks`, `ProcTable`: the pipe's ring with wrapping
  counters; sleep and wakeup with two locks, for pipes and for sleeplocks, with the loops of
  pipe.c as stretches of those runs; and the process table.
- `PageTables`, `AddressSpaces`: four-level page tables as a map, and the page allocator with
  every failure path; `ExecMemory` is what exec does with it.
- `ShellGrammar`, `ShellRoundTrip`, `ShellParser`: the shell's grammar, its printer, and the
  parser as it runs, with nulterminate on the line's own buffer.
- `Grep`: the matcher against a declarative language, and the line buffer.

## What the proofs turned up

- log_write tests the header's length before it looks for the block in it, and mkfs makes the
  log LOGSIZE blocks long: "too big a transaction" can be reached if operations use all of
  MAXOPBLOCKS (`LogBudget.ShippedLog`). The chunks of filewrite log at most 7 blocks on an
  image of 2000 blocks, which leaves room.
- A writer that is killed leaves bytes in a pipe without waking its reader
  (`PipeProtocol.KilledWriterLosesWakeup`); that is the only way in which a wakeup is lost
  (`PipeProtocol.NoLostWakeup`).
- kill marks a free slot of the process table exactly when it is given pid 0 or the pid of an
  embryo that fork gave back, and allocproc keeps the mark (`ProcTable.Table.Kill`,
  `ProcTable.Table.AllocProc`, `ProcTable.KillBeforeBirth`, `ProcTable.KillGivenBack`).
- The amd64 sys_link and create do not refuse an nlink at its maximum, as the comment on
  NLINK_MAX in include/kernel/fs.h says and the riscv64 ones do. A file's count can wrap
  (`LinkCounts.LinkStarts`, `DirectoryRuns.MaxLinks`, `DirectoryRuns.LinkOnTop`). A directory's
  cannot: `LinkCounts.DirCreated` has the condition, but the maximum is out of reach, on mkfs's
  200 inodes and on any number, as a directory's file is too short (`LinkCounts.DirLinks`).
- A link made in a directory that has been removed meanwhile is counted and lost
  (`Directories.LinkExact`, `DirectoryRuns.CreateInRemoved`, `DirectoryRuns.LinkInRemoved`).
- mkfs rounds the root directory's size up by a block even when it is whole, which leaves a
  hole (`Mkfs.Image.Finish`, `MkfsRuns.RootWithHole`), and its check on the space left counts
  the block of the root directory as a free one (`Mkfs.Image.Margin`,
  `MkfsRuns.MarginTooSmall`).
- freevm frees the user pages below the size it is given and no others
  (`AddressSpaces.AllReturned`); exec passes it the 0 that a failed allocuvm has just returned,
  so the pages of earlier segments are lost. That happens exactly when a segment of nonzero size
  fits and a later one, or the stack, is the first that does not (`ExecMemory.Exec`,
  `ExecMemory.LosePage`). A first segment that ends at address 0 makes exec fail with memory to
  spare, as allocuvm returns the size.
- grep never gets past a line of 1023 characters or more, and writes no last line that lacks
  its newline; what it prints is short of the matching lines by exactly those
  (`Grep.GrepFile`, `Grep.OutputAndUnread`).

## Model

| member | source | states |
|---|---|---|
| LogRuns.CrashAtomicity | kernel/filesystems/log.c:131-237 | at every state of every run, whatever crash comes next, one recovery of the disk gives exactly the image of the durable prefix of operations, and no operation is cut in two by that prefix |
| LogRuns.DurableForever | kernel/filesystems/log.c:160-190 | the durable prefix only grows: nothing that has committed is undone by later operations, crashes or recoveries |
| LogRuns.CrashThenRecover | kernel/filesystems/log.c:69-137 | after a crash, any number of further crashes inside recovery, and one complete recovery, the home blocks are the image that was durable at the first crash |
| LogRuns.SyncSurvives | kernel/filesystems/log.c:197-209 | when sys_sync returns, every operation that had ended before it was called is durable, at the return and ever after |
| LogRuns.QuiescentLog | kernel/filesystems/log.c:140-190 | with no operation open and no commit under way the log header is empty and nobody sleeps in begin_op |
| LogRuns.ReadsLatest | kernel/filesystems/log.c:82-97 | under any eviction of unpinned buffers, bread between operations returns the block as the operations so far have left it |
| LogRuns.NoOrderPanics | kernel/filesystems/log.c:160-170 | the panics on the order of calls (end_op while committing, log_write outside an operation) are unreachable |
| LogRuns.RunInv | kernel/filesystems/log.c:140-281 | the invariant and the history of operations hold at every state of every run, crashes included |
| LogRuns.Extend | kernel/filesystems/log.c:140-281 | an enabled step lengthens a run; the class below is tied to the protocol by it |
| LogInvariant.StepInv | kernel/filesystems/log.c:82-281 | every step - one disk write, one buffer action, one call - keeps the invariant of log, cache, pins and disk |
| LogInvariant.InvSound | kernel/filesystems/log.c:131-237 | in every state that satisfies the invariant, recovery of the disk as it is gives the durable image |
| LogInvariant.SoundRecovers | kernel/filesystems/log.c:131-137 | a disk whose header lists nothing, or lists blocks that the log holds whole, recovers to one definite image |
| LogInvariant.HeadRoundTrip | kernel/filesystems/log.c:99-128 | read_head gets back the n block numbers that write_head put into the header block |
| LogInvariant.LogWriteStep | kernel/filesystems/log.c:260-281 | log_write keeps the invariant: absorbed blocks are not pinned twice, new ones once |
| LogInvariant.CommitPoint | kernel/filesystems/log.c:227-233 | the write of the header turns the durable image into the new one in a single step |
| LogInvariant.InstallStep | kernel/filesystems/log.c:82-97 | each block copied home, with its unpin, keeps the durable image |
| LogInvariant.CommitIsEnabled | kernel/filesystems/log.c:227-237 | a commit that has begun can always take its next step |
| LogBudget.SpaceReserved | kernel/filesystems/log.c:140-190 | lh.n and the unused budgets of all open operations together never exceed what begin_op reserves |
| LogBudget.RoomyNeverPanics | kernel/filesystems/log.c:260-268 | if 10 + 2*budget is below LOGSIZE and below nlog - 1 no run reaches the panic of log_write |
| LogBudget.TightPanics | kernel/filesystems/log.c:260-268 | otherwise some run reaches it: the run is constructed |
| LogBudget.PanicExactly | kernel/filesystems/log.c:260-268 | the panic is reachable if and only if 10 + 2*budget is not below both bounds |
| LogBudget.ShippedLog | tools/mkfs.c:67 | with the nlog = LOGSIZE of mkfs the panic is reachable exactly when operations may append MAXOPBLOCKS entries; with nine or fewer it is not |
| LogImpl.Log.constructor | kernel/filesystems/log.c:68-79 | the first boot: the first state of a run, on a disk whose log is empty, as mkfs leaves it; nothing is recovered yet |
| LogImpl.Log.Reboot | kernel/filesystems/log.c:68-79 | power on after any run, stopped at whichever disk write: the run goes on with its crash, memory empty and the disk as it was left |
| LogImpl.Initlog | kernel/filesystems/log.c:68-137 | a boot after such a stop: recover_from_log ends with the home blocks that the operations durable at the stop make of the first disk |
| LogImpl.Log.Bread | kernel/devices/storage/bio.c:59-89 | a cached block if there is one, else the disk's; the cache agrees afterwards |
| LogImpl.Log.WriteLog | kernel/filesystems/log.c:211-225 | extends the run of the protocol by one step for each block written, all of which recover to the old image |
| LogImpl.Log.CommitHead | kernel/filesystems/log.c:117-128 | one disk write, and one step of the protocol: the commit point |
| LogImpl.Log.InstallTrans | kernel/filesystems/log.c:82-97 | extends the run by one step a block, in recovery and in commit, and every disk on the way recovers to the same image |
| LogImpl.Log.ClearHead | kernel/filesystems/log.c:131-137 | the header on disk is empty, and the image the same |
| LogImpl.Log.ReadHead | kernel/filesystems/log.c:99-111 | the header in memory is the one on disk |
| LogImpl.Log.RecoverFromLog | kernel/filesystems/log.c:130-137 | whatever is on disk, the home blocks become the recovered image and the log is empty |
| LogImpl.Log.CommitLog | kernel/filesystems/log.c:227-237 | write_log, the header, install_trans and the clearing header as one stretch of a run |
| LogImpl.Log.Commit | kernel/filesystems/log.c:227-237 | of the disks written in order, those before one point recover to exactly the old image and all from it on to exactly the new one |
| LogImpl.Log.BeginOp | kernel/filesystems/log.c:140-156 | starts the operation if and only if the log has room and no commit runs; otherwise the caller sleeps |
| LogImpl.Log.LeaveOp | kernel/filesystems/log.c:160-181 | end_op up to the release of the lock: the operation is over, and the last one out begins the commit |
| LogImpl.Log.EndOp | kernel/filesystems/log.c:160-190 | the last operation out commits; ends in a state where the operation is in the history |
| LogImpl.Log.LogWrite | kernel/filesystems/log.c:260-281 | panics exactly when the log is full by either bound; otherwise the block is in the log once and pinned once |
| LogImpl.Log.Sync | kernel/filesystems/log.c:197-209 | sys_sync up to its first sleep: returns at once exactly when no operation and no commit is under way, and then everything is durable |
| LogImpl.Log.SyncCheck | kernel/filesystems/log.c:201-207 | its loop after each wakeup: ends exactly when the commit it waits for has been counted, and then all that was done before the call is durable |
| LegacyLog.Log.constructor | kernel/filesystems/log-legacy.c:54-68 | recovery at boot gives the image the disk stood for, at every disk write on the way |
| LegacyLog.Log.BeginTrans | kernel/filesystems/log-legacy.c:126-135 | one transaction at a time |
| LegacyLog.Log.LogWrite | kernel/filesystems/log-legacy.c:161-183 | the log block is written at once, and every disk so far recovers to the old image; panics exactly when the log is full by either bound |
| LegacyLog.Log.CommitHead | kernel/filesystems/log-legacy.c:137-151 | the write of the header: the one moment at which the image becomes the new one |
| LegacyLog.Log.CommitTrans | kernel/filesystems/log-legacy.c:137-151 | the same specification as the other log: one point in the sequence of disk writes before which recovery gives the old image and from which on it gives the new |
| LegacyLog.Log.InstallTrans | kernel/filesystems/log-legacy.c:70-84 | each disk on the way home recovers to the same image |
| LegacyLog.CommitMoment | kernel/filesystems/log-legacy.c:100-115 | writing the header makes the logged blocks the durable image |
| LegacyLog.LegacyWrite | kernel/filesystems/log-legacy.c:171-181 | writing a log block while the header is empty changes no image, and the log then holds the new image's block |
| Blocks.SetWordAt | forks/amd64/kernel/fs.c:408-413 | storing a 32-bit word in a block changes that word and no other |
| Inodes.SetBitAt | forks/amd64/kernel/fs.c:67-69 | setting a bitmap bit changes that bit and no other |
| Inodes.ClearBitAt | forks/amd64/kernel/fs.c:90-94 | clearing one likewise |
| Inodes.ExactlyOneSlot | forks/amd64/kernel/fs.c:391-456 | a data block's bit is set if and only if some pointer or indirect entry of some inode names it, and then only one does |
| Inodes.AllocPtr | forks/amd64/kernel/fs.c:398-407 | taking a free block for an empty pointer keeps one owner for each used block, and every file's blocks |
| Inodes.AllocEntry | forks/amd64/kernel/fs.c:408-413 | the same for an entry of an indirect block |
| Inodes.FreeDirect | forks/amd64/kernel/fs.c:435-440 | freeing a direct block: its bit was set, and nobody else owned it |
| Inodes.FreeEntry | forks/amd64/kernel/fs.c:445-448 | freeing an entry's block: its bit was set, and nobody else owned it |
| Inodes.FreeIndirect | forks/amd64/kernel/fs.c:449-452 | freeing the indirect block once its entries are freed |
| InodeLayer.FileSystem.Balloc | forks/amd64/kernel/fs.c:56-79 | the first clear bit is set and its block zeroed; the panic exactly when every bit is set; one free block less |
| InodeLayer.FileSystem.Bfree | forks/amd64/kernel/fs.c:81-97 | clears the bit; the panic exactly when it is clear already |
| InodeLayer.FileSystem.Bmap | forks/amd64/kernel/fs.c:391-419 | the block's address, taken from the bitmap if it was missing, with the indirect block if that was missing too; it panics exactly when fewer blocks are free than it lacks; nothing mapped before moves or changes; what is logged is bounded, and every block that has changed is logged |
| InodeLayer.FileSystem.BmapIndirect | forks/amd64/kernel/fs.c:404-416 | the indirect half of bmap: one or two blocks taken, or the panic exactly when there are not so many |
| InodeLayer.FileSystem.PtrBlock | forks/amd64/kernel/fs.c:397-407 | a pointer of the inode, allocated if empty, which fails exactly when no block is free; every block that has changed is logged |
| InodeLayer.FileSystem.EntryBlock | forks/amd64/kernel/fs.c:408-413 | an entry of the indirect block, allocated if empty, which fails exactly when no block is free; every block that has changed is logged |
| InodeLayer.FileSystem.Iupdate | forks/amd64/kernel/fs.c:239-255 | the inode on disk becomes the one in memory |
| InodeLayer.FileSystem.Itrunc | forks/amd64/kernel/fs.c:428-456 | "freeing free block" is unreachable; the inode names no block, the blocks still owned are exactly those of other inodes, and other files keep their bytes; what has changed is logged, and only bitmap blocks and the inode's block are, at most two blocks when one bitmap block covers the disk |
| InodeLayer.FileSystem.TruncDirect | forks/amd64/kernel/fs.c:435-440 | one direct block of itrunc |
| InodeLayer.FileSystem.TruncEntry | forks/amd64/kernel/fs.c:445-448 | one indirect entry of itrunc |
| InodeLayer.FileSystem.TruncIndirect | forks/amd64/kernel/fs.c:442-452 | the indirect half of itrunc |
| InodeLayer.FileSystem.FreeInode | forks/amd64/kernel/fs.c:354-364 | iput on an inode with no links and no other reference frees it and all its blocks, and only those; what has changed is logged, within the same bound |
| Inodes.OwnsTight | forks/amd64/kernel/fs.c:391-535 | files that are given blocks only up to their new size have nothing allocated past their end, and neither has any other file |
| FileIO.Writei | forks/amd64/kernel/fs.c:508-535 | -1 exactly for a bad offset or too long a write; the panic exactly when the larger file takes more blocks than it has and are free; otherwise the file's bytes become the old ones with the new laid over them at off, no hole appears, nothing is allocated past any file's end, no other file changes, free blocks and the file's blocks are together as many as before; every block that has changed is logged, none of them in the log itself; and a chunk of filewrite logs at most 10 blocks (7 when one bitmap block covers the disk), panic or not |
| FileIO.WriteBlocks | forks/amd64/kernel/fs.c:519-528 | the loop of writei: it ends early exactly when the blocks for the larger file are not there, and within the budget even then |
| FileIO.WriteBlock | forks/amd64/kernel/fs.c:520-526 | one round of it: a block found or allocated, patched, logged; it fails exactly when the blocks it lacks are not free |
| FileIO.NextLack | forks/amd64/kernel/fs.c:391-419 | what the next piece of a write takes is what the larger file takes more than the smaller one, indirect block included |
| Inodes.OwnsTo | forks/amd64/kernel/fs.c:391-419 | a file given blocks for its bytes below some point has none past it, and an indirect block only if the point is past the direct ones |
| FileIO.Readi | forks/amd64/kernel/fs.c:479-501 | the bytes of the file in the range, cut at its end; nothing changes |
| FileIO.ReadBlock | forks/amd64/kernel/fs.c:492-498 | one round of its loop: a piece of the file from one block, nothing changed |
| FileIO.SpliceRead | forks/amd64/kernel/fs.c:479-535 | reading back what was written gives it; the bytes before and after are the old ones |
| FileIO.SpliceTwice | kernel/files/file.c:155-174 | two adjacent chunks are one write |
| FileIO.FileWrite | kernel/files/file.c:148-175 | the whole source or -1, -1 exactly when the file is not writable, the offset is past its end or it would outgrow MAXFILE, and then all whole chunks before that; the panic exactly when the blocks for what it goes on to write are not there; the file, as the last operation that ended has left it, is the splice of what was written; every operation logs at most MAXOPBLOCKS blocks, the one that panics too, and at most 7 on a disk with one bitmap block |
| Mkfs.LayoutValid | tools/mkfs.c:134-145 | the computed layout has a bit for every block and a place for every inode, exactly when the metadata fits the image |
| Mkfs.MarginExact | tools/mkfs.c:217-232 | what the unsigned test amounts to, with and without a wrap of the difference |
| Mkfs.Image.Margin | tools/mkfs.c:217-232 | on every image that can be built the difference does not wrap: the check passes exactly when the free blocks and those of the root directory together are 2*MAXFILE |
| Mkfs.Image.constructor | tools/mkfs.c:147-156 | the empty image satisfies the invariant of the inode layer |
| Mkfs.Image.IAlloc | tools/mkfs.c:293-305 | the next inode, of the given kind with one link |
| Mkfs.Image.TakePtr | tools/mkfs.c:336-344 | the next free block becomes a pointer and no other slot changes |
| Mkfs.Image.TakeEntry | tools/mkfs.c:345-349 | the next free block becomes an indirect entry and no other slot changes |
| Mkfs.Image.PtrFor | tools/mkfs.c:336-344 | a pointer of the inode, taken if it is empty, which fails exactly on a full image |
| Mkfs.Image.EntryFor | tools/mkfs.c:345-350 | an entry of the indirect block, taken if it is empty, which fails exactly on a full image |
| Mkfs.Image.BlockFor | tools/mkfs.c:334-351 | the block for an offset of the file, taken if it is not there, one block or two; it fails exactly when the image has not so many left |
| Mkfs.Image.IAppend | tools/mkfs.c:325-367 | it ends early exactly when the larger file takes more blocks than the image has left, where rsect fails on the block past the end; otherwise as many blocks as that are taken, the file is its old bytes and the new ones; every other file is as it was; no hole and nothing past the end |
| Mkfs.Image.Balloc | tools/mkfs.c:307-321 | exactly the bits of the blocks taken are set; it gives up exactly when they do not fit one bitmap block |
| Mkfs.Image.Finish | tools/mkfs.c:236-245 | the finished image has one owner for each used block, nothing allocated past any end, and it is free of holes if and only if the root directory does not fill its last block exactly |
| MkfsRuns.Start | tools/mkfs.c:147-172 | main up to the files: the root directory has its two entries and one block |
| MkfsRuns.Pack | tools/mkfs.c:193-203 | a file of so many blocks and its entry in the root directory take exactly the blocks and the indirect block for it |
| MkfsRuns.RootWithHole | tools/mkfs.c:174-245 | on the shipped geometry, thirty empty files make the finished image one with a hole |
| MkfsRuns.MarginTooSmall | tools/mkfs.c:206-234 | on the shipped geometry, eight files leave 371 free blocks, and the check for 2*MAXFILE = 372 passes |
| Resize.ITruncate | forks/amd64-jserv/tools/libfs.c:352-396 | -1 exactly for a device or a size over the maximum, the exit exactly when the larger file takes more blocks than it has and are free; otherwise the file is cut or filled with zeroes to the size, every block given back was its own, other files are unchanged, and the file system is in order for the next call |
| Resize.Shrink | forks/amd64-jserv/tools/libfs.c:360-385 | the blocks from the new end to the old one, and only those, leave the file |
| Resize.Grow | forks/amd64-jserv/tools/libfs.c:387-393 | the bytes from the old end on are zero; it fails exactly when the blocks for that are not there |
| Resize.CutDirect | forks/amd64-jserv/tools/libfs.c:365-368 | one direct block given back |
| Resize.CutEntry | forks/amd64-jserv/tools/libfs.c:375-378 | one indirect entry given back and cleared |
| Resize.DirectCut | forks/amd64-jserv/tools/libfs.c:365-368 | ownership and all other files survive it |
| Resize.EntryCut | forks/amd64-jserv/tools/libfs.c:375-378 | ownership and all other files survive it |
| Resize.IndirectCut | forks/amd64-jserv/tools/libfs.c:379-382 | an indirect block without entries can go |
| DiskInodes.SetHalfAt | forks/amd64/kernel/fs.c:239-255 | storing a 16-bit field changes that field and no other |
| DiskInodes.PutInodeAt | forks/amd64/kernel/fs.c:239-331 | what iupdate writes into an inode block ilock reads back, and the block's other inode is as it was |
| DiskInodes.UpdateOn | forks/amd64/kernel/fs.c:239-255 | on the disk, iupdate changes one inode of all |
| CrashFiles.FilesFrame | forks/amd64/kernel/fs.c:391-501 | the file system's order and every file's bytes depend on the inodes, the bitmap and the data blocks alone |
| CrashFiles.FilesSurvive | kernel/filesystems/log.c:131-237 | stop any run anywhere: if the first disk holds a file system in order and the operations between two quiet points keep it so, the disk recovers to a file system in order, with the inodes and the files that the durable operations have made |
| CrashFiles.FilesRecovered | kernel/filesystems/log.c:69-137 | the same of the disk itself after a crash, any number of crashes in recovery, and a complete recovery |
| CrashFiles.WritesLaid | forks/amd64/kernel/fs.c:239-255 | the blocks given to log_write, with what they hold at the end, turn a disk laid out as the inode layer was into one laid out as it is |
| CrashFiles.LoggedWrite | kernel/files/file.c:160-167 | one operation of filewrite: at most MAXOPBLOCKS writes to blocks outside the log, after which the disk holds a file system in order in which the file is the old one with the chunk laid over it; -1 and the panic exactly as in writei |
| CrashFiles.OneOp | kernel/filesystems/log.c:140-190 | begin_op, those writes and end_op lead from one quiet point of the history to the next, and do to the disk what the writes do |
| Directories.Dirs.constructor | tools/mkfs.c:147-170 | the root alone, with one link: every count is right |
| Directories.Dirs.Hold | forks/amd64/kernel/fs.c:262-291 | one reference more, which keeps an inode without links from being freed |
| Directories.Dirs.DirLookup | forks/amd64/kernel/fs.c:548-572 | the first entry of the name, found if and only if there is one |
| Directories.Dirs.DirLink | forks/amd64/kernel/fs.c:575-602 | enters the name in the first unused slot or at the end, exactly when it is not there yet; nothing else changes |
| Directories.Dirs.IsDirEmpty | forks/amd64/kernel/sysfile.c:168-181 | true exactly when nothing but the first two entries is used |
| Directories.Dirs.LinkBegin | forks/amd64/kernel/sysfile.c:131-140 | refuses directories; counts the link before it is made, and the counts stay right exactly when nlink was below its maximum |
| Directories.Dirs.LinkEnd | forks/amd64/kernel/sysfile.c:142-164 | the name stands for the inode in the first vacant slot and nothing else has changed, or the count is back to what it was, whatever other calls did in between; the counts are right after every failure, and after success exactly when the directory is still linked |
| Directories.Dirs.Unlink | forks/amd64/kernel/sysfile.c:184-239 | succeeds exactly for a name other than . and .. that stands for a file or an empty directory; the next inodes are given whole: the entry erased, the links taken, what nobody uses any more freed, all else as before; the name is gone, and counts and directory tree are right |
| Directories.Dirs.Detach | forks/amd64/kernel/sysfile.c:213-224 | the writes of unlink on the entry and both inodes, and iput, as one definite next state |
| Directories.Dirs.Create | forks/amd64/kernel/sysfile.c:241-284 | for a name that is there, its inode exactly when a file is wanted and found, else 0, and no change; for a new name the first free inode, under the name in the first vacant slot, and no other change; the counts are right afterwards exactly when the parent is linked and, for a directory, its nlink does not wrap |
| Directories.Dirs.Dots | forks/amd64/kernel/sysfile.c:272-278 | the two entries of a new directory, and the parent's link for them |
| Directories.Dirs.IAlloc | forks/amd64/kernel/fs.c:213-233 | the first inode of kind 0 |
| Directories.Dirs.Put | forks/amd64/kernel/fs.c:350-371 | frees the inode exactly when it has no links and no other references |
| Directories.LinkExact | forks/amd64/kernel/sysfile.c:142-150 | a link entered in a directory is counted right if and only if the directory has not been removed meanwhile |
| LinkCounts.LinkStarts | forks/amd64/kernel/sysfile.c:138-139 | counting one more link is right if and only if nlink is not at the maximum of a short |
| LinkCounts.LinkUndone | forks/amd64/kernel/sysfile.c:156-161 | the rollback of sys_link restores the counts |
| LinkCounts.LinkEntered | forks/amd64/kernel/sysfile.c:142-150 | the entry matches the link that was counted |
| LinkCounts.FileEntered | forks/amd64/kernel/fs.c:575-602 | a new entry for a file adds one to its count alone and keeps names unique and directories a tree |
| LinkCounts.FileCreated | forks/amd64/kernel/sysfile.c:259-280 | a new file is counted right if and only if its directory is linked |
| LinkCounts.DirCreated | forks/amd64/kernel/sysfile.c:268-280 | a new directory and its parent are counted right if and only if the parent is linked and not at the maximum |
| LinkCounts.FileUnlinked | forks/amd64/kernel/sysfile.c:213-224 | erasing a file's entry and its link keeps every count |
| LinkCounts.DirUnlinked | forks/amd64/kernel/sysfile.c:213-224 | an empty directory has exactly one link and its parent at least two; removing it keeps every count, and the parent is still linked |
| LinkCounts.EmptyDirCounts | forks/amd64/kernel/sysfile.c:203-209 | why: one entry names an empty directory, and no directory's .. does |
| LinkCounts.NodeFreed | forks/amd64/kernel/fs.c:354-364 | freeing an inode without links leaves no dangling entry |
| LinkCounts.DirLinks | forks/amd64/kernel/sysfile.c:268-280 | a directory has fewer links than its file has slots: its nlink cannot reach the maximum of a short, as a file of 186 blocks has 5952 slots |
| DirectoryRuns.RemovedDir | forks/amd64/kernel/sysfile.c:184-239 | calls that remove a directory which somebody has open |
| DirectoryRuns.CreateInRemoved | forks/amd64/kernel/sysfile.c:241-284 | a file created in it has one link and no name: the counts are wrong |
| DirectoryRuns.LinkInRemoved | forks/amd64/kernel/sysfile.c:118-164 | a link entered in it between the halves of sys_link is counted and has no name |
| DirectoryRuns.MaxLinks | forks/amd64/kernel/sysfile.c:118-164 | calls that give one file 32767 links in seven directories of the size that mkfs's file system allows, every count right |
| DirectoryRuns.LinkOnTop | forks/amd64/kernel/sysfile.c:138-139 | the next sys_link makes its nlink negative, and the counts are wrong |
| LinkCounts.RefsSet | forks/amd64/kernel/sysfile.c:118-284 | the number of entries naming an inode changes by what one directory's change amounts to |
| Pipes.InFlight | kernel/ipc/pipe.c:76-130 | the ring is empty exactly when all that was written has been taken, full exactly when PIPESIZE bytes are on the way, though both counters wrap at 2^32 |
| Pipes.PutCarries | kernel/ipc/pipe.c:95 | a byte put in arrives behind the others |
| Pipes.TakeCarries | kernel/ipc/pipe.c:123 | the byte taken is the oldest on the way |
| Pipes.SamePlace | kernel/ipc/pipe.c:95 | the slot of a wrapped counter is the slot of the true count, since PIPESIZE divides 2^32 |
| PipeImpl.Pipe.constructor | kernel/ipc/pipe.c:31-37 | empty, with both ends open: the first state of a run of the protocol |
| PipeImpl.Pipe.WriteOne | kernel/ipc/pipe.c:83-96 | one test of the loop and one byte, as one step of the run: it stops exactly when the source ends, the reader is gone, the writer is killed or the ring is full |
| PipeImpl.Pipe.WriteSome | kernel/ipc/pipe.c:83-98 | the loop as a stretch of a run by steps of the writer alone: bytes go in until the source ends, the ring is full, the reader is gone or the writer is killed, and the writer is where the protocol has it next |
| PipeImpl.Pipe.ReadOne | kernel/ipc/pipe.c:120-126 | one test of the copying loop and the oldest byte, as one step of the run |
| PipeImpl.Pipe.ReadSome | kernel/ipc/pipe.c:120-126 | the oldest bytes, as many as asked for or as there are, by steps of the reader alone |
| PipeProtocol.NoLostWakeup | kernel/ipc/pipe.c:58-130 | in every run, when both locks are free: a writer sleeps only on a full pipe with its read end open; a reader sleeps rightly, on an empty pipe with its write end open, if and only if the pipe is empty, and wrongly exactly when a killed writer has left bytes behind and nobody has been woken since |
| PipeProtocol.NeverBothAsleep | kernel/ipc/pipe.c:76-130 | without kills, readers and writers never sleep at the same time |
| PipeProtocol.FirstInFirstOut | kernel/ipc/pipe.c:76-130 | in every run the bytes read are a prefix of the bytes written, and at most PIPESIZE behind |
| PipeProtocol.KilledWriterLosesWakeup | kernel/ipc/pipe.c:84-87 | a run in which a reader sleeps on though a byte is there: the killed writer returns without a wakeup |
| PipeProtocol.StepInv | kernel/ipc/pipe.c:58-130 | every step of readers, writers, closers and kill keeps the invariant |
| PipeProtocol.SleepInv | forks/amd64/kernel/proc.c:457-492 | releasing the lock inside sleep, under ptable.lock, loses no wakeup |
| PipeProtocol.WakeInv | forks/amd64/kernel/proc.c:498-514 | wakeup leaves nobody asleep on its channel |
| SleepLocks.MutualExclusion | kernel/concurrency/sleeplock.c:19-50 | in every run at most one process is between acquiresleep and releasesleep, and locked and pid say exactly which, as holdingsleep reads them |
| SleepLocks.NoLostWakeup | kernel/concurrency/sleeplock.c:19-39 | when both spinlocks are free a process sleeps on the lock only while another has it |
| SleepLocks.NeverStuck | kernel/concurrency/sleeplock.c:19-39 | while any process is in a call or has the lock, some process can take a step |
| SleepLocks.StepInv | kernel/concurrency/sleeplock.c:19-39 | every step, kills included, keeps the invariant |
| ProcTable.Table.constructor | forks/amd64/kernel/proc.c:13-35 | an empty table satisfies the invariant |
| ProcTable.Table.AllocProc | forks/amd64/kernel/proc.c:83-130 | the first unused slot becomes EMBRYO with a new pid; -1 exactly when none is unused; the newborn is marked killed if and only if the slot was, and then kill had been given pid 0 or that of an embryo given back |
| ProcTable.Table.Abandon | forks/amd64/kernel/proc.c:203-208 | a failed fork gives its slot back |
| ProcTable.Table.Adopt | forks/amd64/kernel/proc.c:209-230 | fork records the parent and makes the child runnable |
| ProcTable.Table.SetState | forks/amd64/kernel/proc.c:362-492 | scheduler, yield and sleep change one state and keep the invariant |
| ProcTable.Table.Wakeup1 | forks/amd64/kernel/proc.c:497-505 | exactly the processes asleep on the channel become runnable |
| ProcTable.Table.Wakeup | forks/amd64/kernel/proc.c:508-514 | the same with the lock taken and released |
| ProcTable.Table.Kill | forks/amd64/kernel/proc.c:519-537 | marks the first slot of the pid, waking it if it sleeps; -1 exactly when there is none; the slot is an unused one if and only if the pid is 0 or that of an embryo that fork gave back |
| ProcTable.KillFinds | forks/amd64/kernel/proc.c:519-537 | why: an unused slot's pid is 0 or a given-back embryo's, and no process's is |
| ProcTable.NewbornMark | forks/amd64/kernel/proc.c:83-130 | an unused slot is marked exactly when kill has found it, and then by such a pid |
| ProcTable.KillBeforeBirth | forks/amd64/kernel/proc.c:519-537 | a run in which kill(0) marks a free slot and the process born there next is marked already |
| ProcTable.KillGivenBack | forks/amd64/kernel/proc.c:203-208 | the same with the pid of an embryo that fork gave back |
| ProcTable.KillEmbryo | forks/amd64/kernel/proc.c:203-208 | the same when the embryo itself is killed before fork gives it back |
| ProcTable.Table.Exit | forks/amd64/kernel/proc.c:237-278 | init inherits the children, and the parent and init are woken as needed: no process sleeps in wait with a zombie child |
| ProcTable.Table.Wait | forks/amd64/kernel/proc.c:282-322 | reaps a zombie child if there is one, -1 exactly when there is no child or the caller is killed, else sleeps with no zombie child; in each case all other slots are as they were |
| ProcTable.Table.Reap | forks/amd64/kernel/proc.c:294-307 | the slot is free again, and the pid is in the reaped ones that it was not in before |
| ProcTable.WokenKeeps | forks/amd64/kernel/proc.c:497-505 | wakeup1 keeps the invariant on parents, waiters and pids |
| ProcTable.ExitedKeeps | forks/amd64/kernel/proc.c:237-278 | the step of exit keeps every recorded parent alive and misses no waiter |
| ProcTable.ExitedPids | forks/amd64/kernel/proc.c:237-278 | an exited pid is in exactly one zombie |
| ProcTable.ReapKeeps | forks/amd64/kernel/proc.c:294-307 | each exited process is reaped once |
| ProcTable.AllocKeeps | forks/amd64/kernel/proc.c:83-130 | a new process shares its pid with nobody |
| ProcTable.AbandonKeeps | forks/amd64/kernel/proc.c:203-208 | giving up an EMBRYO orphans nobody |
| ProcTable.StateKeeps | forks/amd64/kernel/proc.c:362-492 | changing between running, runnable and sleeping keeps the invariant, given that no sleeper in wait has a zombie child |
| PageTables.AddTree | forks/amd64/kernel/vm.c:76-85 | a new table under an empty directory slot gives a tree again |
| PageTables.AddEntry | forks/amd64/kernel/vm.c:76-85 | and maps every address to what it was mapped to |
| PageTables.SetTree | forks/amd64/kernel/vm.c:106 | writing a leaf entry gives a tree again |
| PageTables.SetReads | forks/amd64/kernel/vm.c:106 | it changes the map at one virtual page and nowhere else |
| PageTables.BelowChild | forks/amd64/kernel/vm.c:324-339 | the tables under a directory are divided among its slots |
| PageTables.AncestorIn | forks/amd64/kernel/vm.c:66-88 | a table is reached only through tables |
| PageTables.SpaceFrame | forks/amd64/kernel/vm.c:365-399 | what happens to other pages leaves an address space as it was |
| AddressSpaces.Vm.constructor | forks/amd64/kernel/kalloc.c:31-53 | every page after the kernel is free, once |
| AddressSpaces.Vm.Kalloc | forks/amd64/kernel/kalloc.c:82-97 | the head of the free list, 0 exactly when it is empty |
| AddressSpaces.Vm.Kfree | forks/amd64/kernel/kalloc.c:59-77 | the page is the new head; only its own contents change |
| AddressSpaces.Vm.Walk | forks/amd64/kernel/vm.c:66-88 | the level-0 table for an address; with alloc it fails exactly when fewer pages are free than tables are missing on the way, and otherwise the tables are those from before and those on the way; the map is the same even when memory runs out half way, and every page taken is in the tree |
| AddressSpaces.Vm.NewTable | forks/amd64/kernel/vm.c:80-84 | one missing level: a zeroed page from the free list, or nothing |
| AddressSpaces.Vm.MapPages | forks/amd64/kernel/vm.c:90-113 | the first done pages of the range are mapped in order and the rest of the map is untouched; it fails exactly when fewer pages are free than tables are missing for the range |
| AddressSpaces.Vm.SetupKvm | forks/amd64/kernel/vm.c:150-170 | a new tree mapping exactly the rows of kmap[], whose tables are the ones they need; 0 exactly when fewer pages are free than those tables take, and then the free pages are those from before |
| AddressSpaces.Vm.DeallocUvm | forks/amd64/kernel/vm.c:294-322 | exactly the present user pages of the range become free, once each, and their entries empty |
| AddressSpaces.Vm.AllocUvm | forks/amd64/kernel/vm.c:264-292 | zeroed user pages appear in the range; 0 exactly when fewer pages are free than the new pages and the missing tables, and then the address space reads as before and each page taken is free or a table of the tree |
| AddressSpaces.Vm.AddPage | forks/amd64/kernel/vm.c:277-289 | kalloc and mappages for one page, as allocuvm and copyuvm call them: it fails exactly when fewer pages are free than the page and its missing tables |
| AddressSpaces.Vm.Rollback | forks/amd64/kernel/vm.c:280-289 | the two failure paths of allocuvm |
| AddressSpaces.Vm.FreeLevel | forks/amd64/kernel/vm.c:324-339 | every table at or below becomes free, each once |
| AddressSpaces.Vm.FreeVm | forks/amd64/kernel/vm.c:341-351 | every table and every user page below sz becomes free, each once, and no other |
| AddressSpaces.Vm.CopyUvm | forks/amd64/kernel/vm.c:366-399 | the child sees the same flags and page contents at the same addresses, on pages that were free; the parent is unchanged; 0 exactly when fewer pages are free than the child's tables and pages, and on each failure path the free pages are exactly those from before |
| AddressSpaces.Vm.Abandon | forks/amd64/kernel/vm.c:396-398 | the failure path returns all the child's pages |
| AddressSpaces.AllReturned | forks/amd64/kernel/vm.c:341-351 | of all the pages an address space has taken, what a call of freevm leaves behind is its user pages from the given size on; the allocator is as before it if and only if there are none |
| PageTables.TableCount | forks/amd64/kernel/vm.c:66-88 | a tree has as many pages as tables |
| PageTables.PathIn | forks/amd64/kernel/vm.c:66-88 | a tree that reaches a page has every table on the way |
| AddressSpaces.SpaceCount | forks/amd64/kernel/vm.c:264-292 | free pages, tables and user pages together are as many as before |
| AddressSpaces.NeedMore | forks/amd64/kernel/vm.c:264-292 | what a larger address space needs in all is what it has and what it wants besides |
| ExecMemory.Exec | forks/amd64/kernel/exec.c:36-77 | the address space of exec: built segment by segment and then the stack, with success, failure and loss told by the free pages, the segments and the kernel's mappings: it succeeds exactly when nothing else fails and the whole space fits; it loses pages exactly when memory runs out after a segment, and then all the pages of the size reached |
| ExecMemory.Segment | forks/amd64/kernel/exec.c:54-55 | one allocuvm: the space has exactly the pages of the new size, or of the old one; it fails exactly when the whole space of the larger size does not fit |
| ExecMemory.Bad | forks/amd64/kernel/exec.c:111-113 | freevm with the size in sz: nothing is lost, or, with the 0 of a failed allocuvm, as many pages as the space had, and so many fewer are free |
| ExecMemory.LosePage | forks/amd64/kernel/exec.c:36-113 | a run that loses a page: memory for a process of one page, and a program of two segments |
| ExecMemory.LosePageOfEight | forks/amd64/kernel/exec.c:36-113 | the same with the first row of kmap[], where eight pages are free before and seven after |
| AddressSpaces.AddTableOk | forks/amd64/kernel/vm.c:80-84 | a table made from a free page: tree, map, free list and page count all fit |
| AddressSpaces.UnmapOk | forks/amd64/kernel/vm.c:312-318 | freeing a page and clearing its entry keeps the address space in order |
| AddressSpaces.MapOk | forks/amd64/kernel/vm.c:388-393 | one page more: the address space has it, and nothing else changes |
| AddressSpaces.GiveBack | forks/amd64/kernel/vm.c:389-392 | no memory for a table: the page is still the caller's and the map is as it was |
| ShellRoundTrip.RoundTrip | shells/sh.c:271-452 | parsing the printed form of any command tree with valid words and at most nine arguments gives that tree |
| ShellRoundTrip.PrintInjective | shells/sh.c:271-452 | no two such trees print alike |
| ShellRoundTrip.ArgLimit | shells/sh.c:436-450 | any command tree of valid words comes back exactly when no simple command in it has more than nine; otherwise the parser panics with too many args |
| ShellRoundTrip.NextToken | shells/sh.c:271-314 | gettoken returns the next token of a printed text and leaves the rest |
| ShellRoundTrip.PeekAt | shells/sh.c:316-326 | peek is true exactly when the next token opens with one of the symbols |
| ShellRoundTrip.RedirsBack | shells/sh.c:380-403 | parseredirs reads all the redirections and no more |
| ShellRoundTrip.ArgsBack | shells/sh.c:436-449 | the argument loop reads the words and the redirections after them |
| ShellRoundTrip.ExecBack | shells/sh.c:405-452 | parseexec and parseblock give back simple commands and groups |
| ShellRoundTrip.PipeBack | shells/sh.c:367-378 | parsepipe gives back pipelines |
| ShellRoundTrip.AmpBack | shells/sh.c:356-359 | the loop over & gives back background commands |
| ShellRoundTrip.LineBack | shells/sh.c:350-365 | parseline gives back lists |
| ShellParser.Cursor.Skip | shells/sh.c:277-278 | the cursor is past the white space |
| ShellParser.Cursor.Scan | shells/sh.c:301-303 | the cursor is at the end of the word |
| ShellParser.Cursor.Next | shells/sh.c:271-314 | gettoken, with its cursor, refines the grammar's token |
| ShellParser.Cursor.Peeks | shells/sh.c:316-326 | peek, which moves the cursor over white space |
| ShellParser.Cursor.Redirections | shells/sh.c:380-403 | the loop refines the recursive reading of redirections |
| ShellParser.Cursor.Line | shells/sh.c:350-365 | the loop and the recursion refine the grammar of lines; it ends on every input |
| ShellParser.Cursor.PipeLine | shells/sh.c:367-378 | refines the grammar of pipelines |
| ShellParser.Cursor.Block | shells/sh.c:405-419 | refines the grammar of groups |
| ShellParser.Cursor.Arguments | shells/sh.c:436-449 | filling argv[] in a loop refines the grammar's argument list |
| ShellParser.Cursor.Command | shells/sh.c:421-452 | refines the grammar of simple commands |
| ShellParser.LineWords | shells/sh.c:350-365 | every word of a parsed command is a maximal run of word characters of the text |
| ShellParser.NulTerminate | shells/sh.c:454-499 | a NUL at the end of every word of the tree, and nothing else written |
| ShellParser.EndsOutside | shells/sh.c:454-499 | no word ends where another has a character |
| ShellParser.ReadsBack | shells/sh.c:454-499 | so each pointer reads as exactly its word |
| ShellParser.Parse | shells/sh.c:333-348 | parsecmd: the tree of the grammar, whose C strings are the words of the line |
| ShellParser.ParsePrinted | shells/sh.c:333-348 | parsing a printed tree in place and reading it through the pointers gives the tree, or the panic exactly when a simple command has more than nine words |
| Grep.Match | utilities/grep.c:72-82 | true exactly when the text, or with ^ its beginning, has a part in the language of the pattern |
| Grep.MatchHere | utilities/grep.c:84-97 | true exactly when the text begins with a word of the pattern's language |
| Grep.MatchStar | utilities/grep.c:99-108 | the same for a starred character and the rest |
| Grep.DoLines | utilities/grep.c:22-29 | writes the matching lines that are whole in the buffer |
| Grep.MoveDown | utilities/grep.c:30-33 | the unfinished line moves to the front of the buffer |
| Grep.FindNewline | utilities/grep.c:23 | the first newline from p on |
| Grep.GrepFile | utilities/grep.c:11-35 | what is written depends on the input alone, however read cuts it into pieces |
| Grep.OutputAndUnread | utilities/grep.c:11-35 | the lines that match are the output followed by those of the input that grep never gets to: from the first line of 1023 characters on, or else the last line when it has no newline |
| Grep.OutputIsMatching | utilities/grep.c:11-35 | so the output is exactly the matching lines if and only if none of those unread matches |
| Grep.LongLineLost | utilities/grep.c:18-34 | an input that it fails on: a line of 1023 characters, and the line after it |
| Grep.LastLineLost | utilities/grep.c:22-34 | another: a line without its newline |

## Left out

- DiskInodes.PutInodeAt: major, minor, ownerid, groupid and mode are not modelled; iupdate as
  modelled leaves their bytes alone.
- Joining the layers: the file system's classes record which blocks they log, and do not call
  the log's class; `CrashFiles` joins the two by what is logged. That operations running at the
  same time do not disturb each other, which the locks of inodes and buffers see to, is an
  assumption there on what lies between two quiet points of the history
  (`CrashFiles.FilesSurvive`). Directories are lists of entries, not the bytes of their files.
- Failing copies to and from user memory in readi, writei, piperead and pipewrite.
- FileIO.FileWrite: n is not negative, and pipes and devices behind a file are left to their
  own models; filealloc, filedup and fileclose would add only counters.
- LogImpl.Log.Bread: the cache holds any number of blocks; bget's list, its panic when no
  buffer is free, and the disk driver are not part of this model.
- ncommit, pids and icache reference counts do not overflow.
- ProcTable.Table.SetState: a context switch is one step; swtch, sched's checks and the locks
  of each CPU are not modelled. The C of fork, exit and wait beyond the table (files, pages,
  trap frame) is not either.
- PipeProtocol.NoLostWakeup: a process inside a call keeps its end of the pipe open, as its
  file reference does.
- SleepLocks.MutualExclusion: releasesleep is called by the process that has the lock.
- Directories.Dirs.Create: some inode is free, and writes to a directory do not run out of
  blocks; the C panics otherwise. Paths are resolved: namex is not modelled, and of skipelem
  only that a name has at most DIRSIZ characters. ref counts what is held outside the call, so
  a parent that is removed while a call has it locked is not freed by that call's iput.
- Directories.Dirs.LinkEnd: one device, so the test of dev is left out.
- Resize.ITruncate: the block layout of libfs differs, its valid data blocks are those from
  nmeta to size.
- PipeImpl.Pipe.WriteSome: killed does not change in the stretch; `PipeImpl.Pipe.WriteOne` has
  the test for any value of it. The wakeups are steps of `PipeProtocol` alone.
- ExecMemory.Exec: reading the file, loaduvm, copying the arguments and clearpteu, which change
  no page's owner, are a number that says when they fail; segment ends leave room for the stack
  below 2^32.
- AddressSpaces.Vm.AllocUvm: sizes are 32-bit, so the test against KERNBASE is never true and
  is left out. mappages' "remap" and copyuvm's panics on missing pages are preconditions.
- AddressSpaces.Vm.SetupKvm: kmap[] is a parameter, whose rows lie above user memory and do not
  overlap. Addresses are page numbers; TLB and cache flushes, inituvm, loaduvm and the copy
  routines are left out.
- ShellParser.Parse: the line has no NUL before its end; malloc does not fail. Running the
  parsed command is left out.
- Grep.GrepFile: no NUL in the input, and write does not fail.
- exec beyond its memory, paths, traps, boot, devices, console, the USB stacks, sysfile-legacy.c, the other
  forks' copies of the same files, and daddent of libfs.
