# Verified models of an xv6 kernel

Dafny models of the parts of this xv6 (x86) fork where correctness is hardest to see from the code, with proofs
of what those parts promise. `dafny verify dfyconfig.toml` checks everything.

The modules follow the source:

- **Crash-safe files.** `LogDisk` and `Log` are the redo log as a class, from begin_op to the end of a commit or
  recovery, with the disk after each write recorded, so that a crash at any point can be spoken of. `LogProtocol` is the
  same log as an interleaved protocol of any number of system calls, commits, crashes and recoveries. `Bio` is the
  buffer cache with its linked list. `Volume` says what the disk structures mean (which slot owns a block, which bytes a
  file holds), `Fs` is the block and inode code over it, `FileWrite` the chunked write and its transaction bound,
  `Links` the link counts under link, unlink and create, and `Mkfs` the image everything starts from. `CrashSafety`
  joins the chunked write to the log protocol, and `TenBlocks` is a volume on which a transaction needs all ten blocks.
  `Params` holds the constants that several modules share.
- **Processes.** `Proc` is the process table, one method per locked section; `Sched` the hand-over of ptable.lock
  across context switches; `SleepLock` sleep-locks over sleep and wakeup; `Pipe` the ring buffer and `PipeProtocol`
  its sleepers.
- **Memory.** `Vm` is page tables and page ownership over the page allocator; `Umalloc` the user-level allocator.
- **User programs.** `Shell` and `ShellParser` are the shell's grammar and parser, `Grep` the pattern matcher.

How the models are built:

- Code that updates data in place is a class, or a method with loops. Code that holds a lock is one method call, or one
  step of a state machine, so a run is any sequence of calls or steps. Finer steps are used where the order of lock
  operations is the point (`LogProtocol`, `Sched`, `SleepLock`, `PipeProtocol`).
- Where the source panics or exits, the model returns a value that says so, or treats it as the end of the run; where
  the tests that panic are the subject (`Sched`, `LogProtocol`, `Bio`, `Links`) it is proved exactly when they fire.
- Integers are unbounded except where wrap-around matters: the pipe's counters, the sizes malloc and readi/writei
  compute, and the range kmap ends at zero are 32-bit.

Places where the code does not do what one would expect, kept as they are:

- log_write's size test is one block tighter than begin_op's reservation when the log has LOGSIZE blocks, so it can
  fail within budget; `LogProtocol.PanicExactly` says exactly when.
- The same test is made before log.lock is taken. Two calls can pass it together and list as many blocks as the whole
  log has, one more than its data blocks; write_log then overwrites the first block past the log. With mkfs's log this
  needs calls that use their whole budget of ten blocks (`LogProtocol.AtomicExactly`, `LogProtocol.TearDisk`).
- sys_link and create may store an entry in a directory unlinked since it was looked up; then, and only then, the
  invariant on links is lost (`Links.EntryExactly`, `Links.CreateExactly`, `Links.UnlinkedDirectoryMiscounts`). A file
  gets a wrong count; a directory gets a right one, and it is the tree that is wrong (`Links.OrphanCounts`,
  `Links.OrphanTree`).
- pipewrite returns without a wakeup when its process was killed; then, and only then, a reader can sleep beside bytes
  it could read (`PipeProtocol.SleepingReader`, `PipeProtocol.ReaderMissed`).
- mkfs rounds the root directory up by a whole block even when it ends on a block boundary; then the image has a hole
  (`Mkfs.RoundRootExactly`, `Mkfs.ImageWithHole`).
- malloc of one of the seven largest 32-bit sizes wraps to one unit, and morecore of 2^28 units or more asks sbrk for a
  non-positive amount (`Umalloc.UnitsHoldRequest`, `Umalloc.SbrkArgumentExact`; the outcome `Fault`).
- `>` and `>>` parse to the same command, and `a & b` does not parse.

## Model

| member | source | states |
|---|---|---|
| LogDisk.RecoveryIsDeterministic | log.c:115-122 | the home blocks recovery leaves are determined by the disk alone: two images recovered from one disk agree on every home block |
| LogDisk.InstallKeepsRedo | log.c:69-82 | installing a logged block, even twice, does not change what the header's blocks will make of the disk |
| LogDisk.AllInstalled | log.c:69-82 | with every listed block installed, the disk is what recovery was due to produce |
| LogDisk.EncodeHeader | log.c:101-113 | the header block read back gives the list that was written, and the rest of the block is untouched |
| LogDisk.Recorded | log.c:224-230 | exactly that block is added to the listed ones, and distinct blocks stay distinct |
| Log.Log.LogWrite | log.c:213-233 | false exactly where the source panics, at a full log or outside a call; else the block is listed once however often it is written, its contents pinned, and the listed blocks stay distinct home blocks |
| Log.Log.WriteLog | log.c:177-190 | the pinned blocks are in the log and every home block is untouched; each crash point on the way recovers to the old state |
| Log.Log.WriteHead | log.c:101-113 | the header on disk is the in-memory list after one disk write, and no other block has changed |
| Log.Log.InstallOne | log.c:74-81 | one install step leaves what the disk recovers to unchanged |
| Log.Log.InstallTrans | log.c:69-82 | every listed block is home; every crash point recovers to the same state |
| Log.Log.EraseHead | log.c:199-200 | with every block home, one write empties the log and the disk recovers to the blocks it holds |
| Log.Log.Commit | log.c:192-202 | the home blocks become the contents seen through the cache; every disk a crash can expose recovers to the whole old or the whole new state, old ones before new ones |
| Log.Log.EndOp | log.c:146-174 | the file system's view does not change; only the last call out commits, and then every disk a crash can expose recovers to the old home blocks up to the header write and to that view from there on; the panic exactly during a commit |
| Log.Log.CommitHead | log.c:197 | with the blocks in the log, the one write of the header makes the disk recover to the new state |
| Log.Log.ReadHead | log.c:85-96 | the in-memory list is the one on disk |
| Log.Log.RecoverFromLog | log.c:115-122 | recovery ends with an empty header and the home blocks it was due to produce, and every crash point inside it recovers to the same blocks, so it can be repeated |
| LogProtocol.InvStep | log.c:124-233 | every step of begin_op, log_write's unlocked test and its locked record, end_op, commit and recovery, and a crash at any point, keeps the invariant, unless it makes the list as long as the log |
| LogProtocol.InvRun | log.c:124-233 | so the invariant holds in every state of every interleaving that has kept the list shorter than the log |
| LogProtocol.SaneStep | log.c:124-233 | the part of the invariant that does not depend on the log's size, kept by every step |
| LogProtocol.SaneRun | log.c:124-233 | which therefore holds in every state of every run |
| LogProtocol.FitsWithin | log.c:126-141 | every run is such a run when MAXOPBLOCKS plus twice the blocks a call may log is below the log's size |
| LogProtocol.AloneWithin | log.c:126-174 | in a log with more blocks than a call may log, as mkfs's has, so is every run in which calls do not overlap |
| LogProtocol.CrashAtomicity | log.c:69-122 | at every point of every such run, through any number of crashes and interrupted recoveries, recovery rebuilds exactly the committed writes, and those are all the writes of some system calls and none of any other |
| LogProtocol.AtomicExactly | log.c:213-233 | every run leaves a disk that recovers to exactly the committed writes if and only if MAXOPBLOCKS plus twice the blocks a call may log is below the log's size, or the log has no data block; with mkfs's log, if and only if a call may log fewer than ten |
| LogProtocol.ListTooMany | log.c:218-230 | otherwise two calls can pass log_write's test before either takes the lock, and list one block more than the log has room for |
| LogProtocol.TearDisk | log.c:177-190 | and then write_log overwrites the first block past the log: from a crash there recovery rebuilds neither the old state nor any later one |
| LogProtocol.CommittedIsKept | log.c:98-113 | in a log of any size, the writes committed at one point of a run are a prefix of those committed at every later one |
| LogProtocol.ReservationHolds | log.c:125-174 | in a log of any size, listed blocks plus the unspent budgets of calls in progress stay within LOGSIZE, listed blocks are distinct, no call is in progress during a commit, with none in progress and no commit the list is empty and there is room for a call, and a sleeper in begin_op always has a call or a commit due to wake it |
| LogProtocol.CommitAdvances | log.c:115-202 | a commit or recovery under way can always take its next disk write, if the list has stayed shorter than the log or the disk does not end within LOGSIZE blocks of it |
| LogProtocol.PanicExactly | log.c:214-219 | log_write's size test can fail in some run if and only if MAXOPBLOCKS plus twice the blocks a call may log reaches min(LOGSIZE, nlog-1); with mkfs's log, exactly when a call may log all ten |
| LogProtocol.NoPanicBelowLimit | log.c:214-219 | below that limit no run reaches the panic, though the test is made before the lock is taken |
| LogProtocol.FillLog | log.c:125-233 | up to the limit, a run that lists any number of blocks and leaves two calls open with budget to spare |
| Volume.SetWord | fs.c:388-396 | an entry stored in an indirect block reads back, and the other 127 entries are unchanged |
| Volume.ClaimInode | fs.c:372-400 | a free block stored as a direct or indirect address fills that slot and no other |
| Volume.ClaimEntry | fs.c:372-400 | a free block stored in an indirect entry fills that slot and no other, of any inode |
| Volume.ClaimKeepsOwned | fs.c:56-78 | filling one empty slot with one free block keeps every set bit owned by exactly one slot |
| Volume.ReleaseKeepsOwned | fs.c:407-435 | clearing an inode's slots and exactly their bits keeps the bitmap and the slots in step |
| Volume.TruncateKeepsSound | fs.c:407-435 | emptying a file leaves the volume sound and every other file with its bytes |
| Volume.MapExtends | fs.c:372-400 | mapping the block just past the end, or one inside, leaves the file without holes and its bytes as they were |
| Volume.PatchBlock | fs.c:502-504 | changing one block of one file changes that file's bytes there and nothing else on the volume |
| Volume.WriteRound | fs.c:500-505 | one round of writei's loop extends the overwritten range by the bytes copied |
| Volume.WriteCompletes | fs.c:481-511 | after the loop and the size update the file is the old one spliced, the volume is sound, other files are untouched, and an unchanged size means an unchanged inode |
| Volume.WroteKeepsDisk | fs.c:481-511 | a write changes no block of inodes, bitmap or data but those it logs |
| Volume.ReadsBack | fs.c:481-511 | after a write the file holds the bytes written there, and on either side the old ones |
| Volume.ResizeKeepsSlots | fs.c:507-510 | a new size moves no block |
| Fs.FileSystem.Balloc | fs.c:56-78 | the lowest clear bit is set and the block zeroed; 0 exactly when no block is free |
| Fs.FileSystem.Bfree | fs.c:81-95 | clears the bit; false exactly when it was clear already, where the source panics |
| Fs.FileSystem.AddrOrBalloc | fs.c:378-388 | a slot of the inode itself is filled if it was empty and nothing else moves; 0 only when it was empty and no block is free |
| Fs.FileSystem.EntryOrBalloc | fs.c:389-396 | an entry of the indirect block is filled if it was empty and nothing else moves; failure only on a full disk |
| Fs.FileSystem.Bmap | fs.c:372-400 | the block's number, allocating only what is missing; no block of any file moves or changes, ownership is kept, and what is logged is stated; 0 only when fewer blocks are free than it needs |
| Fs.FileSystem.BmapIndirect | fs.c:384-397 | the same past the direct blocks, where it may need the indirect block as well |
| Fs.FileSystem.FreeSlot | fs.c:415-418 | a slot's block is still marked when its turn comes, and exactly its bit is cleared |
| Fs.FileSystem.FreeEntries | fs.c:422-428 | exactly the bits of the indirect block's entries are cleared |
| Fs.FileSystem.Itrunc | fs.c:407-435 | every block the inode owned is freed exactly once, never a free one, no other bit changes, the volume stays owned, and if it was sound it still is, with the file empty and every other file's bytes as they were |
| Fs.FileSystem.ReadPiece | fs.c:470-473 | bmap allocates nothing, and the piece is the file's bytes there |
| Fs.FileSystem.ReadBytes | fs.c:469-474 | the loop returns the file's bytes of the range and changes nothing |
| Fs.FileSystem.StorePiece | fs.c:500-503 | the bytes copied into the mapped block extend the written range, and the block joins the logged ones |
| Fs.FileSystem.Readi | fs.c:452-476 | the file's bytes from off, cut at its end; -1 exactly on a bad range; nothing is allocated or logged, because there are no holes |
| Fs.FileSystem.WritePiece | fs.c:499-503 | one round extends the written range, keeps the file without holes, and logs exactly the data, bitmap and indirect blocks it should |
| Fs.FileSystem.WriteBytes | fs.c:498-504 | the loop writes all the bytes, from a file without holes to one without holes; it fails only when fewer blocks are free than the write needs |
| Fs.FileSystem.SyncSize | fs.c:506-509 | a larger size goes to memory and disk, a smaller one to neither |
| Fs.FileSystem.WriteAndSync | fs.c:498-510 | writei past its checks: spliced, sound, disk inode in step, or fewer blocks free than the write needs |
| Fs.FileSystem.Writei | fs.c:481-511 | on success the file is spliced with exactly the bytes given, other files are as they were, the volume is sound and hole-free, only logged blocks change, and the disk inode equals the in-memory one; -1 exactly on a bad range and then nothing changed; past that, balloc's panic if and only if fewer blocks are free than the file must grow by |
| FileWrite.ChunkFitsTransaction | file.c:126-138 | one chunk, at any offset and alignment and with any number of bitmap blocks, logs at most MAXOPBLOCKS distinct blocks |
| FileWrite.TenIsReached | file.c:126-133 | the bound is tight: a chunk after the first byte of a tenth block logs ten when its four new blocks have bits in different bitmap blocks |
| TenBlocks.CrowdedSound | fs.c:56-78 | a sound volume of four bitmap blocks with one free block in the reach of each, and a file that ends after the first byte of its tenth block |
| TenBlocks.NewSlots | fs.c:56-78 | whatever blocks a write past that file's end takes, they are those four, so their bits are in different bitmap blocks |
| TenBlocks.TenAreLogged | file.c:126-138 | on that volume writei of a full chunk succeeds and logs exactly ten blocks |
| FileWrite.HoleWouldOverflow | file.c:126-133 | the bound rests on writei's check of the offset: the same chunk over a hole would log eleven |
| FileWrite.ChunkDone | file.c:135-151 | a chunk of writei after the bytes already written gives those bytes and its own, in a transaction of at most ten blocks |
| FileWrite.WriteChunk | file.c:135-151 | one transaction appends its bytes to what the loop has written, moves the offset, fits the log and changes no block it does not log |
| FileWrite.WriteLoop | file.c:134-152 | a failure leaves whole chunks written and says why writei failed; each transaction takes one sound volume of the history to the next |
| FileWrite.HistoryNext | file.c:135-151 | one transaction more leaves a history of sound volumes, each with a whole number of chunks written |
| FileWrite.FileWrite | file.c:117-156 | n means that all of it is in the file; -1 that a number of whole chunks is, and why; one transaction a chunk, each of at most ten blocks and changing no other; after each the volume is sound, holds whole chunks, and other files are untouched |
| CrashSafety.ReplayTransaction | log.c:69-82 | replaying a transaction's log_writes on the disk of the volume before it gives the disk of the volume after it |
| CrashSafety.ReplayChunks | log.c:69-82 | so replaying the first q transactions of a filewrite gives the disk of its q-th volume |
| CrashSafety.CommittedWhole | log.c:192-202 | what the log has committed at any point is a whole number of filewrite's transactions |
| CrashSafety.CrashLeavesWholeChunks | file.c:126-151 | wherever the machine stops during a filewrite, recovery rebuilds the disk of a sound volume in which the file has a whole number of the write's chunks and every other file is as it was |
| Mkfs.Builder.constructor | mkfs.c:94-115 | the zeroed image is sound |
| Mkfs.ZeroesSound | mkfs.c:108-111 | a volume of zeroes with its metadata marked is sound |
| Mkfs.Builder.Ialloc | mkfs.c:223-235 | the next inode, with one link and no bytes; no file's contents change |
| Mkfs.Builder.Addr | mkfs.c:272-279 | an address of the inode, from the next free block where missing; nothing else moves |
| Mkfs.Builder.IndirectEntry | mkfs.c:280-285 | an entry of the indirect block, from the next free block where missing; nothing else moves |
| Mkfs.Builder.MapBlock | mkfs.c:269-286 | the block for the file's next bytes, from the next free block where missing; nothing moves; failure only when the image is full |
| Mkfs.Builder.MapIndirect | mkfs.c:277-285 | as MapBlock, for a block past the direct ones |
| Mkfs.Builder.AppendPiece | mkfs.c:269-293 | a round of the loop extends the bytes appended |
| Mkfs.Builder.AppendBytes | mkfs.c:265-293 | the loop appends all the bytes, taking at most two blocks a round; failure only when the image is full |
| Mkfs.Builder.CloseInode | mkfs.c:295-296 | with the size stored, the bytes are at the file's end |
| Mkfs.Builder.Iappend | mkfs.c:255-297 | the bytes go at the file's end, its type and links and every other file are as they were and the image stays sound; failure only for a file too large or a full image |
| Mkfs.Builder.CopyFile | mkfs.c:152-153 | a file copied block by block holds exactly its bytes; failure only for a file too large or a full image |
| Mkfs.Builder.AddDots | mkfs.c:120-128 | the root holds the entries for . and .. |
| Mkfs.Builder.Balloc | mkfs.c:237-251 | the bitmap written is that of the blocks handed out; false when one bitmap block is not enough |
| Mkfs.RoundRootExactly | mkfs.c:158-163 | rounding the root's size up keeps the volume sound if and only if it was not a multiple of BSIZE |
| Mkfs.RootBytes | mkfs.c:117-156 | which is so exactly when the number of files plus two is not a multiple of 32 |
| Mkfs.AddFile | mkfs.c:145-155 | the root lists one file more, and its inode, a file with one link, holds its bytes; the files before it are as they were |
| Mkfs.AddFiles | mkfs.c:130-156 | the root lists every file, and each holds its bytes |
| Mkfs.Close | mkfs.c:158-165 | the image written is the one built with the root's size rounded up, sound exactly when the number of files plus two is not a multiple of 32; false exactly when one bitmap block is not enough |
| Mkfs.Make | mkfs.c:67-168 | each file's inode holds its bytes and the root the entries for all of them; the finished image satisfies the file system's invariant if and only if the number of files plus two is not a multiple of 32; it is not finished only when the image or the bitmap block is full or a file too large |
| Mkfs.ImageWithHole | mkfs.c:158-163 | on a disk of mkfs's size, thirty empty files give an image that is not sound |
| Links.NamesUpdate | fs.c:550-578 | replacing an entry changes each inode's count of names by what the two entries name |
| Links.CountUpdate | sysfile.c:118-283 | changing one inode changes each count by that inode's share |
| Links.FileKeeps | sysfile.c:133-142 | raising nlink together with the promise of an entry, or lowering both, keeps every count right |
| Links.EntryKeeps | sysfile.c:146-152 | a promised entry stored in a linked directory keeps every count and the tree right |
| Links.RemoveKeeps | sysfile.c:207-225 | removing a file's or an empty directory's entry keeps them right, the parent losing the link of the child's .. |
| Links.EmptyHasOneLink | sysfile.c:211-216 | an empty directory has exactly one link: no directory's .. names it |
| Links.Named | sysfile.c:211-212 | an inode with a name in a linked directory has a link, so sys_unlink's panic cannot happen |
| Links.LookupFinds | fs.c:524-548 | dirlookup finds a name exactly when some used slot has it |
| Links.ParentHasTwo | sysfile.c:221-224 | a directory that loses a subdirectory keeps a link of its own, the root through its .. |
| Links.LeftKeeps | sysfile.c:227-229 | lowering nlink after the entry is gone keeps the counts right, and a directory is then unlinked |
| Links.FreeKeeps | fs.c:331-352 | an inode freed for want of links is named nowhere in a linked directory |
| Links.CreateKeeps | sysfile.c:260-282 | a new file or directory, with its dots and its parent's new link, keeps every count and the tree right |
| Links.EntryExactly | sysfile.c:144-151 | a stored entry leaves the file's count right, and the invariant true, if and only if the directory is still linked |
| Links.CreateExactly | sysfile.c:241-283 | creating anything, file, directory or device, keeps the invariant if and only if the directory is still linked |
| Links.OrphanTree | sysfile.c:260-282 | an unlinked directory with a new entry is wrong in the tree: if a subdirectory gave it a link again, no directory names it |
| Links.OrphanCounts | sysfile.c:260-282 | in an unlinked directory a new file's count is wrong, while a new directory's is right and gives its parent a link again |
| Links.UnlinkedDirectoryMiscounts | sysfile.c:118-229 | a run from mkfs's tree through create, the first half of sys_link, sys_unlink of the directory, and sys_link's second half, after which the file's count is wrong |
| Links.TreeWithFile | sysfile.c:241-283 | mkfs's root with a directory and a file in it, reached by calls of create |
| Links.Tree.constructor | mkfs.c:117-128 | a root whose dots name it has the one link its .. accounts for |
| Links.Tree.DirLookup | fs.c:524-548 | the first used slot with the name, or none |
| Links.Tree.DirLink | fs.c:551-578 | -1 exactly when the name is there; else the entry is in the first free slot or a new one |
| Links.Tree.IsDirEmpty | sysfile.c:168-181 | true exactly when no slot past the dots is used |
| Links.Tree.LinkBegin | sysfile.c:133-142 | a link is promised, to anything but a directory; the invariant holds between the halves |
| Links.Tree.LinkEntry | sysfile.c:144-151 | refused exactly when the name exists; else the promise is kept, and the invariant and the file's count are right if and only if the directory is still linked |
| Links.Tree.LinkUndo | sysfile.c:158-164 | the failure path takes the promise back and keeps every count right |
| Links.Tree.UnlinkEntry | sysfile.c:195-225 | removes exactly a found name other than a dot whose inode is a file or an empty directory; nlink is never below one there |
| Links.Tree.UnlinkDone | sysfile.c:227-229 | the invariant holds again without exception for that inode |
| Links.Tree.Create | sysfile.c:241-283 | an existing file is returned when a file is wanted, any other existing name refused, else the new inode is in place, and the invariant holds if and only if the directory is still linked; the panic only without free inodes |
| Links.Tree.Fill | sysfile.c:263-278 | the inode with one link, its dots and the parent's new link if it is a directory, and its entry in a free slot; no other inode changes |
| Links.Tree.Ialloc | fs.c:194-214 | the first free inode, or none exactly when there is none |
| Links.Tree.Free | fs.c:331-352 | freeing an inode without links keeps the invariant |
| Bio.PushFront | bio.c:49-55 | the assignments that link a buffer in after the head give the circle with it first |
| Bio.TakeOut | bio.c:132-133 | the two assignments that unlink a buffer give the circle without it |
| Bio.Freshened | bio.c:130-138 | moving a released buffer to the front keeps the list in order of last release |
| Bio.Recycled | bio.c:81-91 | giving a clean, unreferenced buffer a block nobody caches keeps the cache and disk equal to the block array |
| Bio.SameBlock | bio.c:70-75 | reference counts, locks and reads leave the cache equal to the block array |
| Bio.NoOtherDirty | bio.c:102-104 | what is not in a filled buffer is on disk, so a read from disk gets the last contents |
| Bio.Written | log.c:213-233 | new contents, pinned or written through, are the array's contents and only a dirty buffer is newer than the disk |
| Bio.SeenThroughPinned | log.c:213-233 | the array of blocks is the disk with the dirty buffers' contents over it: what module Log reads through its cache |
| Bio.Cache.constructor | bio.c:38-56 | an empty cache over the disk is the disk's array of blocks, with every buffer on the list |
| Bio.Cache.LinkAll | bio.c:46-55 | all buffers on one circle |
| Bio.Cache.InsertHead | bio.c:134-137 | a buffer not on the circle is linked in as its first, and the others stay in order |
| Bio.Cache.Unlink | bio.c:132-133 | a buffer is taken out of the circle, and the others stay in order |
| Bio.Cache.FindCached | bio.c:69-76 | a buffer with the block, or none exactly when none has it |
| Bio.Cache.FindVictim | bio.c:81-91 | of the clean, unreferenced buffers the one whose last release is oldest, or none exactly when there is none |
| Bio.Cache.Bget | bio.c:61-93 | at most one buffer per block; a dirty or referenced buffer is never recycled; the panic exactly when all are in use |
| Bio.Cache.Lock | bio.c:73-74 | only the lock changes; the invariant holds |
| Bio.Cache.Bread | bio.c:96-106 | the block's contents as last logged or written, whatever was recycled in between |
| Bio.Cache.LogWrite | log.c:213-233 | the array changes at that block only, and the disk not at all |
| Bio.Cache.Bwrite | bio.c:109-116 | array and disk change at that block only |
| Bio.Cache.Unlock | bio.c:126 | only the lock changes; the invariant holds |
| Bio.Cache.Brelse | bio.c:120-141 | at its last release a buffer becomes the most recent; the list stays a permutation of all buffers |
| Bio.Cache.MoveToFront | bio.c:130-138 | the released buffer is first on the circle, the others in the order they had |
| Umalloc.UnitsHoldRequest | umalloc.c:69 | the block holds the request exactly when rounding up does not pass 2^32; past it, it has one unit |
| Umalloc.SbrkArgumentExact | umalloc.c:51-54 | morecore gets what it records exactly when the size fits a positive int |
| Umalloc.Release | umalloc.c:24-44 | after free's assignments the list is one address-ordered circle of disjoint, never adjacent blocks, live and free units are the arena, and a block at least as large as the freed one is in it |
| Umalloc.StopsAt | umalloc.c:30-32 | free's two stopping tests hold at the element the block belongs after and at no other |
| Umalloc.FullLap | umalloc.c:74-87 | back at freep with every block too small, the list has none large enough |
| Umalloc.NextInLap | umalloc.c:74 | the loop's step keeps that everything passed since freep is too small |
| Umalloc.TakeWhole | umalloc.c:76-77 | handing out a whole block keeps the list, the partition and coalescing |
| Umalloc.TakeTail | umalloc.c:78-82 | handing out a block's tail does too, and the tail was in no other block |
| Umalloc.Supply | umalloc.c:54-58 | memory above the break is apart from every block, so it can be freed into the list |
| Umalloc.Heap.constructor | umalloc.c:21-22 | no list yet; the invariant holds |
| Umalloc.Heap.FindPlace | umalloc.c:30-32 | the circular search ends, from wherever freep points, at the element the block belongs after |
| Umalloc.Heap.Free | umalloc.c:24-44 | exactly that block leaves the live ones, from wherever freep points; the invariant holds; the arena is unchanged; a block at least as large is free |
| Umalloc.Heap.MoreCore | umalloc.c:47-61 | on success the arena grows by what sbrk gave and a large enough block is free; on failure nothing changes |
| Umalloc.Heap.Start | umalloc.c:70-73 | after the first call's set-up the list has a block of n units exactly when it had before, and it is base alone if it was empty |
| Umalloc.Heap.Search | umalloc.c:74-87 | malloc's loop ends, growing the heap at most once, at a block that is large enough |
| Umalloc.Heap.Carve | umalloc.c:75-84 | the block returned is new among the live ones and has the units asked for |
| Umalloc.Heap.Malloc | umalloc.c:63-90 | a block of the request's units, apart from every live one, if and only if the list has room or sbrk gives it; the arena grows by what sbrk gave, and only when the list had none; the other live blocks are as they were |
| Umalloc.Heap.MallocUnits | umalloc.c:70-89 | malloc once the size is rounded: the same, for any number of units up to 2^29 |
| Vm.AddTable | vm.c:41-53 | a new empty table maps and unmaps nothing, and every frame keeps one owner |
| Vm.WriteEntry | vm.c:54 | writing the entry for a page changes that page of that directory and no other page of any directory |
| Vm.MapUser | vm.c:69-73 | a frame mapped for a user has that mapping as its one owner |
| Vm.MapKernel | vm.c:69-73 | a mapping above KERNBASE owns no frame |
| Vm.Unmap | vm.c:266-276 | unmapping a page and freeing its frame keeps one owner per frame |
| Vm.Memory.constructor | kalloc.c:46-53 | every frame of the range is free, once |
| Vm.Memory.Kalloc | kalloc.c:82-95 | the head of the free list, 0 exactly when it is empty |
| Vm.Memory.GiveBack | kalloc.c:59-77 | a frame the kernel held is free again, with no mapping changed and every other frame's owner as it was |
| Vm.Memory.Walk | vm.c:35-55 | the page's table, a new one taking one free frame; 0 exactly when there is none and none can be had; no mapping changes |
| Vm.Memory.MapOne | vm.c:69-73 | one page mapped, or refused as mapped already or for want of a table |
| Vm.Memory.MapNext | vm.c:68-78 | a round of the loop extends the prefix mapped, or stops at a page mapped already or for want of a table |
| Vm.Memory.MapRange | vm.c:68-78 | the loop maps a prefix of the range, the whole of it unless stopped |
| Vm.Memory.MapPages | vm.c:60-80 | the two-level tables map a prefix of the range as a flat map would, and nothing else changes; it is the whole range unless memory ran out or a page was mapped, which stop it there; tables used are bounded |
| Vm.Memory.DropPage | vm.c:266-276 | a round unmaps its page, or passes over pages that were not mapped |
| Vm.Memory.DeallocUvm | vm.c:255-279 | exactly the pages of the range are unmapped and exactly their frames freed, though missing tables are skipped whole |
| Vm.Memory.PlacePage | vm.c:234-246 | a free frame mapped with the contents; or no frame was free and nothing changed; or a table was wanting and the frame is the caller's; or the page was mapped already, where mappages panics |
| Vm.Memory.RollBack | vm.c:235-246 | where no page of the range was mapped, every mapping and page is as before allocuvm and every data frame is back; in any case the frames needed exceeded the free ones |
| Vm.Memory.AllocUvm | vm.c:221-249 | the range gets zeroed frames that were free; if memory runs out the frames needed exceeded the free ones and, where no page of the range was mapped, every mapping and page is as before and every data frame is back; mappages' panic only where a page of the range was mapped |
| Vm.Memory.FreeTables | vm.c:291-296 | every table of the directory is freed, once |
| Vm.Memory.FreeVm | vm.c:283-298 | every frame of the address space is freed, once, and no other; other address spaces are as they were |
| Vm.Memory.MapRow | vm.c:129-134 | a row of kmap adds its region of the flat map, or fewer than 65 frames were free |
| Vm.Memory.SetupKvm | vm.c:118-136 | a directory that maps exactly the kernel's flat map, or 0 with every frame back and fewer than 65 free |
| Vm.Memory.GiveUp | vm.c:342-344 | freeing a half-built address space gives back exactly what it took |
| Vm.Memory.CopyPage | vm.c:325-339 | a round copies one page into a frame of the child's own, the source still unchanged; the panic exactly when the page is not mapped |
| Vm.Memory.CopyInto | vm.c:330-338 | the child's page holds the parent's bytes in a frame that was free, or the frames needed exceeded the free ones |
| Vm.Memory.CopyUvm | vm.c:315-345 | a new address space with the same contents and permissions in frames of its own; on failure every frame is back and the frames needed exceeded the free ones; the panic only where a page of the range is not mapped |
| Vm.KernelNext | vm.c:110-134 | the rows of kmap never overlap, so mappages never panics, and the first k rows map k regions of the flat map |
| Vm.RowMapped | vm.c:110-134 | row i's pages join those of the rows before it in the flat map |
| Vm.RowTables | vm.c:110-134 | each row's new tables stay within the running count, which ends at 64 whatever the kernel's size |
| Vm.BackAgain | vm.c:342-344 | freeing an address space just built gives back exactly what building it took |
| Proc.ExitKeeps | proc.c:250-266 | exit keeps the family invariant |
| Proc.ExitWaits | proc.c:252-262 | no process is left asleep in wait with a zombie child: p's parent is woken, and init if it inherits one |
| Proc.ReapKeeps | proc.c:287-299 | collecting a child keeps the invariant, and its pid was never returned before |
| Proc.AllocKeeps | proc.c:88-90 | taking an entry and a fresh pid keeps the invariant |
| Proc.ForkKeeps | proc.c:188-217 | each unlocked or locked write of fork keeps the invariant |
| Proc.SleepKeeps | proc.c:304-310 | sleeping with a child and no zombie keeps it |
| Proc.RunKeeps | proc.c:457-497 | waking, killing, running and yielding keep it |
| Proc.PTable.constructor | proc.c:120-154 | init alone satisfies it |
| Proc.PTable.Wakeup1 | proc.c:457-465 | exactly the sleepers on the channel become RUNNABLE |
| Proc.PTable.Wakeup | proc.c:467-474 | wakeup of any channel keeps the invariant |
| Proc.PTable.AllocProc | proc.c:74-92 | the first unused entry with a fresh pid, none exactly when all are in use; invariant kept |
| Proc.PTable.AbandonFork | proc.c:193-198 | a fork given up for want of memory leaves the entry unused and the invariant true |
| Proc.PTable.SetParent | proc.c:200 | the write of the parent without the lock keeps the invariant |
| Proc.PTable.StartChild | proc.c:213-221 | the child runs, under a live parent |
| Proc.PTable.Exit | proc.c:250-266 | the loop that hands children to init and wakes it midway amounts to one simultaneous change; invariant kept |
| Proc.PTable.WaitScan | proc.c:272-312 | the first zombie child is collected if there is one; -1 exactly with no child, or killed and none to collect; else it sleeps; each pid is returned at most once |
| Proc.PTable.SleepOn | proc.c:417-452 | sleeping on another channel keeps the invariant |
| Proc.PTable.Kill | proc.c:479-497 | the first entry with the pid is killed and woken, -1 exactly when there is none |
| Proc.PTable.Run | proc.c:336-344 | letting a process run keeps the invariant |
| Proc.PTable.Yield | proc.c:386-392 | giving up the CPU keeps the invariant |
| Sched.InvStep | proc.c:322-413 | every step of every scheduler, process and interrupt handler keeps the invariant |
| Sched.InvRun | proc.c:322-413 | the invariant in every state of every interleaving |
| Sched.RunningMatchesCpus | proc.c:335-352 | whenever ptable.lock is free, RUNNING processes and CPUs with a process are in bijection |
| Sched.NeverOnTwoCpus | proc.c:335-352 | at no time does a process's thread run on two CPUs |
| Sched.PanicsExactly | spinlock.c:24-68 | the lock is always released, and sched entered, on the CPU that acquired it; of all the panic tests only sched's lock count can fail, exactly when the process holds another spinlock |
| Sched.ReapedAreOff | proc.c:287-299 | a zombie that wait may free is on no CPU |
| Sched.InterruptsComeBack | proc.c:358-382 | from its outermost pushcli to the matching popcli, through any trips through sched and onto other CPUs, a process gets its own interrupt state back |
| SleepLock.InvStep | sleeplock.c:22-42 | every step keeps the invariant, sleep's exchange of locks and kill's wakeups among them |
| SleepLock.InvRun | sleeplock.c:22-42 | the invariant in every state of every interleaving |
| SleepLock.MutualExclusion | sleeplock.c:22-32 | at most one process is between acquiresleep and releasesleep, and the lock's fields name it |
| SleepLock.NoLostWakeup | sleeplock.c:34-42 | with the inner spinlock free, a process asleep on the lock means that another holds it |
| SleepLock.HoldingSleepExact | sleeplock.c:44-53 | holdingsleep is true of the holder and of no other process |
| SleepLock.LocksMove | proc.c:428-451 | the two spinlocks never deadlock: whoever holds them can take a step |
| Pipe.Counters | pipe.c:85-116 | the 32-bit counters, though they wrap, tell full and empty from everything else and pick the right slot |
| Pipe.Pipe.constructor | pipe.c:33-37 | an empty pipe |
| Pipe.Pipe.PutByte | pipe.c:93 | the byte is stored after all others, in a slot no unread byte has |
| Pipe.Pipe.WriteBurst | pipe.c:84-94 | bytes are stored in order until all are in or the pipe is full; what has been read is a prefix of what was stored, at most PIPESIZE behind |
| Pipe.Pipe.GetByte | pipe.c:116 | the oldest unread byte |
| Pipe.Pipe.ReadBurst | pipe.c:113-117 | the oldest bytes stored and not read, as many as asked for or there are |
| PipeProtocol.InvStep | pipe.c:59-121 | every step of readers, writers and closers, and a kill of any of them, keeps the invariant |
| PipeProtocol.LocksStep | pipe.c:59-121 | every step keeps the lock discipline and what each program counter says about the pipe |
| PipeProtocol.NotBothStep | pipe.c:84-92 | no step lets a reader and a writer be asleep together, because a writer wakes the readers before it sleeps |
| PipeProtocol.MissedStep | pipe.c:86-89 | bytes left for a sleeping reader without a wakeup mean that some process was killed |
| PipeProtocol.InvRun | pipe.c:59-121 | the invariant in every state of every interleaving |
| PipeProtocol.SleepingReader | pipe.c:101-112 | with p->lock free, a sleeping reader means that both ends are open and the pipe is empty, unless a writer that was killed filled it and left without a wakeup; it is then, and only then, not empty |
| PipeProtocol.SleepingReaderUnkilled | pipe.c:101-112 | while nobody is killed, a sleeping reader means an empty pipe with its write end open |
| PipeProtocol.ReaderMissed | pipe.c:86-89 | a run in which a writer is killed while it fills the pipe and returns, and the reader sleeps on beside a full pipe |
| PipeProtocol.SleepingWriter | pipe.c:79-92 | with p->lock free, a sleeping writer means a full pipe with both ends open, whoever is killed |
| PipeProtocol.NotBothAsleep | pipe.c:79-121 | readers and writers are never asleep together, whoever holds p->lock and whoever is killed |
| Shell.RoundTrip | sh.c:385-566 | printing any command with well-formed words, at most MAXARGS-1 per exec, and parsing the text gives the same command |
| Shell.PrintIsNormalForm | sh.c:447-566 | whatever parses is such a command, and its printed form parses to it again |
| Shell.LineRoundTrip | sh.c:464-479 | a printed line parses to the command and leaves what follows |
| Shell.BackRoundTrip | sh.c:470-473 | a printed pipeline or background command, with any number of & after it, does |
| Shell.PipeRoundTrip | sh.c:481-492 | a printed pipeline does |
| Shell.ExecRoundTrip | sh.c:494-566 | a printed exec or block, with redirections after it, does |
| Shell.LexRender | sh.c:385-428 | gettoken reads back the tokens that were printed |
| ShellParser.Skip | sh.c:391-392 | the first place that is not white space |
| ShellParser.WordEnd | sh.c:417-419 | the end of the word |
| ShellParser.GetToken | sh.c:385-428 | the first token of the text, a word as its place, and the rest of the tokens after it |
| ShellParser.Peek | sh.c:430-440 | whether the next token is one of the symbols, consuming white space only |
| ShellParser.ParseRedirs | sh.c:494-517 | agrees with the grammar |
| ShellParser.ParseWord | sh.c:550-561 | a round of the loop takes the word and its redirections the grammar takes |
| ShellParser.ParseWords | sh.c:549-562 | agrees with the grammar, the limit on words included |
| ShellParser.ParseExec | sh.c:535-566 | agrees with the grammar |
| ShellParser.ParseAmps | sh.c:470-473 | agrees with the grammar |
| ShellParser.ParseBlock | sh.c:519-533 | agrees with the grammar |
| ShellParser.ParsePipe | sh.c:481-492 | agrees with the grammar |
| ShellParser.ParseLine | sh.c:464-479 | agrees with the grammar, on every text, and terminates |
| ShellParser.EndsOutside | sh.c:569-613 | no place nulterminate writes to lies inside a word |
| ShellParser.StaysWhole | sh.c:569-613 | after the NULs, each recorded word is still its token, and ends there |
| ShellParser.NulTerminate | sh.c:569-613 | NUL at the end of every recorded word, and nothing else changed |
| ShellParser.ParseCmd | sh.c:447-462 | the command, or the error, the grammar gives the text; afterwards every word and file name is, in the line, the C string of its token |
| Grep.MatchHere | grep.c:85-96 | true exactly when a prefix of the text is in the pattern's language, reaching the end under a final $ |
| Grep.MatchStar | grep.c:99-106 | true exactly when a prefix is in the language of c* followed by the rest |
| Grep.Match | grep.c:72-82 | true exactly when a substring of the text, a prefix under ^ and up to the end under a final $, is in the pattern's language |
| Grep.StarIff | grep.c:99-106 | a starred piece matches a run of its character, of any length, before a match of the rest |
| Grep.OneIff | grep.c:93-94 | a character matches itself, or anything if it is a dot, before a match of the rest |
| Grep.EndMatches | grep.c:91-92 | a final $ matches only at the end of the text |

## Left out

- Port I/O, interrupts and hardware set-up: iderw is an atomic read or write of one block.
- Device read and write handlers: readi and writei on a device return which handler is called, not what it does.
- The bits of the on-disk bitmap and the fields of disk inodes as bytes: the bitmap is a sequence of booleans and the
  inode area a sequence of records; indirect blocks, directories made by mkfs and file data are bytes.
- The inode cache (iget, iput's reference counts) and path lookup (namex): Fs takes a locked inode, Links the inodes that
  lookup found, and an inode is freed only when it has no links.
- Concurrency inside one file system operation: Fs, FileWrite and Mkfs run one operation at a time, which the inode locks
  ensure per inode; LogProtocol and Links interleave calls. FileWrite clears the set of logged blocks where filewrite
  calls begin_op; waiting in begin_op and committing in end_op are in Log and LogProtocol.
- Update in place for the code whose interleaving is the point: sleeping in begin_op, scheduler, sched, acquire, release,
  pushcli, popcli, sleep-locks and the pipe's sleeping are state machines on values (LogProtocol, Sched, SleepLock,
  PipeProtocol), not classes.
- Log.Log.LogWrite: requires a home block, one outside the log, as every caller in fs.c passes; log_write does not check,
  and LogProtocol makes the same assumption.
- Links.Tree.Create: is one step, since create holds the locks of both inodes from its first write to its last.
- FileWrite.FileWrite: is for FD_INODE files; pipes go to pipewrite, and any other type panics.
- FileWrite.HoleWouldOverflow: is about the set of blocks such a write would log; writei refuses the offset, so no run
  reaches it.
- CrashSafety.CrashLeavesWholeChunks: is about one process whose log_writes are the only ones in the run, and a run that
  keeps the list shorter than the log, as it does when calls do not overlap (LogProtocol.AloneWithin); how inodes and
  bitmaps are encoded in a block is arbitrary, and a log_write is tied to the volume by its block's contents after the
  call, not by the order in which writei makes them.
- Mkfs.Make: requires no more files than inodes, which mkfs does not check, and takes file names after the leading
  underscore has been dropped.
- The kernel's free list as links inside free pages: Vm keeps it as a sequence, head first.
- Vm.Memory.AllocUvm: says that a panic means a mapped page in the range, not that every mapped page is reached: memory
  may run out first. Where the range held mapped pages and memory ran out, it states the shortage only.
- Vm.Memory.CopyUvm: says that a panic means an unmapped page in the range; memory may run out first.
- TLB flushes, uva2ka, copyout, loaduvm, clearpteu, inituvm and growproc.
- sbrk: what it returns is a parameter, above all memory it gave before and aligned to a header; shrinking is not modelled.
- Pids beyond 2^31, and the files and directories that fork duplicates and exit closes.
- exec, system call dispatch and traps; swtch is a step that passes control.
- Weak memory ordering and fairness: steps are sequentially consistent, and nothing is said about when they happen.
- Round-robin order in the scheduler: Sched lets it choose any RUNNABLE process.
- The shell's execution of commands and its reading of lines; the parser keeps an exec's words and redirections as values,
  where the code fills in the exec through a pointer while redirections are wrapped around it.
- grep's line buffering, dcc, the console and every other user program.
