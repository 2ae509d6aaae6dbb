# Verified models of four components

These Dafny modules model four independent pieces of the repository and prove what they promise.

- **The S5 file system** (`S5Blocks`, `S5VolumeImpl`, `S5Pages`, `S5File`, `S5Dir`, `S5DirTable`, `S5Links`, `S5Effects`,
  `S5FsImpl`, `S5Audit`): block allocation through the chained free list, files with direct and indirect blocks,
  directories as arrays of records, link counts under every vnode operation, and the audit at unmount.
- **The user-level threads** (`UtQueue`, `UtLinks`, `Uthread`, `UthreadEffects`, `UthreadRuns`, `UthreadJoins`,
  `UthreadSystemImpl`): the intrusive list and all queues threaded through the one link of each thread, the priority scheduler, mutexes with
  hand-off, condition variables, join, exit and the reaper. A step of the machine is the code between two context
  switches; a suspended thread remembers where it is suspended.
- **The kd-tree builder** (`KdSplits`, `Kd`, `KdRule`, `KdBuild`): the split list and its node pool, the cost rule, the
  recursion, and that the tree agrees with a look at every object. Arithmetic is over the reals.
- **Path walk and descriptors** (`Namev`, `NamevWalk`, `FdTable`, `FdLaws`): `dir_namev`, `open_namev`, and the descriptor calls, with the
  references they hold.

Most components come as a function of the state, whose properties are lemmas, and a class whose methods follow the
C code and are proved equal to that function. What each operation does is also stated without that function, as
changes to entries, link counts, references, queues and owners, in `S5Effects`, `UthreadEffects`, `KdRule`, `NamevWalk`
and `FdLaws`. Block size, number of slots, direct and indirect counts and record
layout are parameters or named constants; `pframe_get` on the block device is total for block numbers of the device.

Where the code differs from what its comments promise, the code is followed and the difference is stated:

- `s5_seek_to_block` with `alloc == 0` still takes a block for a missing indirect block (`S5Blocks.LookupIsReadOnlyIff`).
- `s5_write_file` fetches the page of the end position even where the write ends just before it, so a write
  succeeds only if it ends strictly below the maximum file size.
- `s5_read_file` keeps its promise only for reads within one block, or into the next one and not past the end
  (`S5File.ReadFileCorrectIff`).
- `s5fs_rmdir` compares the size with two `dirent_t`, not two records; as records are smaller the test is still exact.
- `uthread_join` and `uthread_detach` look at the caller's waiter and not at the target's
  (`UthreadJoins.JoinKeepsIff`, `UthreadRuns.TwoJoinersBreakTheQueue`). Runs are therefore restricted to joins and
  detaches whose target nobody waits for, but not in `UthreadJoins.JoinsNeverRing`. Detaching a dead thread trips an
  assertion and is modelled as the end of the process.
- `open_namev` opens inode 0, the root as the file system is made, for every path without components: right for
  "/", but "" opened in another working directory gives the root too (`Namev.OpenIsResolveIff`, `Namev.OpenOfNothing`).
- `s5fs_check_refcounts` frees an inode that is named but has no link on disk while it walks, and then panics on it
  (`S5Audit.CheckRefcounts`, `S5Audit.AuditMayPanic`).
- `s5fs_cleanpage` writes to block 0, the superblock, if the page has no block. After `s5fs_dirtypage` has succeeded it
  has one (`S5Pages.CleanPage`, `S5Pages.WritePage`).
- `do_read` and `do_write` add errors to the position; if that takes it below -1, `fput` trips an assertion
  (`FdTable.Process.DoRead`, `FdTable.Process.DoWrite`).

Assumptions about callers: `uthread_wake` is not called on a thread in the queue of a mutex or condition variable;
a removed directory is not used as a parent, links are made to anything but directories, and unlink is not used on
directories; names given to create, mknod, mkdir and link are not empty and not taken, and the entry of a link fits, as
those operations assert.

## Model

| member | source | states |
|---|---|---|
| `S5Blocks.SeekConserves` | S5FS_wrapper/my_work/s5fs_subr.c:57-183 | whatever file block is asked for, with or without allocation, and however the search ends ("no space" halfway included), every data block stays either free or held by exactly one inode in exactly one role |
| `S5Blocks.AllocInodeConserves` | S5FS_wrapper/my_work/s5fs_subr.c:547-605 | taking an inode keeps that partition, and fails exactly where no inode is free; the inode taken was free, holds no block and maps none, no block changes hands and no other inode changes |
| `S5Blocks.FreeInodeConserves` | S5FS_wrapper/my_work/s5fs_subr.c:614-679 | giving an inode back keeps it: the free blocks grow by exactly the blocks the inode held, its indirect block included, it holds none any more, and no other inode changes |
| `S5Blocks.RunConserves` | S5FS_wrapper/my_work/s5fs_subr.c:57-679 | over every run of searches, inode allocations and inode frees the data blocks are the disjoint union of the free blocks, the direct slots, the indirect-table entries and the indirect blocks |
| `S5Blocks.FreeIsNotOwned` | S5FS_wrapper/my_work/s5fs_subr.c:433-534 | no free block is reachable from an inode |
| `S5Blocks.OwnedOnce` | S5FS_wrapper/my_work/s5fs_subr.c:57-183 | no block belongs to two inodes or to one inode in two roles |
| `S5Blocks.NoneLost` | S5FS_wrapper/my_work/s5fs_subr.c:497-534 | a data block that is not free is held by some inode, which the lemma names |
| `S5Blocks.NoSpaceMeansFull` | S5FS_wrapper/my_work/s5fs_subr.c:433-489 | after any run, "no space" is reported only where afterwards every data block is held by an inode |
| `S5Blocks.SeekKeepsOthers` | S5FS_wrapper/my_work/s5fs_subr.c:57-183 | a search changes the disk block of no other file block of any inode |
| `S5Blocks.SeekOutcome` | S5FS_wrapper/my_work/s5fs_subr.c:57-183 | the result of a search in terms of what was there before: -1 past the last file block, "no space" exactly where the free stack is shorter than what is needed, the old block, or a block that was free |
| `S5Blocks.SeekAgain` | S5FS_wrapper/my_work/s5fs_subr.c:57-183 | a block found or made is found again, and the second search changes nothing |
| `S5Blocks.FileBlocksDisjoint` | S5FS_wrapper/my_work/s5fs_subr.c:57-183 | two file blocks are never stored in one disk block |
| `S5Blocks.LookupIsReadOnlyIff` | S5FS_wrapper/my_work/s5fs_subr.c:107-183 | a search that is told not to allocate leaves the volume alone exactly unless it needs a missing indirect block and one is free |
| `S5Blocks.LookupMayTakeABlock` | S5FS_wrapper/my_work/s5fs_subr.c:107-183 | a concrete volume on which a search told not to allocate takes a block |
| `S5Blocks.NewInodeIs` | S5FS_wrapper/my_work/s5fs_subr.c:547-605 | the inode taken is the last one freed, it holds the device number exactly if it is a special file, and where none is free -ENOSPC comes back |
| `S5Blocks.OldInodeIs` | S5FS_wrapper/my_work/s5fs_subr.c:547-679 | an inode just freed is the next one taken |
| `S5VolumeImpl.BlockOnDisk` | S5FS_wrapper/my_work/s5fs_subr.c:57-183 | the block number of a file block is in the inode itself, or in the page of its indirect block at the place counted from there |
| `S5VolumeImpl.BlockStore.AllocBlock` | S5FS_wrapper/my_work/s5fs_subr.c:433-489 | on the superblock array and the chain through the disk, allocation pops the free stack, or reports "no space" exactly where it is empty; no other page changes |
| `S5VolumeImpl.BlockStore.FreeBlock` | S5FS_wrapper/my_work/s5fs_subr.c:497-534 | freeing pushes, spilling a full array into the freed block; no other page changes |
| `S5VolumeImpl.BlockStore.FreeThenAlloc` | S5FS_wrapper/my_work/s5fs_subr.c:433-534 | freeing a block and allocating gives that block back and restores the same free sequence, across the spill and refill boundary too |
| `S5VolumeImpl.Refilled` | S5FS_wrapper/my_work/s5fs_subr.c:443-470 | reading the next array out of the chain takes exactly one block off the stack |
| `S5VolumeImpl.Spilled` | S5FS_wrapper/my_work/s5fs_subr.c:511-523 | writing the full array into the freed block puts exactly that block on the stack |
| `S5VolumeImpl.BlockStore.FreeTable` | S5FS_wrapper/my_work/s5fs_subr.c:639-665 | the walk over an indirect table frees exactly its entries and then the table itself, and is not disturbed by the frees it performs |
| `S5VolumeImpl.S5Volume.SeekToBlock` | S5FS_wrapper/my_work/s5fs_subr.c:57-183 | the in-place search does what the search on the abstract volume does for the file block whose bytes the position is among, answers -1 exactly from byte (direct + words) * 4 * words on, and writes to no page but those of free blocks and of the inode's own indirect block |
| `S5VolumeImpl.S5Volume.AllocInode` | S5FS_wrapper/my_work/s5fs_subr.c:547-605 | the in-place inode allocation does what the abstract one does |
| `S5VolumeImpl.S5Volume.FreeInode` | S5FS_wrapper/my_work/s5fs_subr.c:614-679 | the in-place inode free, both loops included, does what the abstract one does, and writes to no page but those of the blocks it frees |
| `S5Pages.FillPage` | S5FS_wrapper/my_work/s5fs.c:928-955 | reading page fb of a file gives what its block holds, or zeros for a hole; it fails exactly where the offset is too large, or an indirect block is missing and no block is free; no page of any file changes, although a block may be taken |
| `S5Pages.DirtyPage` | S5FS_wrapper/my_work/s5fs.c:970-1003 | afterwards the page has a block, unless the offset is too large or there are too few free blocks; no other page of any file changes, and this one does not if it had a block |
| `S5Pages.CleanPage` | S5FS_wrapper/my_work/s5fs.c:1014-1037 | writing a page back stores it in its block and changes no other page of any file; for a hole no page changes, and the superblock is overwritten |
| `S5Pages.WritePage` | S5FS_wrapper/my_work/s5fs.c:970-1037 | a page made dirty and written back reads back, and every other page of every file and the superblock are as they were; without room all pages are |
| `S5Pages.WriteBetweenReads` | S5FS_wrapper/my_work/s5fs.c:928-1037 | reading at byte b, writing at byte a and reading at b again gives the new page if a and b lie in one block of 4 * words bytes, and what was read first if not; four free blocks are always enough |
| `S5Pages.FreeFile` | S5FS_wrapper/my_work/s5fs_subr.c:614-679 | freeing an inode, whose blocks may come to hold the free list, changes no page of any other inode |
| `S5Pages.NewFile` | S5FS_wrapper/my_work/s5fs_subr.c:547-605 | a new inode reads as zeros, and no page of any inode changes |
| `S5Pages.FileBlockIs` | S5FS_wrapper/my_work/s5fs_subr.c:57-183 | the block of a file page is neither free nor the indirect block of any inode |
| `S5File.VnodeFile.WriteFile` | S5FS_wrapper/my_work/s5fs_subr.c:219-325 | a write fails, changing nothing, exactly where its end is not below the maximum file size; otherwise the stored bytes are the old ones with the range replaced, the size is the larger of the old size and the end, and vnode and inode agree on it; the loop over the blocks ends at the end block |
| `S5File.VnodeFile.Write` | S5FS_wrapper/my_work/s5fs_subr.c:219-325 | seen as contents: the old contents, padded with zeros if the write starts behind them, with the range replaced |
| `S5File.ReadFileCorrectIff` | S5FS_wrapper/my_work/s5fs_subr.c:339-425 | a read returns the promised bytes exactly where it stays in one block, or ends in the next one and before the end of the file |
| `S5File.ReadMayNotReturn` | S5FS_wrapper/my_work/s5fs_subr.c:393-420 | a concrete read over three blocks that never returns |
| `S5File.SpliceIsWritten` | S5FS_wrapper/my_work/s5fs_subr.c:219-325 | replacing a range of the stored bytes and cutting at the new size is the padded write on contents |
| `S5File.FlatSplit` | S5FS_wrapper/my_work/s5fs_subr.c:270-320 | the bytes of a run of pages are the bytes of its parts, one after the other |
| `S5File.WrittenAt` | S5FS_wrapper/my_work/s5fs_subr.c:219-325 | byte by byte: what is written stands from the position on, what was there elsewhere stays, a gap reads as zeros |
| `S5File.PromisedIs` | S5FS_wrapper/my_work/s5fs_subr.c:339-425 | the promised bytes are those from the position on, as many as asked for or as the file has |
| `S5File.ReadAcross` | S5FS_wrapper/my_work/s5fs_subr.c:370-425 | what a read over block boundaries comes to: over two it does not return; over one it copies all bytes asked for, also where the file ends before, or runs past the second page |
| `S5Dir.RecordLayout` | S5FS_wrapper/my_work/s5fs_subr.c:872-881 | a record is the inode number in four bytes, the lowest first, and the 28 bytes of the name |
| `S5Dir.NameMatchIs` | S5FS_wrapper/my_work/s5fs_subr.c:692-745 | a field matches a name exactly if it begins with its bytes and has its first NUL after them |
| `S5Dir.RecordRoundTrip` | S5FS_wrapper/my_work/s5fs_subr.c:872-881 | a record read back from its 32 bytes is the record written |
| `S5Dir.PromisedRecord` | S5FS_wrapper/my_work/s5fs_subr.c:705-742 | reading record k of a directory that fills its file returns exactly that record, at block boundaries too |
| `S5Dir.RemovedMap` | S5FS_wrapper/my_work/s5fs_subr.c:786-816 | moving the last record into the hole deletes exactly one pair from the map of names |
| `S5Dir.AddedMap` | S5FS_wrapper/my_work/s5fs_subr.c:855-889 | a record added at the end adds exactly one pair |
| `S5Dir.RemovedUnique` | S5FS_wrapper/my_work/s5fs_subr.c:786-816 | names stay unique under removal |
| `S5Dir.DirMapKeys` | S5FS_wrapper/my_work/s5fs_subr.c:692-745 | the map has exactly the names that occur in records |
| `S5Dir.MovedBytes` | S5FS_wrapper/my_work/s5fs_subr.c:786-816 | copying the last record over the hole and cutting the file by one record gives the bytes of the compacted directory |
| `S5Dir.Directory.FindDirent` | S5FS_wrapper/my_work/s5fs_subr.c:692-745 | the search answers exactly what the map of names says, and 0 for an empty name |
| `S5Dir.Directory.RemoveDirent` | S5FS_wrapper/my_work/s5fs_subr.c:757-836 | removal deletes the pair and reports its inode, or reports that there is none and changes nothing |
| `S5Dir.Directory.Link` | S5FS_wrapper/my_work/s5fs_subr.c:849-895 | a link adds one pair, or fails without a change exactly where the name is empty or taken or the directory full; the child is counted except under the name "." |
| `S5DirTable.FindDirent` | S5FS_wrapper/my_work/s5fs_subr.c:692-745 | on the records of a directory of the file system, the search answers what the entries of the link-count model say |
| `S5DirTable.LinkEntry` | S5FS_wrapper/my_work/s5fs_subr.c:849-895 | a record written into one directory of many makes their records the entries `AddEntry` of the link-count model gives, and leaves all other directories as they were; it fails exactly where the name is found, as an empty one always is, or the directory is full |
| `S5DirTable.RemoveDirent` | S5FS_wrapper/my_work/s5fs_subr.c:757-836 | a record removed makes them the entries `DropEntry` of the link-count model gives, and names the inode whose link goes |
| `S5DirTable.MakeDirectory` | S5FS_wrapper/my_work/s5fs.c:710-745 | the entries of a new directory always fit, so mkdir does not fail after its first entry, and they are the ones the link-count model gives it; no other directory changes |
| `S5DirTable.DirectorySize` | S5FS_wrapper/my_work/s5fs.c:812-817 | the size that rmdir compares is one record for each entry |
| `S5Links.LinkCountsOverRuns` | S5FS_wrapper/my_work/s5fs.c:194-839 | over every run from a mounted volume: a link count is the number of entries other than "." that name the inode in live directories, plus one while its vnode is in memory; an inode is allocated exactly while that is not 0; and no live entry names a free inode |
| `S5Links.RunKeeps` | S5FS_wrapper/my_work/s5fs.c:443-839 | the invariant behind it holds over every run |
| `S5Links.StepKeeps` | S5FS_wrapper/my_work/s5fs.c:443-839 | each operation keeps it, successful or failed |
| `S5Links.AllocatedIff` | S5FS_wrapper/my_work/s5fs.c:268-306 | an inode is allocated exactly while an entry names it or its vnode is in memory |
| `S5Links.GetKeeps` | S5FS_wrapper/Weenix/kernel/fs/vnode.c:114-203 | reading a vnode in keeps the invariant |
| `S5Links.LookupKeeps` | S5FS_wrapper/my_work/s5fs.c:574-599 | so does a lookup, which takes the empty name to inode 0 |
| `S5Links.DeleteKeeps` | S5FS_wrapper/my_work/s5fs.c:268-306 | when a vnode leaves memory the inode is freed exactly where no entry names it |
| `S5Links.PutKeeps` | S5FS_wrapper/Weenix/kernel/fs/vnode.c:228-303 | giving up a reference frees the inode exactly where it was the last one and no entry names the inode |
| `S5Links.CreateKeeps` | S5FS_wrapper/my_work/s5fs.c:443-487 | creating a file keeps the invariant; a create that fails leaves the file system exactly as it was |
| `S5Links.MknodKeeps` | S5FS_wrapper/my_work/s5fs.c:500-563 | the same for special files |
| `S5Links.MkdirKeeps` | S5FS_wrapper/my_work/s5fs.c:690-768 | the same for directories, whose ".." counts for the parent; that "." and ".." can always be written is S5DirTable.MakeDirectory |
| `S5Links.LinkToKeeps` | S5FS_wrapper/my_work/s5fs.c:611-646 | a further name for anything but a directory keeps the invariant |
| `S5Links.UnlinkKeeps` | S5FS_wrapper/my_work/s5fs.c:656-679 | removing a name of anything but a directory keeps it |
| `S5Links.RmdirKeeps` | S5FS_wrapper/my_work/s5fs.c:779-839 | removing a directory keeps it, also where it is refused; the call succeeds, by its test of the size, exactly where the name is that of a directory with nothing but "." and ".." in it |
| `S5Links.MountedInv` | S5FS_wrapper/my_work/s5fs.c:194-260 | a volume just made and mounted satisfies it |
| `S5Links.RemovingUndoesMaking` | S5FS_wrapper/my_work/s5fs.c:500-839 | rmdir after mkdir, and unlink after mknod, restore the whole file system, whether or not pages of the new vnode stay cached in between: free inodes in their order, link counts, directories, vnodes |
| `S5FsImpl.S5Fs.Lookup` | S5FS_wrapper/my_work/s5fs.c:574-599 | the operation on the fields of the file system does what its function of the state says, and keeps the invariant; the inode returned is the one that gained the reference, the only one to do so |
| `S5FsImpl.S5Fs.Create` | S5FS_wrapper/my_work/s5fs.c:443-487 | likewise; the new inode ends with link count 2 and one reference |
| `S5FsImpl.S5Fs.Mknod` | S5FS_wrapper/my_work/s5fs.c:500-563 | likewise |
| `S5FsImpl.S5Fs.Mkdir` | S5FS_wrapper/my_work/s5fs.c:690-768 | likewise, through the three entries it writes |
| `S5FsImpl.S5Fs.LinkFile` | S5FS_wrapper/my_work/s5fs.c:611-646 | likewise; that the entry fits is asserted by the call |
| `S5FsImpl.S5Fs.Unlink` | S5FS_wrapper/my_work/s5fs.c:656-679 | likewise |
| `S5FsImpl.S5Fs.Rmdir` | S5FS_wrapper/my_work/s5fs.c:779-839 | likewise, though the entry goes before the parent loses the link of ".."; for the empty name inode 0 is looked at and nothing removed |
| `S5FsImpl.S5Fs.Evict` | S5FS_wrapper/my_work/s5fs.c:268-306 | a vnode whose last page goes frees its inode exactly where no entry names it |
| `S5FsImpl.S5Fs.RemoveDirent` | S5FS_wrapper/my_work/s5fs_subr.c:813-827 | dropping the entry first and reading the vnode in afterwards comes to the same as the other way round |
| `S5Effects.GetIs` | S5FS_wrapper/Weenix/kernel/fs/vnode.c:114-203 | vget adds one reference to the inode and one link if it was not in memory, and changes nothing else |
| `S5Effects.PutIs` | S5FS_wrapper/Weenix/kernel/fs/vnode.c:228-303 | vput takes one reference; with the last of a vnode without cached pages goes one link, and with the last link the inode |
| `S5Effects.EvictIs` | S5FS_wrapper/my_work/s5fs.c:268-306 | the same link goes when the last cached page does |
| `S5Effects.LookupIs` | S5FS_wrapper/my_work/s5fs.c:574-599 | a name that is there gives one reference to what it names, the empty name one to inode 0; a name that is not there gives -ENOENT, and nothing changes |
| `S5Effects.CreateIs` | S5FS_wrapper/my_work/s5fs.c:443-487 | create adds one entry for an inode that was free, with one link for it and one for being in memory, and one reference; where no inode is free it answers -ENOSPC, and otherwise the error of writing the entry; a failure changes nothing |
| `S5Effects.MknodIs` | S5FS_wrapper/my_work/s5fs.c:500-563 | mknod does the same without the reference, errors included |
| `S5Effects.MkdirIs` | S5FS_wrapper/my_work/s5fs.c:690-768 | mkdir makes a directory of exactly "." and "..", adds one entry for it and one link to the parent; -ENOSPC and -1 as for the others |
| `S5Effects.LinkIs` | S5FS_wrapper/my_work/s5fs.c:611-646 | link adds one entry, and one link to what it names |
| `S5Effects.UnlinkIs` | S5FS_wrapper/my_work/s5fs.c:656-679 | unlink removes exactly the entry named, and one link of what it named, with the inode if that was all |
| `S5Effects.RmdirIs` | S5FS_wrapper/my_work/s5fs.c:779-839 | rmdir removes exactly the entry, the directory and one link of the parent; -ENOENT, -ENOTDIR and -ENOTEMPTY come exactly for no entry, no directory and a directory with a further entry, and leave entries, links and references alone |
| `S5Effects.RmdirOfNothing` | S5FS_wrapper/my_work/s5fs.c:779-839 | for the empty name nothing is removed |
| `S5Audit.CalculateRefcounts` | S5FS_wrapper/my_work/s5fs.c:1066-1099 | the walk, which reads vnodes in and gives them up as it goes, ends on any directory graph, cycles through ".." included; if it does not panic, it adds 1 to the count of the starting point and the entries in directories first seen during the walk; every child of those is seen, and nothing outside any closed set around the start is; an inode it visits is freed exactly if it has no link on disk and nobody holds it, and nothing else about any inode changes; it panics only if there is such an inode |
| `S5Audit.VisitChild` | S5FS_wrapper/my_work/s5fs.c:1083-1089 | vget, the walk below and vput: the child is still there afterwards exactly if it has a link on disk or somebody else holds it |
| `S5Audit.WalkCounts` | S5FS_wrapper/my_work/s5fs.c:1066-1127 | from the root over zeroed counts, the result is the number of entries other than "." in directories reachable from the root, and one more for the root |
| `S5Audit.SeenIffReachable` | S5FS_wrapper/my_work/s5fs.c:1066-1099 | an inode is seen exactly if a path of entries leads to it from the root |
| `S5Audit.CheckRefcounts` | S5FS_wrapper/my_work/s5fs.c:1108-1154 | the audit comes to its end, without a panic, exactly where every inode that can be reached has a link on disk or is held; then success is reported exactly where every inode with a non-zero count has that link count on disk, and nothing stored changes |
| `S5Audit.AuditAgrees` | S5FS_wrapper/my_work/s5fs.c:1108-1154 | in every state that keeps the link-count invariant the audit expects what it finds, for every inode |
| `S5Audit.CheckValid` | S5FS_wrapper/my_work/s5fs.c:1108-1154 | the audit of a file system that keeps the link-count invariant succeeds and keeps the invariant |
| `S5Audit.AuditOverRuns` | S5FS_wrapper/my_work/s5fs.c:1108-1154 | over every run from a mounted volume the audit expects for every inode what is stored, and frees none |
| `S5Audit.AuditMayPanic` | S5FS_wrapper/my_work/s5fs.c:1066-1154 | a concrete volume, with an entry for an inode of link count 0, on which it does not |
| `S5Audit.ReachableIffLive` | S5FS_wrapper/my_work/s5fs.c:1066-1099 | in such a state the directories reachable from the root are exactly the live ones |
| `UtQueue.List.InsertBefore` | Uthread_wrapper/uthreads_final/list.h:75-83 | inserting before a link puts the new one into the cycle at that place |
| `UtQueue.List.Remove` | Uthread_wrapper/uthreads_final/list.h:91-99 | removing a link closes the cycle over it and clears both its pointers |
| `UtQueue.List.Empty` | Uthread_wrapper/uthreads_final/list.h:72-73 | the test answers whether nothing is in the cycle |
| `UtQueue.DrainAll` | Uthread_wrapper/uthreads_final/list.h:116-130 | a walk that removes what it visits takes every thread once, in list order, and leaves the list empty and all pointers cleared |
| `UtQueue.UtQueue.Empty` | Uthread_wrapper/uthreads_final/uthread_queue.c:36-43 | pointers and size counter agree on emptiness |
| `UtQueue.UtQueue.Enqueue` | Uthread_wrapper/uthreads_final/uthread_queue.c:51-58 | a thread goes behind all that wait |
| `UtQueue.UtQueue.Dequeue` | Uthread_wrapper/uthreads_final/uthread_queue.c:68-88 | the thread that came first leaves, or none |
| `UtQueue.UtQueue.Remove` | Uthread_wrapper/uthreads_final/uthread_queue.c:98-105 | a thread leaves from the middle and the others keep their order |
| `UtQueue.ReversedWithout` | Uthread_wrapper/uthreads_final/uthread_queue.c:68-105 | taking a link out of the list takes its mirror position out of the queue |
| `Uthread.LinkIsExclusive` | Uthread_wrapper/uthreads_final/uthread_sched.c:32-202 | over every run from the start each thread is on at most one queue and its status says which: runnable exactly on the run queue of its priority, running on none, waiting only on a mutex or condition variable, dead only on the reap queue and exactly if detached; each queue holds a thread once |
| `Uthread.StepKeeps` | Uthread_wrapper/uthreads_final/uthread_sched.c:32-202 | every step of the machine keeps the whole invariant |
| `Uthread.RunKeeps` | Uthread_wrapper/uthreads_final/uthread.c:109-192 | so does every run |
| `Uthread.InitialOk` | Uthread_wrapper/uthreads_final/uthread.c:361-389 | the state after initialisation satisfies it |
| `Uthread.MoveKeepsQueues` | Uthread_wrapper/uthreads_final/uthread_sched.c:130-166 | moving a thread from its queue to the one its new status asks for keeps every queue exact |
| `Uthread.DispatchKeeps` | Uthread_wrapper/uthreads_final/uthread_sched.c:176-202 | a switch keeps the invariant and ends with the new thread running |
| `Uthread.HandOffKeeps` | Uthread_wrapper/uthreads_final/uthread_mtx.c:93-118 | an unlock with threads waiting gives the mutex to the one that waited longest, which becomes runnable, and keeps the invariant |
| `Uthread.LockKeeps` | Uthread_wrapper/uthreads_final/uthread_mtx.c:42-61 | a lock, free or taken or already one's own, keeps it |
| `Uthread.CondWaitKeeps` | Uthread_wrapper/uthreads_final/uthread_cond.c:43-60 | a wait on a condition variable keeps it |
| `Uthread.ExitKeeps` | Uthread_wrapper/uthreads_final/uthread.c:109-132 | an exit keeps it: no thread is left waiting in a join for a dead one |
| `Uthread.DrainKeeps` | Uthread_wrapper/uthreads_final/uthread.c:311-352 | a round of the reaper clears exactly the slots of detached dead threads and leaves its queue empty |
| `Uthread.HighestIs` | Uthread_wrapper/uthreads_final/uthread_sched.c:176-202 | the scan from the top finds the highest priority with a runnable thread |
| `Uthread.FreeSlotIs` | Uthread_wrapper/uthreads_final/uthread.c:258-268 | the scan for a slot finds the first free one |
| `UthreadRuns.MutexIsFifo` | Uthread_wrapper/uthreads_final/uthread_mtx.c:42-118 | over every run, after j unlocks of a mutex its owner is the thread that waited at position j - 1, those behind it still wait in order ahead of all who came later, and nobody else had it in between |
| `UthreadRuns.OwnerStep` | Uthread_wrapper/uthreads_final/uthread_mtx.c:42-118 | only an unlock changes the owner of an owned mutex |
| `UthreadRuns.QueueGrows` | Uthread_wrapper/uthreads_final/uthread_queue.c:51-88 | away from unlock, signal and broadcast the queue of a mutex or condition variable only grows, at its end |
| `UthreadRuns.LockReturnsOwning` | Uthread_wrapper/uthreads_final/uthread_mtx.c:42-61 | a thread that goes on after being suspended in lock owns the mutex |
| `UthreadRuns.CondWaitReturnsOwning` | Uthread_wrapper/uthreads_final/uthread_cond.c:43-60 | a thread woken in cond_wait returns owning the mutex or queues for it |
| `UthreadRuns.CondWaitIsAtomic` | Uthread_wrapper/uthreads_final/uthread_cond.c:43-60 | queueing, unlocking and suspending happen in one step |
| `UthreadRuns.SignalTakesFirst` | Uthread_wrapper/uthreads_final/uthread_cond.c:89-98 | a signal makes exactly the thread that waited longest runnable |
| `UthreadRuns.BroadcastTakesAll` | Uthread_wrapper/uthreads_final/uthread_cond.c:69-78 | a broadcast makes exactly all waiting threads runnable |
| `UthreadRuns.CondIsFifo` | Uthread_wrapper/uthreads_final/uthread_cond.c:43-98 | over every run with at most k signals and no broadcast the thread at position k is still queued, one nearer the front for each signal; the next step makes it runnable if that is signal k + 1 or a broadcast, and leaves it queued otherwise |
| `UthreadRuns.SwitchTakesHighest` | Uthread_wrapper/uthreads_final/uthread_sched.c:176-202 | a switch takes the first of the runnable threads of the highest priority |
| `UthreadRuns.WaitIsBounded` | Uthread_wrapper/uthreads_final/uthread_sched.c:130-202 | a thread at position k of the highest queue runs within k + 1 switches, while nothing higher is runnable and nobody resets its priority |
| `UthreadRuns.StepNotLater` | Uthread_wrapper/uthreads_final/uthread_sched.c:32-202 | no other step costs a runnable thread a position |
| `UthreadRuns.ExitWakesJoiner` | Uthread_wrapper/uthreads_final/uthread.c:109-132 | an exit makes the thread waiting in a join runnable and leaves its value |
| `UthreadRuns.TwoJoinersBreakTheQueue` | Uthread_wrapper/uthreads_final/uthread.c:160-189 | a run from the start in which two threads join a third and the reap queue ends up holding it twice |
| `UthreadJoins.JoinsNeverRing` | Uthread_wrapper/uthreads_final/uthread.c:160-182 | over every run without a self-join, whatever else callers do, second joins of one thread included, and whatever the queues hold: between incarnations of threads join times strictly decrease along "is in a join with", so no chain of joins comes back to its start |
| `UthreadJoins.TurnInOrder` | Uthread_wrapper/uthreads_final/uthread.c:160-182 | every possible step keeps that order: a thread somebody has joined has a waiter, so it cannot start a join |
| `UthreadJoins.SlotsNeverRing` | Uthread_wrapper/uthreads_final/uthread.c:160-182 | in runs within the contract the same holds for the slots threads wait for |
| `UthreadJoins.JoinKeepsIff` | Uthread_wrapper/uthreads_final/uthread.c:145-192 | after a join that is no error, the exit of its target wakes everybody who waits for it and the target is put on the reap queue at most once, exactly if the target had no waiter |
| `UthreadJoins.DetachKeepsIff` | Uthread_wrapper/uthreads_final/uthread.c:203-235 | the same for a detach of a live thread; where somebody waits for it, the exit does not wake the waiter |
| `UthreadJoins.DetachStrandsJoiner` | Uthread_wrapper/uthreads_final/uthread.c:203-235 | a run from the start to such a detach, after which the joiner is not woken |
| `UthreadJoins.InvPromises` | Uthread_wrapper/uthreads_final/uthread.c:109-192 | in every state of a run within the contract this is so for every thread |
| `UtLinks.Queues.Enqueue` | Uthread_wrapper/uthreads_final/uthread_queue.c:51-58 | thread u goes to the end of a queue of the whole system: its link, NULL on both sides before, is the only thing joined to that list, and every other list, header and link is as it was |
| `UtLinks.Queues.Dequeue` | Uthread_wrapper/uthreads_final/uthread_queue.c:68-88 | the first thread leaves its queue and its link is NULL on both sides |
| `UtLinks.Queues.Remove` | Uthread_wrapper/uthreads_final/uthread_queue.c:98-105 | a thread leaves from anywhere in its queue |
| `UtLinks.Queues.EnqueueReap` | Uthread_wrapper/uthreads_final/uthread.c:391-402 | a thread goes to the tail of the reap queue |
| `UtLinks.Queues.DequeueReap` | Uthread_wrapper/uthreads_final/uthread.c:325-332 | one turn of the walk over the reap queue takes its first thread off while the walk goes on |
| `UtLinks.Queues.LinkedIff` | Uthread_wrapper/uthreads_final/uthread_queue.c:51-58 | l_next is NULL exactly if the thread is on no queue of the system, and so is l_prev |
| `UthreadSystemImpl.UthreadSystem.Take` | Uthread_wrapper/uthreads_final/uthread_sched.c:32-202 | any step carried out on the thread table and the linked queues is the machine's step and keeps the invariant; the assertion that an enqueued thread is unlinked never fails; afterwards both pointers of every thread's link are NULL exactly if its status puts it on no queue |
| `UthreadSystemImpl.UthreadSystem.Execute` | Uthread_wrapper/uthreads_final/uthread_sched.c:32-202 | so is any run, the links telling after it who is on a queue |
| `UthreadSystemImpl.UthreadSystem.constructor` | Uthread_wrapper/uthreads_final/uthread.c:43-50 | the state uthread_init leaves: reaper waiting, first thread running and detached, all queues empty |
| `UthreadSystemImpl.UthreadSystem.SetPrio` | Uthread_wrapper/uthreads_final/uthread_sched.c:130-166 | errors as promised; a runnable thread goes to the end of its new queue, off its old one exactly if its link is not NULL |
| `UthreadSystemImpl.UthreadSystem.Switch` | Uthread_wrapper/uthreads_final/uthread_sched.c:176-202 | the scanning loop dispatches what the machine dispatches |
| `UthreadSystemImpl.UthreadSystem.Wake` | Uthread_wrapper/uthreads_final/uthread_sched.c:99-120 | only a waiting thread is woken |
| `UthreadSystemImpl.UthreadSystem.Lock` | Uthread_wrapper/uthreads_final/uthread_mtx.c:42-61 | the machine's lock |
| `UthreadSystemImpl.UthreadSystem.TryLock` | Uthread_wrapper/uthreads_final/uthread_mtx.c:71-82 | succeeds exactly where nobody owns the mutex |
| `UthreadSystemImpl.UthreadSystem.Unlock` | Uthread_wrapper/uthreads_final/uthread_mtx.c:93-118 | dequeue, hand-off and wake are the machine's unlock |
| `UthreadSystemImpl.UthreadSystem.CondWait` | Uthread_wrapper/uthreads_final/uthread_cond.c:43-60 | queueing before unlocking comes to the machine's step |
| `UthreadSystemImpl.UthreadSystem.Broadcast` | Uthread_wrapper/uthreads_final/uthread_cond.c:69-78 | the dequeuing loop is the machine's broadcast |
| `UthreadSystemImpl.UthreadSystem.Create` | Uthread_wrapper/uthreads_final/uthread.c:64-98 | the first free slot is used, or -1 returned; for a priority out of range the process ends |
| `UthreadSystemImpl.UthreadSystem.Exit` | Uthread_wrapper/uthreads_final/uthread.c:109-132 | the machine's exit |
| `UthreadSystemImpl.UthreadSystem.Join` | Uthread_wrapper/uthreads_final/uthread.c:145-192 | the error codes in the order of the checks, and the machine's join |
| `UthreadSystemImpl.UthreadSystem.Detach` | Uthread_wrapper/uthreads_final/uthread.c:203-235 | likewise |
| `UthreadSystemImpl.UthreadSystem.ReapRound` | Uthread_wrapper/uthreads_final/uthread.c:311-352 | the walk that empties the reap queue while iterating and the scan for remaining threads are the machine's round |
| `UthreadEffects.MutualExclusion` | Uthread_wrapper/uthreads_final/uthread_mtx.c:42-118 | over every run from the start, two threads are never inside one mutex, counted from the return of lock, a successful trylock or cond_wait to the next unlock or cond_wait, and whoever is inside owns it |
| `UthreadEffects.LockIs` | Uthread_wrapper/uthreads_final/uthread_mtx.c:42-61 | lock takes a free mutex and runs on; behind another owner the caller waits at the end of the queue; its own mutex makes it wait on no queue |
| `UthreadEffects.TryLockIs` | Uthread_wrapper/uthreads_final/uthread_mtx.c:71-82 | trylock takes a free mutex and leaves a taken one alone |
| `UthreadEffects.UnlockIs` | Uthread_wrapper/uthreads_final/uthread_mtx.c:93-118 | unlock frees a mutex nobody waits for; otherwise the first waiter owns it and goes to the end of its run queue |
| `UthreadEffects.CondWaitIs` | Uthread_wrapper/uthreads_final/uthread_cond.c:43-60 | cond_wait does what unlock does, and the caller waits at the end of the condition's queue |
| `UthreadEffects.SignalIs` | Uthread_wrapper/uthreads_final/uthread_cond.c:89-98 | signal moves the first waiter to the end of its run queue, or does nothing |
| `UthreadEffects.BroadcastIs` | Uthread_wrapper/uthreads_final/uthread_cond.c:69-78 | broadcast moves all waiters to the ends of their run queues, in the order they came |
| `UthreadEffects.YieldIs` | Uthread_wrapper/uthreads_final/uthread_sched.c:32-60 | the caller goes to the end of its run queue |
| `UthreadEffects.BlockIs` | Uthread_wrapper/uthreads_final/uthread_sched.c:70-90 | the caller waits on no queue |
| `UthreadEffects.WakeIs` | Uthread_wrapper/uthreads_final/uthread_sched.c:99-120 | a waiting thread goes to the end of its run queue, any other is left alone |
| `UthreadEffects.SetPrioIs` | Uthread_wrapper/uthreads_final/uthread_sched.c:130-166 | which error is which; a runnable thread goes to the end of the queue of its new priority, any other only gets the priority |
| `UthreadEffects.SwitchIs` | Uthread_wrapper/uthreads_final/uthread_sched.c:176-202 | the thread switched to leaves its run queue and is the one running |
| `UthreadEffects.InitialIs` | Uthread_wrapper/uthreads_final/uthread.c:43-50 | the reaper waits, the first thread runs detached, all other slots are free, and nothing is queued or owned |
| `UthreadEffects.CreateIs` | Uthread_wrapper/uthreads_final/uthread.c:64-98 | the first free slot gets a runnable thread of the priority given, at the end of its run queue; without a slot nothing happens |
| `UthreadEffects.ExitIs` | Uthread_wrapper/uthreads_final/uthread.c:109-132 | the caller is dead with its value; detached, it goes to the reaper, which is woken; otherwise its joiner is woken |
| `UthreadEffects.JoinCodeIs` | Uthread_wrapper/uthreads_final/uthread.c:145-170 | which error of join is which, in the order of the checks |
| `UthreadEffects.JoinWaits` | Uthread_wrapper/uthreads_final/uthread.c:145-192 | joining a live thread makes the caller its waiter and suspends it |
| `UthreadEffects.JoinTakes` | Uthread_wrapper/uthreads_final/uthread.c:145-192 | joining a dead thread detaches it and gives it to the reaper |
| `UthreadEffects.DetachIs` | Uthread_wrapper/uthreads_final/uthread.c:203-235 | which error of detach is which; a live thread is detached and nothing else happens |
| `UthreadEffects.ResumeRelocks` | Uthread_wrapper/uthreads_final/uthread_cond.c:43-60 | a thread woken in cond_wait takes the mutex if it is free and queues for it otherwise |
| `UthreadEffects.ResumeJoins` | Uthread_wrapper/uthreads_final/uthread.c:172-192 | a joiner that runs again waits on, unless its target is dead, which the reaper then gets |
| `UthreadEffects.ResumeReaps` | Uthread_wrapper/uthreads_final/uthread.c:311-352 | the reaper clears the slots of exactly the threads on its queue; with nobody left the process ends |
| `KdSplits.SplitLists.InsertSplitPos` | Raytracing_wrapper/my_work/kdtree.cpp:76-124 | the list stays strictly ascending with the position in it once, on nodes of the pool; list and pool together stay all the nodes |
| `KdSplits.SplitLists.Recycle` | Raytracing_wrapper/my_work/kdtree.cpp:126-141 | the whole list goes back to the pool |
| `KdSplits.SplitLists.constructor` | Raytracing_wrapper/my_work/kdtree.cpp:53-61 | the pool holds 2n + 1 linked nodes |
| `KdSplits.InsertIs` | Raytracing_wrapper/my_work/kdtree.cpp:76-124 | inserting keeps a list ascending and adds exactly that position |
| `Kd.CandidatesIs` | Raytracing_wrapper/my_work/kdtree.cpp:161-175 | the candidates are exactly the box edges within the node, each once, ascending, at most two an object |
| `Kd.CheapestIs` | Raytracing_wrapper/my_work/kdtree.cpp:219-247 | the split chosen is a candidate, none is cheaper, and those as cheap lie to its right |
| `Kd.SplitBoxes` | Raytracing_wrapper/my_work/kdtree.cpp:226-229 | the children of a node are proper boxes inside it that cover it |
| `Kd.PickedIs` | Raytracing_wrapper/my_work/kdtree.cpp:275-295 | a child gets exactly the objects whose boxes intersect its box; the test along the axis changes nothing |
| `Kd.SubdivideWellBuilt` | Raytracing_wrapper/my_work/kdtree.cpp:126-318 | the tree is split within its boxes at every node and no deeper than 33 levels, for any rule that splits inside the box |
| `Kd.CostRuleSplitsInside` | Raytracing_wrapper/my_work/kdtree.cpp:214-253 | the cost rule is such a rule |
| `Kd.LeavesCover` | Raytracing_wrapper/my_work/kdtree.cpp:126-318 | every point of the scene box lies in a leaf's box |
| `Kd.LeafHolds` | Raytracing_wrapper/my_work/kdtree.cpp:126-318 | a leaf of a tree that was split holds exactly the objects that intersect its box, and lies inside the tree's box |
| `Kd.IndexAgrees` | Raytracing_wrapper/my_work/kdtree.cpp:37-74 | for every point and every leaf around it, the leaf finds the same objects around the point as a look at all objects, objects outside the scene box included |
| `KdBuild.Collect` | Raytracing_wrapper/my_work/kdtree.cpp:153-175 | two nodes an object and one more are enough; the arrays hold the edges and the list the candidates |
| `KdBuild.CountSides` | Raytracing_wrapper/my_work/kdtree.cpp:184-213 | every candidate gets the number of objects on each side |
| `KdBuild.Choose` | Raytracing_wrapper/my_work/kdtree.cpp:219-253 | the loop over the list finds the cheapest candidate |
| `KdBuild.Assign` | Raytracing_wrapper/my_work/kdtree.cpp:275-295 | the lists of the children, pushed from the front, and their counts |
| `KdBuild.Subdivide` | Raytracing_wrapper/my_work/kdtree.cpp:126-318 | the nodes built are the specified tree, and the pool of nodes survives the recursion |
| `KdBuild.Build` | Raytracing_wrapper/my_work/kdtree.cpp:37-74 | the same for the whole scene |
| `KdBuild.KdNode.Add` | Raytracing_wrapper/my_work/kdtreenode.cpp:20-28 | an object comes to the front of the linked list, the rest of which is shared, and following the links still meets exactly the objects |
| `KdBuild.KdNode.ToArray` | Raytracing_wrapper/my_work/kdtree.cpp:156-175 | the walk over the links fills the array with exactly the node's objects, head first |
| `KdRule.BuildDecides` | Raytracing_wrapper/my_work/kdtree.cpp:126-322 | every node of the tree of a scene is split exactly if it has more than two objects, depth is left and some box edge within it costs no more than the objects one by one; then at the leftmost cheapest edge, across the first of the longest extents, with areas and counts of intersecting objects written out |
| `KdRule.RuleIs` | Raytracing_wrapper/my_work/kdtree.cpp:214-253 | the rule answers with a split exactly where some edge pays, and with the leftmost of the cheapest |
| `KdRule.PriceIs` | Raytracing_wrapper/my_work/kdtree.cpp:222-240 | the cost of a split is 0.3 and the areas of both parts, times the objects that intersect them, over the area of the box |
| `KdRule.IntersectsIs` | Raytracing_wrapper/my_work/aabb.h:31-42 | closed boxes intersect exactly if they have a point in common |
| `KdRule.CountIs` | Raytracing_wrapper/my_work/kdtree.cpp:184-213 | the count for a part is the number of objects that intersect it |
| `Namev.Vfs.DirNamev` | S5FS_wrapper/my_work/namev.c:74-185 | the walk over the characters gives what splitting the path and walking its components gives, from the root, the base or the working directory, with the error of the first component that fails, and -ENOENT for a path that is NULL; success leaves one reference more, on the directory returned, failure none |
| `Namev.DescendIsResolve` | S5FS_wrapper/my_work/namev.c:74-185 | what is returned is where all components but the last lead, with the last name; it fails exactly where the walk to there fails, the last name is too long or there is no directory |
| `Namev.ComponentsOfJoin` | S5FS_wrapper/my_work/namev.c:103-120 | splitting a path gives back the components it was joined from |
| `Namev.TrailingSlash` | S5FS_wrapper/my_work/namev.c:127-138 | trailing slashes make no difference |
| `Namev.OnlySlashes` | S5FS_wrapper/my_work/namev.c:104-138 | a path has no component exactly if it is all slashes |
| `Namev.OpenIsResolveIff` | S5FS_wrapper/my_work/namev.c:198-256 | open_namev without O_CREAT agrees with the walk along all components, errors included, exactly if the path is rejected at once, has a component, or starts at inode 0: without a component inode 0 is opened wherever the walk starts |
| `Namev.OpenOfNothing` | S5FS_wrapper/my_work/namev.c:198-256 | a concrete case: "" opened in a subdirectory gives the root |
| `Namev.OpenAgain` | S5FS_wrapper/my_work/namev.c:198-256 | what open_namev found or created is found again under the same path, and a failed open leaves no entry behind |
| `Namev.Vfs.OpenNamev` | S5FS_wrapper/my_work/namev.c:198-256 | the vnode found, or created with its entry in the directory; success leaves one reference more, on the vnode returned, failure none |
| `Namev.Vfs.Lookup` | S5FS_wrapper/my_work/namev.c:36-59 | a vnode found comes with a reference; the empty name is answered with inode 0; what has no lookup operation is not a directory |
| `NamevWalk.DirNamevStarts` | S5FS_wrapper/my_work/namev.c:78-103 | an absolute path is walked from the root whatever base and working directory are; any other from the base, or without one from the working directory |
| `NamevWalk.DirNamevIs` | S5FS_wrapper/my_work/namev.c:74-185 | a directory and a name are returned exactly if a chain of entries for all components but the last leads to that directory and the last is that name |
| `NamevWalk.DirNamevFails` | S5FS_wrapper/my_work/namev.c:74-185 | otherwise the error is that of the first component too long, looked up in no directory, or missing |
| `NamevWalk.OpenNamevIs` | S5FS_wrapper/my_work/namev.c:198-256 | without O_CREAT, what is opened is what a chain of entries for all components leads to from there; an error is that of the first component that stops the walk |
| `NamevWalk.CreateIs` | S5FS_wrapper/my_work/namev.c:198-256 | with O_CREAT an entry that is there is found, and one that is not is the only one added, or the error of making it comes back |
| `NamevWalk.NothingIs` | S5FS_wrapper/my_work/namev.c:198-256 | a path without components gives dir_namev its start and open_namev inode 0 |
| `FdTable.Process.DoOpen` | S5FS_wrapper/my_work/open.c:60-129 | the error of the first check that fails, those of the path walk included; failure leaves table, files and vnode references as they were, success takes the lowest empty slot and one reference to the vnode the path leads to |
| `FdTable.Process.GetEmptyFd` | S5FS_wrapper/my_work/open.c:28-42 | the lowest empty slot, or none |
| `FdTable.Process.DoClose` | S5FS_wrapper/my_work/vfs_syscall.c:136-155 | the slot is cleared; the file and its vnode reference go exactly with the last slot |
| `FdTable.Process.DoDup` | S5FS_wrapper/my_work/vfs_syscall.c:168-186 | the lowest empty slot shares the file, and all counts are right |
| `FdTable.Process.DoDup2` | S5FS_wrapper/my_work/vfs_syscall.c:199-229 | the same onto a given slot, also where it already shares the file |
| `FdTable.Process.DoRead` | S5FS_wrapper/my_work/vfs_syscall.c:38-71 | all counts are kept on every path; only the position of the file read moves; the assertion of fput about positions fails exactly where an error would take the position below -1 |
| `FdTable.Process.DoWrite` | S5FS_wrapper/my_work/vfs_syscall.c:87-127 | likewise, writing from the end of the file in append mode |
| `FdTable.Process.DoLseek` | S5FS_wrapper/my_work/vfs_syscall.c:690-750 | likewise; the position is set where it is not negative |
| `FdTable.Process.Release` | S5FS_wrapper/Weenix/kernel/fs/file.c:85-114 | the last fput gives the vnode reference back |
| `FdLaws.FlagsAre` | S5FS_wrapper/my_work/open.c:63-102 | which flags are refused: an access mode of both, truncating a file to be read, or out of range; a file opened is readable, writable and appending exactly as asked |
| `FdLaws.FlagsParts` | S5FS_wrapper/my_work/open.c:63-64 | every number let through is made of those parts |
| `FdLaws.EarlyIs` | S5FS_wrapper/my_work/open.c:63-84 | flags, slots and memory are checked in that order, before the path |
| `FdLaws.TargetIs` | S5FS_wrapper/my_work/open.c:104-116 | what is opened is looked up from the root or the working directory |
| `FdLaws.TransfersAre` | S5FS_wrapper/my_work/vfs_syscall.c:38-127 | a file so opened is read and written as asked, at its end in append mode |
| `FdLaws.SeekIs` | S5FS_wrapper/my_work/vfs_syscall.c:690-750 | each whence leads to the offset from the start, the position or the end; -EINVAL exactly for another whence or a target before the start |
| `FdTable.OpenIsPointedAt` | S5FS_wrapper/Weenix/kernel/fs/file.c:65-114 | between calls a file is open exactly if a slot points at it, and its count is the number of such slots |

## Left out

- The page cache, disk I/O, kernel mutexes, pinning and dirty flags: pages are arrays and each operation is atomic.
- Allocation failures during `s5_write_file`: the code ignores the errors of `pframe_dirty`.
- 32-bit overflow of file positions and sizes: positions are unbounded integers, inode numbers in records are bounded.
- `s5_inode_blocks`: it reads block 0 where there is no indirect block and does not count the indirect block.
- `do_link` and `do_rename`: no path through them succeeds.
- Creating a name that is `.` or `..`, and the assertion in `s5fs_lookup` that names have at most 27 bytes.
- The composition of all layers of S5 into one file system: directories are proved over the bytes of files, and their
  entries to be those of the link-count model, but the page cache between the bytes of `S5File` and the device pages of
  `S5Pages` is not there, and `S5FsImpl` keeps its entries as a map.
- Context switching, stacks, errno fields and the idle loop: a switch changes the current thread.
- Signed 16-bit wrap-around of s5_linkcount: link counts are unbounded integers.
- Float rounding in the kd-tree, its fixed arrays of 100000 nodes, tree traversal and all ray intersection: a box
  without surface area, whose cost is not a number in floats, stays a leaf as it does there.
- Scenes of 2147483647 objects or more, for which a leaf could cost more than the start value of the search.
- Snowcast, the OpenGL, OpenCL and Qt code, scene parsing: they do not keep invariants of this kind.
- Namev.Vfs.OpenNamev: which vnode the create operation makes, or its error, is a parameter; it is taken to leave no vnode behind when it fails, as s5fs_create does.
- FdTable.Process.DoWrite: what the vnode operation returns is a parameter, as for DoRead.
- FdTable.Process.DoRead: what the vnode operation returns is a parameter; what follows after the assertion of fput has
  failed is not described.
- S5FsImpl.S5Fs.LinkFile: a directory with no room for the entry, on which the assertion about the link count fails.
- S5File.VnodeFile.Read: only reads within reach are made; `S5File.ReadFileCorrectIff` says which these are.
