# A verified model of the operating system

This project models the parts of a small x86 operating system that keep state under
invariants, and proves what those parts promise over whole runs. There are two copies of the
system in the repository; the model follows `mp3_Final` except for the text-mode terminal,
which is that of `mp3_terminal`.

`dafny verify dfyconfig.toml` checks the whole project.

**The PSV filesystem.** `PsvLayout` and `PsvDisk` give the structures on disk and the sectors
that hold them. `PsvTree`, `PsvBlocks` and `PsvContent` say what the stored structures mean:
the folder tree in fixed slots, the naming of files, the ownership of blocks, the content of a
file. A `View` is everything stored, with ghost maps that locate each folder, file and block.
`PsvSteps`, `PsvPrune`, `PsvAbandon`, `PsvPath` and `PsvTargets` treat the single steps, recursive
deletion, deletion that stops halfway, paths and what the operations find by them, `PsvReach` and
`PsvRuns` what holds of every tree and after every run. `Psv` is the filesystem itself, a class
whose methods change the superblock, the cached folder and the disk in place; each public method
names the step of a run that it is.

The flag `fixed` selects the code as shipped (false) or repaired (true). As shipped, `idx2LBA`
bounds every index by 32 (helper.c:268, helper.c:277), so that all inodes and data blocks above
that are one sector, here the shared sector; `write_content` copies every block from the start of
the buffer (PSV.c:784, PSV.c:788) and `read_content` returns an offset within the last block
(PSV.c:731). Both versions are proved; where a property fails of the shipped code, the lemma says
when it holds.

**Processes and terminals.** `ProcessStacks` is what the kernel's records amount to: three
stacks of processes, and the steps tick, execute, halt, open and close. `Processes` is the
kernel: the bitmap of pids, PCBs at their addresses, terminals in a ring, the stack and page
frame in use. Saved registers are opaque.

**The window compositor.** `Windows` compares the precomputed rectangles with the order of the
windows; `Compositor` is the screen, the three windows' copies, and the operations on them;
`DesktopRuns` is what runs of these come to. The frame buffer and the copies are two-dimensional
arrays.

**Smaller parts.** `TextTerminal` is the 25 by 80 text screen in video memory, `Keyboard` the
line editing, `Blink` the list of blinking characters, `FileRead` reading from the read-only
filesystem, `Icons` the drawing of TGA images.

The code departs from what its comments say in these places, and the model follows the code:
`get_num_db` rounds down, so that a partly filled last block is never freed (helper.c:373-376);
names are compared with unused slots too (PSV.c:267-273, PSV.c:534-539); `create_folder` makes
folders called "." and "..", which `delete_folder` refuses, so that a recursive deletion can fail
halfway (PSV.c:364-367, PSV.c:396-398); a write that runs out of blocks keeps those it took
(PSV.c:776-778); a failed walk and every `PSV_delete_file` leave the current folder moved
(PSV.c:344, PSV.c:593-602); `schedule` falls through when no pid is free for a base shell
(syscall_handler.c:675-687), as it does after `ProcessStacks.CrowdGetsStuck`'s run; a reader waits
for the running terminal but reads the viewed one's buffer (keyboard.c:260-272); a cell covered in
part is not drawn on the screen at all (VGA_image.c:407-421); `GUI_init` paints a lower window over
a higher one (GUI.c:32-40).

## Model

| member | source | states |
|---|---|---|
| PsvRuns.RunIsTree | mp3_Final/student-distrib/PSV_fs_lite/PSV.c:210-795 | after any run from the empty image of folder and file creations and removals and writes, successful or failed, the set bits of fnode_map are exactly the folders that some path of used slots reaches from the root or from a folder that a failed deletion left behind, no folder is reached by two paths, and the set bits of inode_map are exactly the inodes named by exactly one used slot of such a folder |
| PsvRuns.PlainRunsLoseNothing | mp3_Final/student-distrib/PSV_fs_lite/PSV.c:210-435 | in a run that creates no folder called "." or ".." no deletion of a folder that is there fails, and the set bits of fnode_map are exactly the folders that paths from the root reach |
| PsvRuns.DotInsideStrands | mp3_Final/student-distrib/PSV_fs_lite/PSV.c:363-398 | with "a" in the root and "." in "a", which is a run, deleting "a" fails; where it does, both keep their bits and no path from the root reaches either |
| PsvRuns.RunKeeps | mp3_Final/student-distrib/PSV_fs_lite/PSV.c:210-795 | the tree, naming and block-ownership invariants hold in every view of every run, failed deletions and writes that exhaust the blocks included, for the shipped and for the repaired code |
| PsvRuns.StepKeeps | mp3_Final/student-distrib/PSV_fs_lite/PSV.c:210-795 | each operation keeps all three invariants, also a deletion that stops halfway and a write that runs out of blocks |
| PsvRuns.StepKeepsFile | mp3_Final/student-distrib/PSV_fs_lite/PSV.c:363-795 | an operation that neither writes nor removes a file, whether it succeeds or fails, leaves its inode and the data of each of its blocks that has a sector of its own as they were |
| PsvRuns.RunKeepsContent | mp3_Final/student-distrib/PSV_fs_lite/PSV.c:363-795 | over any run that leaves a file alone its inode stays, and so does all of its content that lies in sectors of its own, which under the repaired bound is all of it |
| PsvRuns.WriteLasts | mp3_Final/student-distrib/PSV_fs_lite/PSV.c:739-795 | after any further operations on other files and folders a file holds the bytes of the buffer written to it, with the shipped code those of its first 512 over and over, but for blocks in the shared sector |
| PsvRuns.SharedIsOverwritten | mp3_Final/student-distrib/PSV_fs_lite/helper.c:254-294 | a byte of a file that lies in the shared sector reads, after a write of another file that took a block there, as that write's last block there |
| PsvRuns.ReadAfterWrite | mp3_Final/student-distrib/PSV_fs_lite/PSV.c:678-795 | a read after such a run gives back the bytes written and their number if the code is repaired, or the read ends before byte 512 and the first block has a sector of its own; with the shipped code never if it ends later |
| PsvRuns.BlocksAccounted | mp3_Final/student-distrib/PSV_fs_lite/helper.c:141-252 | the number of set bits of db_map is the number of blocks of the live files plus the number of stranded blocks |
| PsvRuns.StrandedGrows | mp3_Final/student-distrib/PSV_fs_lite/PSV.c:610-795 | an operation strands exactly one block for each file it removes or rewrites whose old length is not a multiple of 512, and no other; after a write that runs out of blocks every block that no file owns is stranded |
| PsvRuns.EmptyViewOk | mp3_Final/student-distrib/PSV_fs_lite/PSV.c:74-119 | the image that PSV_setup leaves satisfies every invariant |
| PsvReach.LiveIsReachable | mp3_Final/student-distrib/PSV_fs_lite/PSV.c:289-291 | in a well-linked tree a folder's bit is set if and only if a path of used slots leads to it from the root or from a folder left behind |
| PsvReach.RootedIsReachable | mp3_Final/student-distrib/PSV_fs_lite/PSV.c:289-291 | a live folder hangs from the root if and only if a path of used slots leads to it from there |
| PsvReach.PathsAreUnique | mp3_Final/student-distrib/PSV_fs_lite/PSV.c:263-291 | two paths of slots to the same folder are the same path |
| PsvReach.FilesAreNamed | mp3_Final/student-distrib/PSV_fs_lite/PSV.c:530-558 | an inode's bit is set if and only if a used slot of a live folder names it, and only one does |
| PsvReach.LoppedGrows | mp3_Final/student-distrib/PSV_fs_lite/PSV.c:392-400 | one turn of the loop over subfolders takes away exactly the subtree of the child in that slot, disjoint from what went before |
| PsvReach.LoppedEnds | mp3_Final/student-distrib/PSV_fs_lite/PSV.c:392-403 | after the last slot, what the loop took away and the folder itself make up the folder's whole subtree |
| PsvPrune.FilesDoneStep | mp3_Final/student-distrib/PSV_fs_lite/PSV.c:381-389 | one turn of the loop over files keeps: the files of the slots passed are gone and nothing else has changed |
| PsvPrune.ChildrenDoneStep | mp3_Final/student-distrib/PSV_fs_lite/PSV.c:392-400 | one turn of the loop over subfolders keeps: what hung from the slots passed is gone and nothing else has changed |
| PsvPrune.EraseAddsUp | mp3_Final/student-distrib/PSV_fs_lite/PSV.c:363-409 | the phases of delete_folder add up to removing the child's subtree and exactly the files in it, with one slot of the parent changed and every other folder and file as before |
| PsvPrune.EraseIsClean | mp3_Final/student-distrib/PSV_fs_lite/PSV.c:363-409 | a folder that could be deleted had no folder called "." or ".." below it |
| PsvAbandon.HaltedHere | mp3_Final/student-distrib/PSV_fs_lite/PSV.c:364-398 | the loop over subfolders stops at a child called "." or "..": the children before it are gone, and it and the rest are as before |
| PsvAbandon.HaltedBelow | mp3_Final/student-distrib/PSV_fs_lite/PSV.c:392-398 | where the deletion of a child stops at a folder further down, so does the loop above it, and the two partial deletions add up |
| PsvAbandon.AbandonAddsUp | mp3_Final/student-distrib/PSV_fs_lite/PSV.c:363-409 | a failed delete_folder removes exactly what comes before the first dotted folder in slot order; the folders above that one, up to the one to be deleted, keep their bits but lose their files, the children passed and their names |
| PsvAbandon.AbandonedIsNotClean | mp3_Final/student-distrib/PSV_fs_lite/PSV.c:363-398 | a deletion stops halfway only where a folder below is called "." or ".." |
| PsvAbandon.FailsKeeps | mp3_Final/student-distrib/PSV_fs_lite/PSV.c:363-409 | a failed deletion keeps the tree, with the folders left behind as further tops, the naming of files and the ownership of blocks |
| PsvAbandon.FailsCutsOff | mp3_Final/student-distrib/PSV_fs_lite/PSV.c:363-409 | after a failed deletion a folder hangs from the root if and only if it did before and is not at or below the one to be deleted; what is below keeps its bit if and only if the deletion had not passed it, and not all of it has been passed |
| PsvSteps.GrowKeeps | mp3_Final/student-distrib/PSV_fs_lite/PSV.c:210-242 | creating a child under any new name, "." and ".." included, keeps every invariant |
| PsvSteps.AbandonKeeps | mp3_Final/student-distrib/PSV_fs_lite/PSV.c:392-398 | a folder whose deletion stops halfway stays behind unnamed and the rest is still well linked |
| PsvSteps.DetachKeeps | mp3_Final/student-distrib/PSV_fs_lite/PSV.c:416-435 | unnaming a child keeps the invariants but for the child, which no slot names any more |
| PsvSteps.RemoveKeeps | mp3_Final/student-distrib/PSV_fs_lite/PSV.c:402-406 | clearing the bit of an unnamed, emptied folder keeps every invariant: nothing refers to it |
| PsvSteps.DropFileKeeps | mp3_Final/student-distrib/PSV_fs_lite/PSV.c:610-661 | deleting a file keeps every invariant, frees its whole blocks and touches no other file |
| PsvSteps.AddFileKeeps | mp3_Final/student-distrib/PSV_fs_lite/PSV.c:476-509 | creating a file keeps every invariant |
| PsvSteps.PrunedTrans | mp3_Final/student-distrib/PSV_fs_lite/PSV.c:379-400 | deleting twice is deleting the union, in folders, files, freed and stranded blocks |
| PsvTree.NewNodeOk | mp3_Final/student-distrib/PSV_fs_lite/PSV.c:301-318 | a new folder node has its name, names itself in slot 0 and its parent in slot 1 and counts its slots rightly |
| PsvTree.LinkKeepsNode | mp3_Final/student-distrib/PSV_fs_lite/PSV.c:263-294 | inserting a folder slot keeps names distinct and num_fterm the number of used slots |
| PsvTree.UnlinkKeepsNode | mp3_Final/student-distrib/PSV_fs_lite/PSV.c:416-435 | deleting a folder slot keeps num_fterm the number of used slots |
| PsvTree.LinkFileKeepsNode | mp3_Final/student-distrib/PSV_fs_lite/PSV.c:530-558 | inserting a file slot keeps names distinct and num_iterm the number of used slots |
| PsvTree.UnlinkFileKeepsNode | mp3_Final/student-distrib/PSV_fs_lite/PSV.c:642-661 | deleting a file slot keeps num_iterm the number of used slots |
| PsvBlocks.FreedAreOwned | mp3_Final/student-distrib/PSV_fs_lite/PSV.c:619-627 | the blocks a delete frees and the partly filled one together are all and only the file's blocks |
| PsvBlocks.FreeFileKeepsOthers | mp3_Final/student-distrib/PSV_fs_lite/PSV.c:619-634 | freeing one file leaves the inodes of all live files, the owners of every other file's blocks, and the data of those that have sectors of their own |
| PsvLayout.SectorCollision | mp3_Final/student-distrib/PSV_fs_lite/helper.c:254-294 | two structures share a sector if and only if the bound is the shipped one and both indices are above 32; none shares the superblock's |
| Bitmap.Set | mp3_Final/student-distrib/PSV_fs_lite/helper.c:141-153 | the bits set are those set before and the one given |
| Bitmap.Clear | mp3_Final/student-distrib/PSV_fs_lite/helper.c:155-167 | the bits set are those set before without the one given |
| Bitmap.FirstFree | mp3_Final/student-distrib/PSV_fs_lite/helper.c:197-252 | the scan finds the lowest clear bit, or -1 when all are set |
| PsvDisk.Disk.constructor | mp3_Final/student-distrib/PSV_fs_lite/PSV.c:64-122 | the disk holds the superblock, the root node and otherwise zeros, but for the sector before the area, which is not cleared |
| PsvDisk.Disk.ReadSuper | mp3_Final/student-distrib/PSV_fs_lite/helper.c:524-530 | reading the superblock gives what was last written |
| PsvDisk.Disk.WriteSuper | mp3_Final/student-distrib/PSV_fs_lite/helper.c:532-538 | writing the superblock changes no node, inode or data block |
| PsvDisk.Disk.ReadFnode | mp3_Final/student-distrib/PSV_fs_lite/helper.c:546-549 | reading a node gives the one stored under its index |
| PsvDisk.Disk.WriteFnode | mp3_Final/student-distrib/PSV_fs_lite/helper.c:552-558 | writing a node changes that node and no other structure |
| PsvDisk.Disk.ReadInode | mp3_Final/student-distrib/PSV_fs_lite/helper.c:560-570 | reading an inode gives the one stored under its index, or under the shipped bound what the sector of all indices above 32 holds, read as an inode |
| PsvDisk.Disk.WriteInode | mp3_Final/student-distrib/PSV_fs_lite/helper.c:572-578 | writing an inode changes no other structure, but under the shipped bound all inodes and data blocks of index above 32 are one sector; zeros are zeros to both |
| PsvDisk.Disk.ReadDb | mp3_Final/student-distrib/PSV_fs_lite/helper.c:586-589 | reading a data block gives the one stored under its index, or under the shipped bound what the sector of all indices above 32 holds |
| PsvDisk.Disk.WriteDb | mp3_Final/student-distrib/PSV_fs_lite/helper.c:592-598 | writing a data block changes no other structure, but under the shipped bound all data blocks and inodes of index above 32 are one sector; zeros are zeros to both |
| Psv.Psv.Setup | mp3_Final/student-distrib/PSV_fs_lite/PSV.c:64-135 | setting up and mounting gives the empty filesystem with the root cached and the bitmaps on disk |
| Psv.Psv.Mount | mp3_Final/student-distrib/PSV_fs_lite/PSV.c:124-135 | mounting a disk whose bitmaps are written sees the same filesystem, with the root cached |
| Psv.Psv.DeleteDb | mp3_Final/student-distrib/PSV_fs_lite/PSV.c:663-671 | the block is zeroed and its bit clear, in memory and on disk; in the shared sector the other blocks and the inodes there are zeroed with it |
| Psv.Psv.DeleteBlocks | mp3_Final/student-distrib/PSV_fs_lite/PSV.c:620-627 | the loop zeroes and frees exactly the whole blocks of the file |
| Psv.Psv.DeleteIterm | mp3_Final/student-distrib/PSV_fs_lite/PSV.c:642-661 | the used slot of that name, if there is one, is emptied in memory and on disk |
| Psv.Psv.DeleteFterm | mp3_Final/student-distrib/PSV_fs_lite/PSV.c:416-435 | the used child slot of that name, if there is one, is emptied in memory and on disk |
| Psv.Psv.DeleteFile | mp3_Final/student-distrib/PSV_fs_lite/PSV.c:610-635 | succeeds if and only if a used slot has that name, and then the file and its whole blocks are gone and nothing else has changed |
| Psv.Psv.DeleteFilesIn | mp3_Final/student-distrib/PSV_fs_lite/PSV.c:380-389 | after the loop the folder's files are gone and nothing else has changed |
| Psv.Psv.DeleteChildrenIn | mp3_Final/student-distrib/PSV_fs_lite/PSV.c:392-400 | when the loop ends everything below the folder is gone and nothing else has changed; when it stops at a dotted folder, what comes before that one is gone |
| Psv.Psv.DeleteFolder | mp3_Final/student-distrib/PSV_fs_lite/PSV.c:363-409 | the recursion ends; it succeeds if and only if there is a child of that name and neither it nor a folder below it is called "." or "..", and then exactly the child's subtree and the files in it are gone; where a folder below stops it, what is left is said exactly; in all other cases nothing changes |
| Psv.Psv.TakeInode | mp3_Final/student-distrib/PSV_fs_lite/helper.c:169-195 | the lowest free inode is marked as used, or -1 is returned and nothing changes |
| Psv.Psv.TakeFnode | mp3_Final/student-distrib/PSV_fs_lite/helper.c:169-195 | the lowest free folder node is marked as used, or -1 is returned and nothing changes |
| Psv.Psv.TakeBlock | mp3_Final/student-distrib/PSV_fs_lite/helper.c:169-195 | the lowest free data block is marked as used, or -1 is returned and nothing changes |
| Psv.Psv.InsertIterm | mp3_Final/student-distrib/PSV_fs_lite/PSV.c:530-558 | succeeds if and only if no slot, used or not, has the name and one is unused; then the lowest unused slot holds it |
| Psv.Psv.InsertFterm | mp3_Final/student-distrib/PSV_fs_lite/PSV.c:263-294 | succeeds if and only if no child slot, used or not, has the name and one is unused; then the lowest unused slot holds it |
| Psv.Psv.CreateFile | mp3_Final/student-distrib/PSV_fs_lite/PSV.c:476-509 | says exactly when it succeeds, that a failure changes no tree, inode or block, and what a success adds |
| Psv.Psv.CreateFolder | mp3_Final/student-distrib/PSV_fs_lite/PSV.c:210-242 | says exactly when it succeeds, that a failure changes no tree, inode or block, and what a success adds |
| Psv.CanCreateExactly | mp3_Final/student-distrib/PSV_fs_lite/PSV.c:210-294 | in any tree in order creating a folder or file succeeds if and only if a slot and a node or inode are free and no slot, used or not, has the name |
| Psv.DeletedFolderNameIsTaken | mp3_Final/student-distrib/PSV_fs_lite/PSV.c:263-273 | right after a folder is deleted, creating one of the same name there fails |
| Psv.DeletedFileNameIsTaken | mp3_Final/student-distrib/PSV_fs_lite/PSV.c:530-539 | right after a file is deleted, creating one of the same name there fails |
| Psv.Psv.FillBlocks | mp3_Final/student-distrib/PSV_fs_lite/PSV.c:768-791 | the loop succeeds if and only if enough blocks are free, and gives the write distinct blocks that were free, filled with the chunks of the buffer; the shared sector holds the last chunk put there |
| Psv.Psv.WriteContent | mp3_Final/student-distrib/PSV_fs_lite/PSV.c:739-795 | succeeds if and only if enough blocks are free once the old content is; then the file holds what was stored, other files and the tree are unchanged, and the bitmaps are on disk; a failure is the failed write of a run, and the bitmaps on disk are those in memory if and only if nothing was free even with the old content freed |
| PsvContent.FailureKeepsBlocks | mp3_Final/student-distrib/PSV_fs_lite/PSV.c:749-778 | after a write that runs out of blocks every bit is set, the inode still owns what it owned and the other files are as they were |
| PsvContent.SameWhenFull | mp3_Final/student-distrib/PSV_fs_lite/PSV.c:749-778 | the block map freed is the one taken if and only if nothing was free after freeing |
| PsvRuns.EnoughRoomExactly | mp3_Final/student-distrib/PSV_fs_lite/PSV.c:754-778 | a write finds its blocks if and only if the set bits of db_map, less the whole blocks of the old content, and the blocks of the new content are together at most 2048 |
| Psv.Psv.ReadContent | mp3_Final/student-distrib/PSV_fs_lite/PSV.c:678-732 | delivers exactly the requested slice of the file's content up to its end and returns the end less the offset, with the shipped code the end modulo 512 less the offset; rejects bad arguments, and returns 0 at or past the end |
| Psv.Psv.ReadAcross | mp3_Final/student-distrib/PSV_fs_lite/PSV.c:706-729 | part of a block, whole blocks and part of a block join to the requested slice |
| Psv.Psv.GoinSp | mp3_Final/student-distrib/PSV_fs_lite/helper.c:455-485 | the cached folder follows the walk, to its end or to the last folder it reached, and stays the disk image of a folder that hangs from the root |
| Psv.Psv.LoadFolder | mp3_Final/student-distrib/PSV_fs_lite/helper.c:540-550 | the cache holds the node read, if its bit is set, and is left alone otherwise |
| PsvTargets.TargetOfJoin | mp3_Final/student-distrib/PSV_fs_lite/PSV.c:188-194 | on a path joined from its parts the operations work on the last part, in the folder that the others lead to |
| PsvTargets.MadeIsReached | mp3_Final/student-distrib/PSV_fs_lite/PSV.c:188-196 | the path that a folder was made by, if its last part is neither "." nor "..", leads to the new folder |
| PsvTargets.NamedIsReached | mp3_Final/student-distrib/PSV_fs_lite/PSV.c:338-347 | a child of the last part's name is where the whole path leads |
| Psv.Psv.CreateFolderAt | mp3_Final/student-distrib/PSV_fs_lite/PSV.c:175-201 | when it succeeds, for every name; then walking the whole path leads to the one new folder, and the cache is the starting folder again, as it is after any failure but that of the walk |
| Psv.Psv.CreateFileAt | mp3_Final/student-distrib/PSV_fs_lite/PSV.c:442-469 | when it succeeds; then a slot called the last part, in the folder that the other parts lead to, names the one new inode; the cache is the starting folder again unless the walk failed |
| Psv.Psv.DeleteFolderAt | mp3_Final/student-distrib/PSV_fs_lite/PSV.c:325-356 | when it succeeds, and then the folder that the whole path led to is live no more; what it removes then and when it fails; afterwards the cache is a folder that hangs from the root, even if the starting one is gone |
| Psv.Psv.DeleteFileOf | mp3_Final/student-distrib/PSV_fs_lite/PSV.c:577-603 | succeeds if and only if a used slot in the folder that the other parts lead to is called the last part; that slot is emptied and its inode freed; the cache stays in that folder |
| Psv.Psv.InodeByPath | mp3_Final/student-distrib/PSV_fs_lite/PSV.c:802-843 | the inode of the slot called the last part in the folder that the other parts lead to, or -1 if and only if there is none; the cache is the starting folder again unless the walk failed |
| PsvPath.SplitPath | mp3_Final/student-distrib/PSV_fs_lite/helper.c:390-436 | gives the parts up to the first empty one, at most 32 of them |
| PsvPath.ScanIsCut | mp3_Final/student-distrib/PSV_fs_lite/helper.c:405-434 | the one-pass scan with its cursor cuts where the recursive definition does |
| PsvPath.SplitOfJoin | mp3_Final/student-distrib/PSV_fs_lite/helper.c:390-436 | splitting undoes joining 1 to 32 slash-free names, absolute or relative, with or without a final slash |
| PsvPath.SlotIsStep | mp3_Final/student-distrib/PSV_fs_lite/helper.c:468-478 | from a folder that hangs from the root the slot scan finds the folder itself, its parent or its child of that name, and fails if and only if there is none |
| PsvPath.WalkFollowsTree | mp3_Final/student-distrib/PSV_fs_lite/helper.c:455-485 | from a folder that hangs from the root the walk succeeds if and only if the steps lead somewhere in the tree, ends there, and where it fails it is in a folder that hangs from the root |
| PsvPath.ChildAndBack | mp3_Final/student-distrib/PSV_fs_lite/PSV.c:301-318 | a child's name leads to it if and only if the name is not "." nor, below the root, ".."; then ".." leads back |
| PsvContent.RewriteStores | mp3_Final/student-distrib/PSV_fs_lite/PSV.c:768-794 | after a write the content read through the block table is what was stored, byte for byte, wherever the block has a sector of its own; blocks in the shared sector all hold the last one put there |
| PsvContent.RewriteKeepsBlocks | mp3_Final/student-distrib/PSV_fs_lite/PSV.c:749-794 | after a write no two files share a block and every set bit is owned or stranded |
| PsvContent.RewriteKeepsOthers | mp3_Final/student-distrib/PSV_fs_lite/PSV.c:749-794 | a write leaves every other file's inode alone, and the data of its blocks that have sectors of their own |
| PsvContent.ReadBackExactly | mp3_Final/student-distrib/PSV_fs_lite/PSV.c:731-791 | the shipped copying and return value are right if and only if the read ends before byte 512 |
| PsvContent.PrunedKeepsFile | mp3_Final/student-distrib/PSV_fs_lite/PSV.c:363-409 | deletions leave the inode of a file that is not deleted, and the data of its blocks that have sectors of their own |
| PsvContent.FreeMeansLowest | mp3_Final/student-distrib/PSV_fs_lite/helper.c:235-252 | if any of the first n blocks is free, the lowest free block is one of them |
| ProcessStacks.RunKeeps | mp3_Final/student-distrib/syscall_handler.c:222-695 | in every reachable state each live process is in one place of one terminal's chain, above its parent and over a base shell with parent -1, and after n ticks the running terminal is n mod 3 |
| ProcessStacks.CallReturns | mp3_Final/student-distrib/syscall_handler.c:296-422 | while a child has not halted, its parent's PCB is what it was at the parent's execute, whatever all terminals do, and the halt loads the context saved there and returns the status, 256 for 255 |
| ProcessStacks.SwitchReturns | mp3_Final/student-distrib/syscall_handler.c:645-695 | a terminal switched out by a tick is unchanged until the tick that comes back to it, which loads the context saved |
| ProcessStacks.StartedStays | mp3_Final/student-distrib/syscall_handler.c:369-376 | a terminal that has started always has a process |
| ProcessStacks.StuckExactly | mp3_Final/student-distrib/syscall_handler.c:674-679 | a step is stuck if and only if it is a tick that comes to a terminal never started while all six pids are taken |
| ProcessStacks.CrowdGetsStuck | mp3_Final/student-distrib/syscall_handler.c:674-687 | a run of one tick and five executes after which the next tick is stuck |
| ProcessStacks.StepKeeps | mp3_Final/student-distrib/syscall_handler.c:222-695 | every step that is not stuck keeps the three chains in order and leaves a process running |
| ProcessStacks.StepKeepsBelow | mp3_Final/student-distrib/syscall_handler.c:222-695 | a step changes nothing below the top of any chain |
| ProcessStacks.StepKeepsOthers | mp3_Final/student-distrib/syscall_handler.c:222-695 | a step changes nothing of a terminal that is not running |
| ProcessStacks.TickSwitches | mp3_Final/student-distrib/syscall_handler.c:654-694 | a tick saves the context in the process it leaves and loads that of the process it comes to |
| ProcessStacks.Isolated | mp3_Final/student-distrib/syscall_handler.c:464-467 | two live processes share neither their 8 KB of PCB and stack nor their page frame, and a stack starts at 8M - pid * 8K - 4 |
| ProcessStacks.PopKeeps | mp3_Final/student-distrib/syscall_handler.c:367-382 | halting keeps the chains in order and always leaves a pid free for a base shell |
| ProcessStacks.PushKeeps | mp3_Final/student-distrib/syscall_handler.c:295-308 | executing keeps the chains in order |
| Processes.Kernel.Forest | mp3_Final/student-distrib/syscall_handler.c:276-323 | in every state the kernel keeps, the used pids are the disjoint union of the three terminals' chains of parent links in memory, headed by cur_pid or the terminal's pid, without repetitions, and each chain ends at a base shell with parent -1 |
| Processes.ChainIsStack | mp3_Final/student-distrib/syscall_handler.c:295-297 | following the parent links in memory from a process leads down its terminal's stack and ends below it |
| Processes.Kernel.constructor | mp3_Final/student-distrib/terminal.c:28-79 | the initial records stand for three empty chains |
| Processes.Kernel.RecordProcess | mp3_Final/student-distrib/syscall_handler.c:477-492 | takes the lowest pid not in use, or -1 when all six are |
| Processes.Kernel.DecordProcess | mp3_Final/student-distrib/syscall_handler.c:501-508 | frees the pid |
| Processes.Kernel.InitFileTable | mp3_Final/student-distrib/syscall_handler.c:602-634 | descriptors 0 and 1 are open on standard input and output and no others are |
| Processes.Kernel.InitPcb | mp3_Final/student-distrib/syscall_handler.c:295-308 | the new PCB is a fresh process's and no live PCB has changed |
| Processes.Kernel.Execute | mp3_Final/student-distrib/syscall_handler.c:222-347 | is a step of the chains: -1 or 0 without effect, or a fresh process above the caller; its PCB in memory holds the arguments and the caller's pid, the caller's PCB its context, and its own stack and frame are in use |
| Processes.Kernel.Halt | mp3_Final/student-distrib/syscall_handler.c:356-425 | is a step of the chains: the pid in the PCB's parent field resumes with the context in its own PCB, its stack and frame, and the status, or another base shell starts |
| Processes.Kernel.CloseAll | mp3_Final/student-distrib/syscall_handler.c:389-390 | no descriptor from 2 on is open afterwards, and nothing but the dying PCB's table changes |
| Processes.Kernel.ReturnToParent | mp3_Final/student-distrib/syscall_handler.c:378-422 | the parent's saved context is loaded, with its own stack and frame; status 255 becomes 256 |
| Processes.Kernel.Schedule | mp3_Final/student-distrib/syscall_handler.c:645-695 | is a step of the chains: the context goes to the PCB left, the next terminal of the ring runs and the context in its PCB is loaded; where it is stuck it goes on with pid -1, frame 1 and a PCB beyond the last one |
| Processes.Kernel.SaveEsp0 | mp3_Final/student-distrib/syscall_handler.c:656-658 | the kernel stack stored in the PCB left is the one that is there already |
| Processes.Kernel.Advance | mp3_Final/student-distrib/syscall_handler.c:654-672 | the context is saved where the terminal left will find it and the next terminal of the ring is current |
| Processes.Kernel.LaunchBaseShell | mp3_Final/student-distrib/syscall_handler.c:704-708 | starts a shell with parent -1 on the lowest free pid, or does nothing if there is none |
| ProcessStacks.OpenThenClose | mp3_Final/student-distrib/syscall_handler.c:54-129 | the descriptor that open returns was free and is in use at position 0 with the file's operations and inode; close of it succeeds once, leaves in use what was before, and fails the second time |
| ProcessStacks.OpenFails | mp3_Final/student-distrib/syscall_handler.c:54-110 | open fails, and changes nothing, if and only if the file is not found or no descriptor from 2 on is free |
| Processes.Kernel.Open | mp3_Final/student-distrib/syscall_handler.c:54-110 | in memory the lowest free descriptor from 2 on is in use at position 0 with the file's operations and inode, and no other descriptor and no other PCB has changed; or -1 is returned and nothing has |
| Processes.Kernel.Close | mp3_Final/student-distrib/syscall_handler.c:119-129 | in memory a descriptor from 2 on that is open is in use no more, and no other descriptor and no other PCB has changed; everything else is -1 and no change |
| Processes.StoredAfterPush | mp3_Final/student-distrib/syscall_handler.c:295-323 | writing the new PCB disturbs no live one |
| Processes.StoredAfterPop | mp3_Final/student-distrib/syscall_handler.c:367-407 | what happens to the dead process's PCB disturbs no live one |
| Windows.OverlapIsCover | mp3_Final/student-distrib/VGA_image.c:233-305 | a pixel of a window is in the precomputed rectangle if and only if the other window contains it |
| Windows.ClearIsVisible | mp3_Final/student-distrib/VGA_image.c:484-520 | the rectangle tests call a pixel visible if and only if no window of a higher layer contains it |
| Windows.CornersExactly | mp3_Final/student-distrib/VGA_image.c:407-428 | the two corners of every cell decide whether the whole cell is uncovered if and only if the windows do not overlap or are ordered alike in x and y |
| Windows.CellTestIsVisible | mp3_Final/student-distrib/VGA_image.c:407-428 | for windows ordered alike the test that decides on drawing holds if and only if all 8 by 16 pixels of the cell are visible |
| Windows.OneVisible | mp3_Final/student-distrib/VGA_image.c:407-428 | no pixel is visible in two windows |
| Compositor.VisibleBefore | mp3_Final/student-distrib/terminal.c:193-213 | what is visible in another window after a window came to the top was visible before and is outside that window |
| Compositor.NotInCell | mp3_Final/student-distrib/VGA_font.c:594-616 | drawing a visible cell touches no pixel that shows in another window |
| Compositor.Desktop.PaintCell | mp3_Final/student-distrib/VGA_font.c:577-592 | each of the 8 by 16 pixels is FF FF FF where the font's bit is set and 0 0 0 where it is clear, and no other pixel changes |
| Compositor.Desktop.PutCell | mp3_Final/student-distrib/VGA_font.c:566-670 | the terminal's own copy is always drawn on, the screen only when told |
| DesktopRuns.RecentFirst | mp3_Final/student-distrib/terminal.c:165-217 | after any run of characters put, windows scrolled and terminals switched to, the windows lie in the order in which they were last switched to, the latest on top |
| DesktopRuns.TopIsSharp | mp3_Final/student-distrib/VGA_font.c:566-670 | after any run the top window is among those that show their copies, whatever was put in it |
| Compositor.Desktop.PutChar | mp3_Final/student-distrib/VGA_font.c:566-670 | the copy's cell, and the screen's if the cell is wholly visible, is FF FF FF where the font's bit is set and 0 0 0 elsewhere; after any run every window shows its copy in which, since it was last switched to or scrolled, only wholly visible cells were written; what other windows show stays; this window goes on showing its copy if and only if the cell is wholly visible or its visible pixels had the right color already |
| Compositor.Desktop.ScrollBuffer | mp3_Final/student-distrib/VGA_font.c:710-726 | in place, the window's text moves up by 16 rows and its last 16 rows are black, and nothing else changes |
| Compositor.Desktop.Scroll | mp3_Final/student-distrib/VGA_font.c:706-773 | in any run the copy's text moves up by 16 rows and its last 16 are black; the window afterwards shows its copy, whatever the screen held, and what the other windows show stays |
| Compositor.Desktop.CopyToScreen | mp3_Final/student-distrib/terminal.c:194-200 | exactly the window's pixels, or its uncovered ones, become those of its copy |
| Compositor.Desktop.WindowIn | mp3_Final/student-distrib/VGA_image.c:430-462 | the search by layer finds the one window of that layer |
| Compositor.Desktop.Boundary | mp3_Final/student-distrib/VGA_image.c:233-305 | the rectangle is where the window of the layer above covers this one |
| Compositor.Desktop.Arrange | mp3_Final/student-distrib/terminal.c:202-213 | layers and rectangles agree with the new order of the windows |
| Compositor.Desktop.SwitchTerminal | mp3_Final/student-distrib/terminal.c:165-217 | in any run the windows are in move-to-front order, the window viewed shows its copy, and every window that showed its copy still does |
| Compositor.Desktop.InitWindows | mp3_Final/student-distrib/VGA_image.c:204-230 | the three windows are in place, in layers 0, 1, 2 |
| Compositor.Desktop.DrawWindow | mp3_Final/student-distrib/VGA_image.c:307-326 | a title bar of FF FF FF, in it at (80, 2) the name in the font's pixels on 0 0 0, all below 0 0 0, and nothing else changes |
| Compositor.Desktop.GuiInit | mp3_Final/student-distrib/GUI.c:25-51 | afterwards windows 0 and 2 show their copies and window 1 does not, being painted over by the window below it |
| TextTerminal.ScreenShowsText | mp3_terminal/student-distrib/lib.c:217-352 | from a blank screen, after any bytes without backspace, row 0 shows the first line of the wrapped text and rows 1 to 24 the next ones or the last 24, with the cursor after the last character |
| TextTerminal.WrapLosesNothing | mp3_terminal/student-distrib/lib.c:274-314 | the wrapped lines put together are the characters written, in order; for bytes without 0, backspace, newline and return they are the bytes themselves |
| TextTerminal.PutChars | mp3_terminal/student-distrib/lib.c:299-317 | an ordinary byte stands where the cursor was, with attribute 7, a zero byte as a space; the cursor is one cell further and no other cell has changed, unless the last cell was written and the rows but the first go up |
| TextTerminal.PutNewLine | mp3_terminal/student-distrib/lib.c:274-278 | a newline or return goes to the start of the next row, from the last row with the rows but the first going up |
| TextTerminal.PutBackspace | mp3_terminal/student-distrib/lib.c:279-298 | a backspace blanks the cell before the cursor and goes there, and does nothing in the first cell |
| TextTerminal.PutKeeps | mp3_terminal/student-distrib/lib.c:274-317 | whatever byte is written, the cursor stays in columns 0 to 79 and rows 0 to 24 |
| TextTerminal.PutAll | mp3_terminal/student-distrib/lib.c:274-317 | after any bytes whatever, written on any screen, the cursor is in columns 0 to 79 and rows 0 to 24 |
| TextTerminal.PutIsExtend | mp3_terminal/student-distrib/lib.c:274-321 | writing a byte on the page of a text gives the page of the text with that byte more |
| TextTerminal.NewLineIsScroll | mp3_terminal/student-distrib/lib.c:316-352 | a new line is a step down, or from the last row a scroll that keeps row 0 |
| TextTerminal.BackspaceUndoes | mp3_terminal/student-distrib/lib.c:279-298 | a backspace takes back the character before it if and only if writing that did not scroll |
| TextTerminal.Screen.UpScrollForOneLine | mp3_terminal/student-distrib/lib.c:327-352 | in place, row 0 stays, every other row holds the one below and the last is blank |
| TextTerminal.Screen.NbPutc | mp3_terminal/student-distrib/lib.c:217-321 | video memory and cursor are those of one byte more, for every byte; the bytes at the cell written are the byte itself, or 32 for a zero byte and for backspace, and 7 |
| TextTerminal.Screen.TerminalWrite | mp3_terminal/student-distrib/terminal.c:134-149 | the screen is what it was with each byte of the buffer written on it in turn, and the count is returned, or -1 for none |
| Blink.BlinksExactly | mp3_Final/fish/blink.S:64-86 | an entry of lengths a and b is on after n ticks exactly when n mod (a + b) < a, if and only if both lengths are between 1 and 32768 |
| Blink.Cycle | mp3_Final/fish/blink.S:64-86 | status and countdown after n ticks in closed form |
| Blink.EntryOverRun | mp3_Final/fish/blink.S:49-223 | over any run that leaves its location alone, an entry is what its ticks alone make of it |
| Blink.NextKeeps | mp3_Final/fish/blink.S:49-223 | locations stay distinct and an entry is changed by ticks only |
| Blink.ScreenOverRun | mp3_Final/fish/blink.S:49-223 | over any run that adds only at locations not taken, the screen shows every entry's current character |
| Blink.NextShows | mp3_Final/fish/blink.S:49-223 | adding, removing and ticking each keep: locations are distinct and the screen shows every entry's current character |
| Blink.TickShows | mp3_Final/fish/blink.S:71-86 | when locations are distinct the screen shows each entry's current character after a tick |
| Blink.FullExactly | mp3_Final/fish/fish.c:160-170 | the pool is full if and only if no slot is free |
| Blink.ListIsAll | mp3_Final/fish/blink.S:159-162 | every slot with a location is on the list |
| Blink.Blinkers.Malloc | mp3_Final/fish/fish.c:160-170 | finds a free slot unless the list fills the pool |
| Blink.Blinkers.Add | mp3_Final/fish/blink.S:105-184 | fails, without effect, if and only if the location is past the screen or the pool is full; else the entry, on and with its full count, is first on the list and its character on the screen; the list stays acyclic and is exactly the slots with a location, unless the location added is 0 |
| Blink.AddAfterZeroNeverEnds | mp3_Final/fish/blink.S:105-184 | after an add at location 0 the next add takes the same slot and links it to itself, and a walk over the list never ends |
| Blink.Blinkers.FindHelper | mp3_Final/fish/blink.S:351-379 | finds the first entry at the location or none |
| Blink.Blinkers.Find | mp3_Final/fish/blink.S:302-349 | gives a copy of the first entry at the location, or fails if and only if there is none |
| Blink.Blinkers.FindPrev | mp3_Final/fish/blink.S:206-212 | the search for the predecessor ends, at the link that leads to the entry |
| Blink.RemoveTakesOne | mp3_Final/fish/blink.S:187-237 | exactly the first entry at the location goes; with distinct locations none is found there afterwards |
| Blink.Blinkers.Remove | mp3_Final/fish/blink.S:187-237 | the first entry at the location leaves the list, which is one shorter, and its slot is free; without one, failure and no change |
| Blink.Blinkers.Tick | mp3_Final/fish/blink.S:49-99 | every entry on the list is counted once and the pokes are those of the entries that flip, in list order |
| Keyboard.FoldMore | mp3_Final/student-distrib/keyboard.c:142-235 | a scan code edits the input of the terminal viewed and of no other |
| Keyboard.LinesAreLines | mp3_Final/student-distrib/keyboard.c:201-227 | no line has a newline within it |
| Keyboard.ReadsLine | mp3_Final/student-distrib/keyboard.c:264-281 | reading from a buffer that starts with a line and its newline gives just these, cut to the count |
| Keyboard.Driver.PutInBuffer | mp3_Final/student-distrib/keyboard.c:201-227 | a character is appended up to 127, Enter completes the line and lets the terminal's reader go on, and other terminals' buffers and flags stay |
| Keyboard.LineEdits | mp3_Final/student-distrib/keyboard.c:201-227 | typing appends a character below 127 and does nothing at 127, backspace takes the last one back, and Enter completes the line and begins another |
| Keyboard.KeyEdits | mp3_Final/student-distrib/keyboard.c:160-228 | backspace, Enter and the letter keys by their codes; Ctrl and L types nothing and lets Ctrl go; the codes that are no keys edit nothing |
| Keyboard.LetterKeys | mp3_Final/student-distrib/keyboard.c:173-187 | a letter key gives a capital if and only if exactly one of shift and caps lock is on; for other keys caps lock does not matter |
| Keyboard.ModeKeys | mp3_Final/student-distrib/keyboard.c:310-417 | each modifier's press sets its flag and its release clears it, caps lock turns over, and with Alt a function key views its terminal |
| Keyboard.Driver.RubOut | mp3_Final/student-distrib/keyboard.c:349-371 | the last character of the pending line goes and buf_pos is one less, if there is one |
| Keyboard.Driver.SwitchTerminal | mp3_Final/student-distrib/terminal.c:184-215 | no terminal's buffer or position changes |
| Keyboard.Driver.CheckSpecial | mp3_Final/student-distrib/keyboard.c:310-417 | recognizes exactly the special codes, and does what they mean to modifiers, line and view |
| Keyboard.Driver.TypeKey | mp3_Final/student-distrib/keyboard.c:160-228 | shift, caps lock and control decide the character or that there is none; Enter sets the viewed terminal's flag and nothing else changes one |
| Keyboard.ReadyExactly | mp3_Final/student-distrib/keyboard.c:201-227 | a terminal's reader may go on if and only if Enter came while the terminal was viewed, since its last read |
| Keyboard.OwnLineExactly | mp3_Final/student-distrib/keyboard.c:247-290 | after every run that ends with terminal v viewed, a line entered in both and the reader let go on, terminal t's reader gets its own line, if and only if t is v |
| Keyboard.Driver.Handle | mp3_Final/student-distrib/keyboard.c:142-235 | after any keys and reads each terminal's pending line is the fold of the edits made while it was viewed, and its flag is what ReadyExactly says; what backspace, Enter, the letters and Ctrl with L do to the line and buf_pos, by their codes |
| Keyboard.Driver.Read | mp3_Final/student-distrib/keyboard.c:247-290 | reads the viewed terminal's buffer; a line entered there and not typed over comes back with its newline, cut to the count; the reader's flag is cleared and the read is one more event of the run |
| Keyboard.LinesDiffer | mp3_Final/student-distrib/keyboard.c:260-272 | seven keys after which terminal t's reader may go on although terminal v is viewed, with another line |
| FileRead.ReadData | mp3_Final/student-distrib/fs.c:151-219 | -1 if and only if the inode is past 62 or an entry up to the one for the end is out of range, 0 at or past the end, otherwise the length and exactly that slice of the file, with the rest of the buffer unchanged |
| FileRead.EndExactly | mp3_Final/student-distrib/fs.c:182 | the end computed in 32 bits is the right one if and only if offset and length do not wrap around to short of the file's length; else it is before the start |
| FileRead.BlockSlice | mp3_Final/student-distrib/fs.c:198-210 | part of a block is the slice of the file at its place |
| FileRead.SliceMore | mp3_Final/student-distrib/fs.c:206-216 | adjoining slices join |
| FileRead.CopyBlocks | mp3_Final/student-distrib/fs.c:197-216 | part of the first block, whole blocks and part of the last are the slice |
| FileRead.OpenFile.constructor | mp3_Final/student-distrib/fs.c:227-239 | a file opened starts at its beginning, with nothing read |
| FileRead.OpenFile.Read | mp3_Final/student-distrib/fs.c:270-279 | all reads so far together are the file up to the position; each gives as much as is asked and left, and 0 if and only if the file has been read to the end |
| Icons.DrawIcon | mp3_Final/student-distrib/VGA_image.c:87-126 | for all four directions and any clipping, each position of the area holds the source pixel that belongs there and nothing else changes |
| Icons.DescriptorPlaces | mp3_Final/student-distrib/VGA_image.c:68-142 | the pixel of the file at index j times the width plus i is in the column that counts i from the left if and only if bit 4 is clear, and in the row that counts j from the top if and only if bit 5 is set, unless it is cut off |
| Icons.WalkIsPosition | mp3_Final/student-distrib/VGA_image.c:128-163 | start, step and row update of the running position give the position of the next source pixel |
| Icons.PositionIsInArea | mp3_Final/student-distrib/VGA_image.c:87-142 | each source pixel has one position, in the clipped area and in the frame buffer, and is found back from it |
| Icons.SourceIsInIcon | mp3_Final/student-distrib/VGA_image.c:87-142 | each position of the area is that of one source pixel |

## Left out

- PsvRuns.IsRun: with the shipped index bound a run has no write of a byte or more to a file of index above 32, nor, while a file of such an index exists, into a block of such an index; either would put bytes where a live inode lies in the shared sector. All other runs of creations, deletions, reads and writes are in.
- Psv.Psv.WriteContent: lengths from 0 to 64512 and a buffer of that length; for any other length the original prints an error and goes on.
- Psv.Psv.WriteContent: with the shipped index bound, only the writes that PsvRuns.IsRun has, as for Psv.Psv.FillBlocks.
- PsvDisk.Disk.WriteDb: what the bytes of a data block in the shared sector are as an inode is left open, but for zeros, and for PsvDisk.Disk.WriteInode the other way round.
- PsvContent.WriteFailed: says nothing of the bytes of the file whose write failed.
- Psv.Psv.ReadContent: offset plus length stays within 31 bits.
- Psv.Psv.CreateFileAt: the path has at least one part, as for Psv.Psv.InodeByPath; with none the original reads before its table of parts.
- FileRead.ReadData: no read where offset plus length wraps around to before the end of the file, or whose end needs a table entry past the 1023rd; there the original copies from outside the file.
- Keyboard.Driver.Read: begins when Enter has been pressed in the running terminal; the waiting loop is its precondition.
- Processes.Kernel.Halt: the program "shell" always loads, as for Processes.Kernel.Schedule.
- Processes.Kernel.Schedule: a run ends at a step that is stuck, where the original goes on with whatever lies above the last PCB.
- Blink.Blinkers.Add: 32-bit pointers are slot numbers, and the link field is an array beside the pool.
- Bitmaps are sequences of flags, not words of 32 bits.
- Names are strings without the padding of their 32-byte fields, and path parts fit such a field.
- The superblock's used counters are carried along, but nothing is proved about them; nothing in the original decreases them.
- PSV_setup's flushing of the disk, the folder_read, folder_write and file operation tables, and printing.
- Parsing of command lines, ELF checking and program loading: executing is told whether the program loads.
- vidmap and the pages mapped for user programs; read, write and getargs system calls.
- The reserved byte of a pixel, the mouse, the desktop image and the status bar.
- `clear`, which paints the screen without the window's copy, and the graphical cursor movement: a character cell lies inside its window.
- The echo of typed characters on the screen.
- mp1_ioctl_sync, whose display does not follow the status it copies.
- Hardware: ATA, PIC, PIT, RTC, IDT, GDT and TSS setup, interrupts and boot. Sectors are read and written whole, and each interrupt handler is one step.
