# A verified model of the copy-on-write file system CFS

CFS keeps a file system on a disk of equal blocks. A mirrored bitmap says which blocks are allocated and an attribute per
block says what each is and who refers to it. Files are three-level pointer trees behind an inode block, directories are
files with a compressed list of names, and every change copies the blocks it touches and then the path up to the root. A
snapshot freezes all blocks; the next changes take copies and count the old ones down.

The project models the block store, the allocator, the inode service, the directories with their path copying, snapshots,
and the supporting parts: disk layout, action journal, block lock, checksums. Each component that the source updates in
place is a class with arrays or fields; its methods are proved against a pure description of the same state, and the
properties are proved about that description.

| part | modules |
|---|---|
| numbers and bytes | `Arithmetic`, `Bytes`, `Wrappers` |
| the disk as a value; who may change what | `DiskState`, `Evolution`, `BlockSteps`, `Occupancy`, `TreeOwnership` |
| the disk in memory, allocator | `Bitmap`, `Volume`, `Allocation` |
| one file | `FileTree`, `FileContent`, `ParentLinks`, `Overwrite`, `FileCommit`, `Budget`, `InodeService`, `Modes` |
| many files and runs | `FileSystem`, `Snapshot`, `Accounting`, `Operations`, `History` |
| directories | `DentryCodec`, `PathBudget`, `DirectoryFile`, `DirectoryTree`, `PathCopy`, `DirectoryView`, `DirectoryScene`, `Directory`, `Formatting` |
| support | `Layout`, `Journal`, `BlockLock`, `Crc` |
| concrete cases | `Examples` |

## How the pieces fit

`Evolution.Evolves(d, K, d', K', ino, cow)` is the contract of everything that changes the disk: from disk `d`, where the
operation owns the blocks `K`, to `d'`, where it owns `K'`. A block in use that it does not own is untouched; a block it
shares with a snapshot stays allocated with its bytes and loses at most one reference; what it owns afterwards was owned or
is fresh; what it gives up is free for reuse; nothing leaks; what was allocated keeps its bytes until something is
reclaimed; the header counter moves with the number of used blocks. Such changes compose and can be framed, so a whole
write, resize or path copy is again one such change.

`FileSystem.State` adds which inodes are live and which are loose (between copying an inode and entering the copy).
`FileSystem.Event` lists the atomic changes, and a run is any sequence of them in any order. `Directory.Inode` holds the
handles that an open path keeps in memory. Its methods carry the ghost state `s` before and `s'` after, and `d0`, a frozen
disk that must survive.

`Budget.Within(d, d', cost, fits, ok)` says when an operation succeeds: it took at most `cost` blocks, and it was sure to
succeed if what it stores fits and so many blocks were to spare. Such statements compose too, so they reach from a single
allocation to sequences of operations on open paths, where `Budget.WriteCost`, `PathBudget.PathCost` and
`Modes.OpsCost` compute the cost before the call.

## Results on the code that may surprise

- A read that starts exactly at the end of a file which fills its last block looks up a block that does not exist, and so
  does a read whose end wraps around to a position within the file; there is no other such input
  (`InodeService.InodeService.Read`).
- An empty write looks up a missing block if and only if it is at a block boundary at or beyond the end of the file
  (`FileContent.HasFirstBlock`, `InodeService.InodeService.WriteUnblocked`). By then the file has grown.
- A resize within the capacity fails if and only if the blocks not in use, with those it frees, do not cover the missing
  pointers, or with copy-on-write leave no room for moving the parents (`InodeService.InodeService.Resize`,
  `FileCommit.HasRoom`). In the first case all blocks of the file are given back, also those it had before, while the inode
  still points at them (`InodeService.InodeService.ReallocateByDescriptor`): the file is lost (`FileCommit.LostFile`, and
  `Examples.LoseFile` for a disk of five blocks). No other file is affected.
- Creating an inode bypasses the counter of used blocks, so every creation leaves it one short (`Accounting.RunAccounted`,
  with a concrete case in `Accounting.CreationUncounted`). It stays exact if and only if nothing is created.
- Reclaiming a block of a real type whose last reference is gone bypasses that counter too
  (`Accounting.AllocationAccounted`, with a concrete case in `Examples.MiscountedReclamation`).
- A resize never gives block 0 back: dropped from a file, it stays in use (`FileCommit.ShrinkGivesUp`).
- The layout solver never lowers the upper end of its interval, so it may miss the best layout (`Examples.SearchMisses`: 26
  data blocks where 27 fit); it wastes at most twice as many blocks as the best one (`Layout.Solve`).
- A device of fewer than two blocks makes an unsigned subtraction wrap around. It is not refused for lack of space,
  although its regions cannot tile it (`Layout.MakeHead`).
- Growing a file does not clear the bytes it exposes. Only a write beyond the end clears the gap.

## Model

| member | source | states |
|---|---|---|
| Arithmetic.CeilDivFits | src/misc/utils.cpp:367-384 | counting cells by ceiling division is adjoint to multiplication: m cells suffice exactly when the particles fit into m cells |
| Bytes.LittleEndian | src/cfs/inode.cpp:15-25 | words are stored with the least significant byte first |
| Bitmap.MaskShifts | src/cfs/smart_block_t.cpp:18-58 | bit r of a packed byte is the one with value 2^r |
| Bitmap.MirroredBitmap.SetBit | src/cfs/cfsBasicComponents.cpp:152-168 | exactly one bit of the abstract bitmap changes in both packed mirrors, which still agree; if they disagreed on it, nothing changes |
| Bitmap.MirroredBitmap.GetBit | src/cfs/cfsBasicComponents.cpp:126-150 | reports exactly a disagreement of the mirrors on this bit; otherwise the packed byte yields the abstract bit |
| Allocation.AllocateFailsExactlyWhenFull | src/cfs/cfsBasicComponents.cpp:318-370 | allocation fails if and only if every block is allocated, not redundancy and referenced |
| Occupancy.AllocateRoom | src/cfs/cfsBasicComponents.cpp:278-385 | the same counted: there is a block to give if and only if fewer blocks are in use than there are, in use meaning allocated, not redundancy and referenced |
| Allocation.AllocateChoosesFree | src/cfs/cfsBasicComponents.cpp:298-316 | with a free block it is next fit: the first free block after the last allocation, else the first free one |
| Allocation.AllocateReclaims | src/cfs/cfsBasicComponents.cpp:323-364 | with no free block the chosen one was redundancy or unreferenced, at least as old, after this search, as half of every such block, and is the first of these |
| Allocation.AllocateKeepsOthers | src/cfs/cfsBasicComponents.cpp:278-385 | a block not chosen is left alone unless all blocks were taken; then only its age grows, saturating at 15, and its bit is cleared if and only if it is redundancy or unreferenced and at least half as old as the oldest such block |
| Allocation.AllocateMarks | src/cfs/cfsBasicComponents.cpp:278-316 | the chosen block comes back marked, modifiable, of age 0 with one reference and no type, and is remembered as the last one |
| Examples.MiscountedReclamation | src/cfs/cfsBasicComponents.cpp:323-364 | a full disk of two blocks whose exact counter is one too high after an allocation |
| Volume.Volume.Allocate | src/cfs/cfsBasicComponents.cpp:278-385 | the scanning loops over bitmap and attributes compute the allocation that the lemmas of `Allocation` are about, on the whole state |
| Volume.Volume.Deallocate | src/cfs/cfsBasicComponents.cpp:387-401 | a private block becomes redundancy and remembers its type, any other loses one reference |
| BlockSteps.GivenUp | src/cfs/cfsBasicComponents.cpp:387-401 | what becomes of the attribute of a block that is given back, or that a copy has replaced: a private one turns into redundancy that remembers its type, any other loses one reference, and nothing else changes |
| Volume.Volume.SetType | src/include/cfsBasicComponents.h:327-335 | the header counter moves exactly when a block enters or leaves the redundancy type, with a saturating decrement |
| Volume.Volume.Sweep | src/cfs/inode.cpp:517-524 | the loop over all blocks computes a whole sweep: the first one, and with `share` the second one |
| Snapshot.SweptUse | src/cfs/inode.cpp:631-645 | what a sweep means: every allocated block that may be modified becomes a regular frozen one, any other status stays, and in the second sweep exactly the allocated blocks other than redundancy get two references; nothing else changes |
| Snapshot.SweptKeeps | src/cfs/inode.cpp:517-524 | a sweep keeps every file, its blocks and its bytes |
| Snapshot.FirstSweepProtects | src/cfs/inode.cpp:517-524 | the first sweep leaves earlier snapshots protected |
| FileTree.FitsExactly | src/cfs/cfsBasicComponents.cpp:489-512 | three nested ceilings collapse: a size needs no more level-1 slots than there are if and only if it is at most N * (B/8)^2 * B |
| FileTree.BytePlace | src/cfs/cfsBasicComponents.cpp:706-748 | byte q * B + r of a file is byte r of the block that its level-3 pointer q names |
| FileTree.PointerPlace | src/cfs/cfsBasicComponents.cpp:450-487 | level-1 pointers are the words behind the stat record, and B/8 pointers of each lower level are the words of one block of the level above |
| InodeService.InodeService.LinearizeAllBlocks | src/cfs/cfsBasicComponents.cpp:450-487 | reading the pointer blocks level by level yields exactly the tree of the file |
| InodeService.InodeService.SizeToDescriptor | src/cfs/cfsBasicComponents.cpp:489-512 | refuses exactly the sizes that do not fit |
| InodeService.InodeService.ReallocateByDescriptor | src/cfs/cfsBasicComponents.cpp:514-592 | succeeds if and only if the blocks not in use, with those the dropped suffixes free, cover the missing pointers; each level then keeps its prefix, drops its suffix and is extended by fresh typed blocks, flagged as new; otherwise every block of the file is given back, though never block 0 |
| InodeService.InodeService.AllocateMany | src/cfs/cfsBasicComponents.cpp:514-592 | allocating n blocks of a type succeeds if and only if so many are not in use, and takes exactly the blocks it reports |
| InodeService.InodeService.CommitFromLinearizedBlock | src/cfs/cfsBasicComponents.cpp:594-661 | the inode afterwards links the committed level-3 list with its bytes under a distinct tree; a parent moves if and only if copy-on-write is on and one of its children is new or moved; the commit fails if and only if one that has to move finds no room |
| ParentLinks.GroupUnchanged | src/cfs/cfsBasicComponents.cpp:608-641 | a parent without flagged children needs no rewrite: its stored pointers already are the children |
| FileCommit.ReallocatedIsCommittable | src/cfs/cfsBasicComponents.cpp:663-666 | after any grow or shrink, exactly the flagged pointers are missing from their parents |
| InodeService.InodeService.Resize | src/cfs/cfsBasicComponents.cpp:668-674 | succeeds if and only if the size is within the capacity and there is room, as it always is for a shrink; refused without change beyond the capacity; on success the size is new, the common prefix of the bytes is kept, kept level-3 pointers stay, and a shrink moves no parent; without blocks to cover the new pointers the whole file is given back |
| FileCommit.ShrinkGivesUp | src/include/cfsBasicComponents.h:655-657 | what becomes of every dropped block when a tree is cut down to a prefix: block 0 and blocks with several references stay in use, the latter with one reference less, and any other is free for reuse |
| FileCommit.LostFile | src/cfs/cfsBasicComponents.cpp:514-592 | a file whose blocks have been given back is no longer well-formed as soon as one of them, other than block 0, had a single reference |
| Examples.LoseFile | src/cfs/cfsBasicComponents.cpp:514-592 | on a formatted disk of five blocks a file of one byte is lost by growing it to three blocks |
| FileContent.HasBlockAt | src/cfs/cfsBasicComponents.cpp:718-732 | the first block of a read exists if and only if the offset is not the end of a file that fills its last block |
| FileContent.HasFirstBlock | src/cfs/cfsBasicComponents.cpp:758-784 | the first block of a write exists in the file as grown if and only if the write is not empty at a block boundary at or beyond the end of the file |
| InodeService.InodeService.Read | src/cfs/cfsBasicComponents.cpp:706-748 | byte by byte: with the offset within the file, the bytes of the file from there, as many as asked for or as there are; beyond the end, none; for all 64-bit offsets and sizes; no result exactly at the end of a file that fills its last block, and when the end of the read wraps around to a position within the file |
| InodeService.InodeService.CowWrite | src/cfs/cfsBasicComponents.cpp:786-805 | one block of a write: the original keeps its bytes under copy-on-write, the copy gets the patch, and only the accounts of these two blocks change |
| Overwrite.OverwriteStep | src/cfs/cfsBasicComponents.cpp:786-836 | the loop step: although the allocator may hand out a block this very write has retired, all replaced blocks stay distinct, hold their new bytes, and every original pointer maps to its own replacement |
| InodeService.InodeService.RelinkAll | src/cfs/cfsBasicComponents.cpp:842-849 | one pass over the level-3 list maps each original pointer once, never following a chain |
| Overwrite.OverwrittenFile | src/cfs/cfsBasicComponents.cpp:820-836 | first block, whole blocks and rest together are one overlay of the file's bytes |
| FileContent.WrittenBytes | src/cfs/cfsBasicComponents.cpp:750-857 | the update byte by byte: the data in its range, zeros in a gap before it, everywhere else what was there |
| InodeService.InodeService.WriteUnblocked | src/cfs/cfsBasicComponents.cpp:750-857 | a write, in either mode, refines the byte-array update: old contents, zeros up to the offset, then the data; all other changes are within the blocks of this file; it finds no first block if and only if it is empty at a block boundary at or beyond the end; within the file it runs out of space if and only if copy-on-write finds no room for the blocks touched and their parents; when it grows the file, it runs out of space in place if and only if the end is beyond the capacity or the missing blocks are not there, and with copy-on-write it succeeds whenever the end is within the capacity and there are blocks to spare for the missing ones and for one copy of each block touched, by the gap or by the data, and of the parents each time |
| InodeService.InodeService.Write | src/cfs/cfsBasicComponents.cpp:750-857 | the same, with the same conditions of success, as one step of a file: its tree stays well-formed and disjoint from all other files |
| Budget.TransferTakes | src/cfs/cfsBasicComponents.cpp:489-857 | any operation takes at most as many blocks as it owns afterwards and did not own before |
| Budget.SpareForRange | src/cfs/cfsBasicComponents.cpp:786-857 | blocks to spare for each block that a range touches and for each parent are enough for overwriting it |
| FileSystem.StepConsistent | src/cfs/cfsBasicComponents.cpp:489-857 | every event keeps all live files well-formed (pointers of all levels distinct, in use, of the right type, lengths as `st_size` demands) and disjoint |
| FileSystem.RunConsistent | src/cfs/cfsBasicComponents.cpp:489-857 | the same in every state of every run, including failed writes and resizes |
| FileSystem.RunKeepsOthers | src/cfs/cfsBasicComponents.cpp:750-857 | over a run, a file that is no event's subject stays live and keeps its contents |
| Operations.WriteFile | src/cfs/cfsBasicComponents.cpp:750-857 | the write method performs one event of a run, or its failure, on the state that the volume holds; in place it succeeds if and only if the file can grow and the first block exists, and with copy-on-write whenever its cost is to spare |
| Operations.ResizeFile | src/cfs/cfsBasicComponents.cpp:668-674 | the same for resize, which succeeds if and only if there is room, and whenever its cost is to spare |
| Modes.PerformAll | src/cfs/cfsBasicComponents.cpp:430-448 | any successful operations, in whichever mode the volume is mounted, leave the size and every determined byte as the operations say, and they all succeed if each fits and their costs together are to spare |
| Modes.PerformBoth | src/cfs/cfsBasicComponents.cpp:430-448 | the same operations in place and with copy-on-write: the same size and the same byte at every determined position, and they succeed if both volumes have that room |
| Modes.DeterminedExactly | src/cfs/cfsBasicComponents.cpp:750-857 | a byte is determined if and only if it was known at first or a write has set it, with data or with the zeros of a hole, and the file has not shrunk below it since |
| Accounting.StepAccounted | src/include/cfsBasicComponents.h:327-335 | from an exact count one event keeps the count exact if and only if it does not create an inode |
| Accounting.StepTally | src/include/cfsBasicComponents.h:327-335 | one event leaves the counter as short as it was, or one more for a creation, provided no unreferenced block of a real type is reclaimed |
| Accounting.RunAccounted | src/include/smart_block_t.h:387-399 | over every run from a counter that is c short, the counter plus c plus the number of creations equals the number of allocated blocks other than redundancy, so the decrement never saturates; the counter is exact if and only if c and the creations are none; runs may start from formatting or from any second sweep |
| Accounting.RunTallied | src/include/smart_block_t.h:387-399 | without regard to references, as between the two sweeps, the same sum holds in every state of a run up to the first reclamation |
| Accounting.CreationUncounted | src/include/inode.h:231-243 | a concrete creation on a two-block disk after which two blocks are used and the counter says one |
| Accounting.AllocationAccounted | src/cfs/cfsBasicComponents.cpp:285-355 | an exact count stays exact over an allocation if and only if some block is free or no unreferenced block of a real type is old enough to be reclaimed |
| Accounting.SweptAccounted | src/cfs/inode.cpp:631-645 | either sweep keeps the account, however short the counter is; the second one also gives every block of a live file a reference to spare, which is what a run afterwards starts from |
| Accounting.SnapshotAccounted | src/cfs/inode.cpp:490-645 | the account across a whole snapshot: first sweep, any events without reclamation, second sweep, any events |
| Snapshot.SweptProtects | src/cfs/inode.cpp:631-645 | after the sweeps every block of every live file is protected |
| Snapshot.StepProtects | src/cfs/cfsBasicComponents.cpp:278-401 | no event writes a protected block or clears its bit; its references never grow, and drop only from two to one, when the live tree lets go of it |
| Snapshot.SnapshotIsolation | src/cfs/inode.cpp:517-645 | first sweep, any events, second sweep, then any events that write no frozen inode in place: in every later state every file reads byte for byte as at the second sweep, from blocks that are allocated and frozen |
| Directory.OperationsIsolated | src/cfs/inode.cpp:311-329 | isolation without that assumption: whatever the directory operations did after the second sweep, every file of the snapshot reads as it was taken, its blocks allocated and frozen with at least one reference |
| Directory.Inode.PerformAround | src/cfs/inode.cpp:311-645 | first sweep, operations on an open file, second sweep, more operations: whether or not these succeed, every file reads as it did at the second sweep, and this one then had the bytes that the first operations gave it; with the costs to spare, both sequences succeed |
| Directory.Inode.Sweep | src/cfs/inode.cpp:517-645 | either sweep leaves the name space and the open path as they are; the first one keeps earlier snapshots protected, the second one makes the present disk the one that survives; an inode is an entry point of a snapshot afterwards if and only if it was one before, and the path can be copied at the same cost |
| DentryCodec.ParseSerialize | src/cfs/inode.cpp:15-107 | parsing the serialised entries gives back the map in which the first entry of each name counts, for every list of NUL-free names with 64-bit numbers, zero bytes in pointers and the empty list included |
| DentryCodec.SavedDirReads | src/cfs/inode.cpp:27-72 | a file with the start word, the signature at the start and the packed entries behind reads as that map |
| DentryCodec.UnsavedReadsEmpty | src/cfs/inode.cpp:43-80 | a file that is too short, starts its entries beyond its end or lacks the signature reads as an empty directory |
| DirectoryFile.SaveDentries | src/cfs/inode.cpp:4-41 | saving any encodable map, in a fresh file or behind a reserved prefix, leaves a file that reads as that map and starts where the handle says; only this file changes, and what precedes the entries stays as it is; it succeeds if the directory fits into its inode and four passes over its file are to spare |
| DirectoryFile.ReadDentries | src/cfs/inode.cpp:43-108 | the reader, with its parser loop, computes `ReadDir` of the file's bytes, also for short files, missing signatures and starts beyond the end |
| Directory.Inode.Open | src/cfs/inode.cpp:392-417 | opening an entry reads what is remembered of it; every operation can then be used on the result; a name that is not there opens nothing |
| PathCopy.PathMovedLocates | src/cfs/inode.cpp:118-159 | after a copied path every path from the new root leads to the moved place of what it led to before and shows the same view |
| DirectoryTree.MovesLocate | src/cfs/inode.cpp:251-288 | renaming inodes injectively in a tree of directories commutes with looking up every path |
| PathCopy.ChildPathMoved | src/cfs/inode.cpp:118-288 | one level of the recursion: a path copied above, the child's copy entered and the child moved make a path copied one level deeper |
| Directory.Inode.RootCow | src/cfs/inode.cpp:161-249 | copying the root publishes a new root with the same entries behind its metadata; no other inode changes; in front of the entries lies the packed bitmap, with every block marked that was in use, and the old root's inode block; the new block records its own number; it succeeds if the root fits and the new block and seven passes are to spare |
| Directory.Inode.CopyOnWriteInvokedFromChild | src/cfs/inode.cpp:251-288 | the directory's own path is copied, then its entry for the child leads to a copy of the child's block; it succeeds if no inode on the path is an entry point of a snapshot, the directories fit and the cost of the path is to spare |
| Directory.Inode.CopyOnWrite | src/cfs/inode.cpp:118-159 | at every depth: ends at the root and publishes a new root from which the same names lead to the same files and directories; only inode numbers on the path change, the handles in memory follow, and the old blocks keep their bytes until something is reclaimed; a path with the entry point of a snapshot on it is refused, and any other path is copied if its directories fit into their inodes and its cost, which depends on the names, the block size and the depth, is to spare; in place it does nothing |
| History.OldTreeReads | src/cfs/inode.cpp:118-159 | until something is reclaimed the old blocks still decode to the old tree: the same path from the old root finds the same contents |
| History.RunOld | src/cfs/cfsBasicComponents.cpp:332-364 | over a run with copy-on-write, an allocated block that is never written in place keeps its bit and bytes as long as nothing is reclaimed |
| Directory.Inode.Write | src/cfs/inode.cpp:324-329 | in either mode, writing an open file copies its path if need be and then changes only its bytes, as a byte-array update; the path stays open and the protected disk survives, with its bytes under copy-on-write; it succeeds if the path can be copied and both costs are to spare |
| Directory.Inode.Resize | src/cfs/inode.cpp:311-316 | the same for resizing |
| Directory.Inode.PerformAll | src/cfs/inode.cpp:311-329 | any sequence of writes and resizes of an open file, in either mode, against the byte-array semantics, with the protected disk surviving; all succeed if the path can be copied and the costs, with a copy of the path for each operation, are to spare |
| Directory.Inode.MakeInode | src/include/inode.h:227-309 | a taken name is refused; otherwise, in either mode, the path is copied if need be and the name space gains exactly one empty file or directory under that name, which is open afterwards; the new inode has the given stat record with its own number in it; it succeeds if the name is free, the path can be copied, the directory fits with the new name, and the costs are to spare |
| Operations.CreateInode | src/include/inode.h:233-299 | allocating, clearing and stamping a block is the creation event, without touching the counter; it succeeds if and only if some block is not in use |
| Operations.NewInodeStat | src/include/inode.h:246-300 | the new block is the stat record with the inode's own number in it, and zeros |
| Formatting.FormattedConsistent | src/cfs/smart_block_t.cpp:253-286 | a formatted disk is a consistent file system with an empty root directory at block 0 and an exact count; only block 0 is allocated, all other bytes are as they were |
| Formatting.MakeFileSystem | src/cfs/smart_block_t.cpp:223-289 | formatting a volume yields a root that is ready for every operation of `Directory` |
| Formatting.MakeFirstInode | src/include/inode.h:227-309 | on a freshly formatted volume with enough blocks, in a number computed from the block size, the name and the bound of the compression, creating an inode in the root succeeds |
| Layout.Solve | src/cfs/smart_block_t.cpp:69-98 | ends; the result fits, is at most the best number of data blocks and leaves at most twice as many blocks without data; fails only if the bits of a block overflow to zero |
| Examples.SearchMisses | src/cfs/smart_block_t.cpp:69-98 | for 30 blocks of 16 KiB the search ends at 26 data blocks while 27 fit |
| Layout.BestExists | src/cfs/smart_block_t.cpp:76-81 | there is a best number of data blocks, so the bound is about something |
| Layout.AllBlocksFewest | src/cfs/smart_block_t.cpp:76-81 | the solver's formula counts the fewest blocks that hold one bit twice and four bytes for each data block, and the data blocks |
| Layout.IsPowerOfTwo | src/cfs/smart_block_t.cpp:102-116 | the bit loop accepts exactly the powers of two |
| Layout.AlignedExactly | src/cfs/smart_block_t.cpp:155-166 | a block size is accepted exactly if it is 512 times a power of two |
| Layout.MakeHead | src/cfs/smart_block_t.cpp:155-219 | each refusal happens under exactly its condition; an accepted device is tiled by its seven regions if and only if it has two or more blocks; bitmap, backup and attribute table are the fewest blocks that hold a bit and four bytes for each data block; the journal gets at least max(body/100, 32) blocks and follows the data; at most twice as many blocks are left without data as by any other division |
| Layout.TilesExactlyOnce | src/cfs/smart_block_t.cpp:183-206 | tiling means that every block of the device is in exactly one region |
| Journal.Ring.PutChar | src/cfs/cfsBasicComponents.cpp:3-13 | one byte is appended; when the ring is full the oldest goes |
| Journal.Ring.PushAction | src/cfs/cfsBasicComponents.cpp:72-96 | the ring holds the last whole records of everything pushed, and the header copy is the header before |
| Journal.Ring.DumpActions | src/cfs/cfsBasicComponents.cpp:52-70 | however often the ring has wrapped, searching the dump finds exactly the last capacity/64 actions, in order, each with the magic number, its parameters and their checksum |
| Journal.PushAll | src/cfs/cfsBasicComponents.cpp:26-96 | from an empty journal in any region of whole sectors: after n pushes the dump is the last min(n, capacity/64) actions |
| Journal.ScanRecords | src/cfs/cfsBasicComponents.cpp:57-69 | a sequence of whole records is found again whatever lies behind it in memory |
| Journal.RecordFormat | src/cfs/cfsBasicComponents.cpp:72-96 | a record is the magic number, the checksum of the parameters and the six parameters, as words |
| BlockLock.StartSafe | src/cfs/smart_block_t.cpp:341-375 | in every interleaving, with spurious wake-ups: a bit is set exactly while one thread holds the block, and whoever sleeps on a clear bit has a notification coming |
| BlockLock.SleeperCanProceed | src/cfs/smart_block_t.cpp:355-359 | from every such state a thread asleep on a free block can get it, without a spurious wake-up |
| BlockLock.CallReturns | src/cfs/smart_block_t.cpp:341-360 | over every run, a call for a block returns only with the block: when the thread waits no more for the first time, it holds it |
| BlockLock.StartAnswered | src/cfs/smart_block_t.cpp:341-375 | in every interleaving each call is answered by the block it asked for, or by a refusal if there is no such block, and until then the thread waits and does nothing else |
| BlockLock.AttemptsSucceed | src/cfs/smart_block_t.cpp:343-359 | an attempt gets the block exactly if nobody holds it, and a waiting thread goes to sleep exactly if somebody does |
| BlockLock.UnlockReleases | src/cfs/smart_block_t.cpp:362-375 | giving a block back frees it and no other, wakes everybody who sleeps, and returns |
| BlockLock.RunInTurns | src/cfs/smart_block_t.cpp:341-375 | what callers observe is a behaviour of the sequential lock: owners take turns and only the owner gives back |
| Crc.CalculateCrc | src/include/cppcrc.h:79-88 | the table-driven loop computes the bit-by-bit division of the message, for every register width from 8 bits and every polynomial |
| Crc.MakeTable | src/include/cppcrc.h:39-66 | each table entry is its index after a whole turn of the register |
| Crc.MessageByte | src/include/cppcrc.h:79-88 | the message is its bytes in order, each with its most significant bit first (`Crc.ByteBits`) |
| Crc.RegisterIsRemainder | src/include/cppcrc.h:79-88 | the register ends with the remainder of long division of the message followed by zeros, for every initial value |
| Crc.LongDivisionLaw | src/include/cppcrc.h:39-53 | that long division is division: quotient times divisor plus remainder is the dividend |
| Crc.Chaining | src/include/cppcrc.h:100-106 | continuing from a prior value equals one pass over the concatenation |
| Crc.Hash64IsRemainder | src/misc/utils.cpp:386-389 | the 64-bit hash is that remainder for the ECMA-182 polynomial |
| Crc.ComputeHash5 | src/misc/utils.cpp:391-400 | the 5-bit hash is bits 7, 5, 3, 1 and 0 of that remainder for CRC-8/CDMA2000 with its initial value |

## Left out

- InodeService.InodeService.Write: takes `|data| + offset` below 2^64; the overflow of `size + offset` is not modelled. With
  copy-on-write, a write that grows the file is given a sufficient number of blocks, which counts every copy as one more
  block; when it succeeds with fewer is stated for its parts, `Resize` and `WriteRange`, and not in one formula.
- Directory.Inode.CopyOnWrite: the number of blocks to spare is sufficient, not necessary: what the compression makes of
  the entries is only known to be bounded, and every pass over a directory is counted as copying all of it.
- FileSystem.RunConsistent: a write or resize that runs out of space takes its file out of the live files, although the code
  keeps the inode; operations on an inode that still points at released blocks are not modelled.
- Directory.Inode.Open: the target of the entry must be a live inode, and a directory's start word 0 or behind the word
  itself; entries of a snapshot that lead outside the live files are not opened.
- Accounting.RunTallied: between the sweeps a replaced block can lose its last reference, and its reclamation is not counted.
- Directory.Inode.PerformAll: histories of one open path; several open paths at once would hold stale indices, which the code does not handle either.
- DirectoryFile.ReadDentries: a start word that leaves fewer than eight bytes behind it reads as a missing signature, whereas the code compares beyond its buffer.
- DentryCodec.ParseSerialize: compression is an abstract pair of inverse functions with a bound on the size of the result; LZ4 is not part of this model.
- Directory.Inode.RootCow: the region between the packed metadata and the entries is a placeholder of any length, whose bytes are not determined.
- Directory.Inode.Sweep: the snapshot's own directory entry, the cleaning of its copy of the root and the mark on its entry point are not modelled; any operations may come between the sweeps.
- Snapshot deletion, revert and generation numbers: they read an attribute dump that is always zero.
- The in-place replacement of bitmap and attribute dumps inside a snapshot.
- Unlinking and erasing entries: only additions, moves and rewrites of entries are modelled.
- Time stamps, modes, owners, device numbers and checksums in attributes: plain field updates; the stat record apart from the size, the type and the inode number is carried as bytes.
- Journal entries that the operations write, and block locks that they take: journal and lock are verified on their own.
- Locking inside the journal, the attribute table and the bitmap: each call is one step.
- A disagreement of the two bitmap mirrors: the code throws; the model has it as an invariant that they agree.
- Voting between the copies of the header, label and time stamps in the header.
- Layout.MakeHead: the minimum device size that the caller checks beforehand is not modelled.
- BlockLock.StartSafe: threads unlock only what they hold, and each section under the mutex is one atomic step; fairness is not modelled.
- Crc.CalculateCrc: reflected variants, which the file system does not use.
- The field `sweeps` of the disk is not on disk: it counts how often the allocator has reclaimed blocks, so that statements can say "until something is reclaimed".
- Mounting, FUSE, memory mapping, the command shell and argument parsing.
