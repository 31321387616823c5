# mini_fs: a verified model

mini_fs keeps a single-directory file system in one disk file: a superblock, a free-block bitmap, a table of
144-byte inodes packed several to a block, and data blocks reached by 16 direct pointers per file. This project
models its storage engine down to the bytes of the blocks and proves that, for a user, it is a map from names to
contents and mode. The logger queue, the performance window and the web simulator's accounting are modelled beside it.
Nothing was executed.

## How the model is layered

- `Types`, `Arith`, `Codec`, `Bits`, `FreeList`: the records of `include/common.h` with their 32- and 64-bit ranges,
  exact multiplication and division, byte images and their decoding, bits of a byte array, and the allocator's view of
  the bitmap as the ascending list of clear bits.
- `Geometry`: the layout `fs_format` computes, with every 32-bit wrap written out.
- `Volume`: the mounted state with its bytes decoded, the invariant `Inv`, and each operation as a function with the
  source's branches. `Inv` ties bitmap bits, pointers, sizes, names, both counters and the superblock copy in block 0.
- `Ownership`, `Steps`: every operation is a step that replaces one inode slot, and such steps keep the invariant.
- `UserView`, `Refinement`, `Commands`, `FsckProof`, `Runs`: the user's map machine, the abstraction function, the proof
  that each command and then each run does what the machine does, and the start state after format and mount.
- `Image`, `Loops`, `Store`: the class `MiniFs` with the disk as an array of blocks, the superblock and the bitmap
  buffer, updated in place by loops that follow `src/disk.c`, `src/bitmap.c`, `src/inode.c` and `src/fs.c`. Its
  predicate `Valid` says which decoded state the bytes represent; every method states the whole new decoded state.
- `Partition`, `Laws`, `Ledgers`, `Limits`: what a user may rely on, what times and statistics record, and exactly where
  the code stops keeping the map machine's promise.
- `Logger`, `Perf`: `src/logger.c` as a protocol of threads and a ring, and `src/perf.c`.
- `UiSim`, `UiUser`, `UiFsck`, `Tokenizer`: `ui/app.js`: its accounting and class, the user's map machine it refines, what
  its fsck counts, and its command-line splitter.

A run from an accepted format is `Boot` followed by `Session`: at its end the disk's bytes represent what `ModelRun`
computes from the empty directory. `UserView.Allowed` says which calls the code gets right, by guards a caller can check:
lengths that pass the code's 32-bit checks must not wrap them, and the first 31 bytes of a copy's name must be free when
the copy is made. `Runs.StepRefines` and `Runs.RunExact` prove this condition exact.

## What the code does that its description does not say

- An empty write takes one block that no other function counts as owned (`src/fs.c:269-270` against `247-248`): each
  accepted one strands a block for good (`Limits.EmptyWriteReported`). `Limits.FsckOverRuns` says that, for blocks
  under 2^28 bytes, this is the only thing `fs_fsck` ever reports.
- `fs_copy` does not check the length of the new name. `Limits.CopyKeepsInvariant` gives the exact condition under which
  names stay unique, `Limits.CopyBearsName` the one under which the copy can be found.
- A content of nearly 4 GiB wraps the block count and breaks the invariant (`Limits.HugeWriteAccepted`); one of 2^32 bytes
  and more is cut to the length modulo 2^32 without an error (`Limits.LongWriteCut`). `Limits.WriteKeepsInvariant` and
  `Limits.AppendKeepsInvariant` give the exact bounds for the invariant and for the contents.
- The size test of `fs_fsck` wraps for blocks of 2^28 bytes and more (`FsckProof.FsckRefines`, `Limits.FsckLargeBlocks`,
  with an input in `Limits.LargeBlocksReported`).
- `fs_format` empties the disk file before it refuses a disk as too small, and leaves an in-memory free counter that only
  a mount corrects (`Store.MiniFs.Format`, `Runs.FormattedThenMounted`). Before a failed copy is reported, a free slot may
  have been blanked (`Laws.CopyFailureRestores`).
- A write needs its blocks free beside the file's own, which are given back first (`Laws.DoWriteAllOrNothing`).
- The web simulator's header (`ui/app.js:5`) says that it has the logic of the C code. Its format has
  (`UiSim.FormatAgrees`); its allocator has not: it hands the same block to two files (`UiSim.RewriteSharesBlock`).

## Model

| member | source | states |
|---|---|---|
| `Runs.RunRefines` | src/fs.c:182-638 | For every state of the invariant and every allowed sequence of calls (create, delete, write, append, read, rename, copy, truncate, chmod, fsck, remount), the state reached represents the state the user-level map machine reaches, every reply (success flag and bytes read) is the machine's, and the invariant still holds; by induction over the run |
| `Runs.RunExact` | src/fs.c:182-638 | The allowed runs are exactly those the code gets right: every call defined, the invariant kept and the reply and state the machine's, call by call |
| `Runs.StepRefines` | src/fs.c:182-638 | For every call with a defined result: it keeps the invariant and is the map operation (write replaces, append concatenates, truncate takes a prefix, copy duplicates, rename moves, delete removes, read returns the contents, a failed call leaves the map alone) if and only if it is allowed |
| `Ledgers.RunKept` | src/fs.c:182-638 | Over every allowed run the times and link count of each file and the four statistics of the superblock are those of a ledger kept beside the map machine: creation and copy set all three times and one link, changes set the modification time, reads the access time, a rename carries the record along, and the statistics count, modulo 2^64, the accepted writes, appends, non-empty copies and reads and their bytes |
| `Ledgers.StepKept` | src/fs.c:182-638 | The same of one allowed command, refused ones included, which enter nothing |
| `Ledgers.LedgerStarts` | src/fs.c:77-92 | A formatted and mounted volume stands for the empty ledger with all statistics zero, and bears the time of its format |
| `Store.MiniFs.Session` | src/fs.c:882-953 | The command loop on the mutable disk, superblock and bitmap buffer: for every allowed sequence of commands the bytes on disk at the end represent the final state of the map machine and the list of replies is the machine's |
| `Store.MiniFs.Execute` | src/fs.c:182-638 | One command run on the bytes, wherever the source has a defined result: the new state and reply are the specified ones, and they are the map machine's on a good volume if and only if the command is allowed |
| `Store.MiniFs.Boot` | src/fs.c:37-164 | Format followed by mount succeeds exactly for the acceptable sizes and leaves the empty directory with every data block and inode free; all blocks and the buffer are new |
| `Store.MiniFs.Remount` | src/fs.c:136-177 | Unmount then mount on the bytes: superblock and bitmap come back equal, the decoded state is the same and no block past block 0 has changed, because everything had been written through |
| `Partition.UsedBlocks` | src/bitmap.c:23-49 | In every reachable state the set bits are the disjoint union of the metadata blocks, the blocks owned by files and the stranded blocks; the owned ones number the sum over the files, the stranded ones what the free counter leaves over |
| `Laws.DoWriteAllOrNothing` | src/fs.c:268-314 | For every 32-bit length: refused, it changes nothing; it accepts exactly when max(1, ceil(len / block_size)) is at most 16 and at most the blocks free beforehand (the file's own do not count), if and only if no sum wraps or no block is free; where no sum wraps the written inode reads back as the data |
| `Laws.WriteThenRead` | src/fs.c:319-459 | For data of any length: an accepted write reads back as exactly the data on a good volume if and only if length plus block size is at most 2^32; a refused one changes nothing; and reading any other name gives what it gave before, though freed blocks are reused at once and the last block is padded |
| `Laws.AppendConcatenates` | src/fs.c:351-409 | Wherever the append has a result: accepted, the contents are the old ones followed by the new on a good volume if and only if their length plus block size is at most 2^32; refused, nothing changes |
| `Laws.TruncateThenAppend` | src/fs.c:577-610 | Truncating a present file to n, at most its length, shows the first n bytes; appending d then shows those n bytes followed by d, if accepted and short enough for 32-bit sums, or those n bytes when refused: neither cut bytes nor stale pointers come back |
| `Laws.CopyEqual` | src/fs.c:501-572 | For every destination name: the slot a successful copy fills bears its first 31 bytes and holds the source's contents and mode on blocks disjoint from the source's, which is untouched; by name the two files are equal on a good volume if and only if those 31 bytes were not taken |
| `Laws.CopyIndependent` | src/fs.c:501-572 | After an allowed copy, any allowed run of later commands that spares one of the two files leaves it with the copied contents, whatever the run does to the other |
| `Laws.FilesApart` | src/fs.c:283-297 | After any allowed run two files of different names share no data block |
| `Laws.CopyFailureRestores` | src/fs.c:549-555 | A failed copy keeps the invariant and leaves superblock, its copy on disk, bitmap, data and all used inodes exactly as they were, and the directory and counters unchanged; only a free slot may have been blanked |
| `Laws.RunFrame` | src/fs.c:182-638 | Over any allowed run, a file that no command of the run names keeps contents and mode |
| `Laws.CreatedFile` | src/fs.c:182-231 | Create succeeds exactly when the name has at most 31 bytes, is not taken and an inode is free; then the invariant holds and the name has empty contents, regular-file type bits and permissions 0644 |
| `Laws.CreatedAlike` | ui/app.js:120-135 | A file the simulator creates has the mode and the empty content of one that the C code creates |
| `Laws.FirstFitShape` | src/bitmap.c:23-38 | For every 32-bit length: the pointers a write assigns ascend, and every block below one of them that was clear or the file's own is among them; where no sum wraps and there is content they are the blocks the file owns |
| `Runs.FormatStarts` | src/fs.c:37-164 | Every accepted format, once mounted, satisfies the invariant and is the empty directory with all data blocks and inodes free and nothing stranded |
| `Runs.FreshInv` | src/fs.c:77-108 | The freshly mounted volume satisfies the whole invariant; its free counter is the number of clear bits |
| `Runs.FormattedThenMounted` | src/fs.c:90-108 | The marking loop leaves an in-memory free counter that is wrong (data_blocks - data_start, wrapped), so format alone does not give the invariant; mounting discards it and gives the fresh volume |
| `Runs.MarkedNext` | src/fs.c:105-108 | Each pass of the marking loop allocates the next metadata block in order, so the loop marks exactly [0, data_start) |
| `Geometry.FormatTiles` | src/fs.c:53-92 | Every accepted format: the regions tile [0, total_blocks) in order, the bitmap has a bit per block, at least one data block and one inode exist, and the 32-bit results are the exact ones |
| `Geometry.FormatAccepts` | src/fs.c:41-75 | Format accepts exactly when block_size is at least 144, is no multiple of 2^29 and the regions are smaller than the disk; any nonzero multiple of 2^29 divides by zero |
| `Geometry.LayoutNumbers` | src/fs.c:53-92 | For every block size of at least 144 by which the code can divide, the 32-bit layout arithmetic yields the exact block counts, or the disk is refused as too small exactly when the metadata does not leave a data block |
| `Geometry.SlotInRegion` | src/inode.c:14-16 | Every inode slot lies inside one block of the inode region, also when the block size is no multiple of 144 |
| `Geometry.SlotsApart` | src/inode.c:14-16 | Two different slots in one block do not overlap |
| `Image.TableIsArray` | src/inode.c:11-49 | Writing slot i then reading slot j returns the new record when i = j and the old one otherwise: the packed table is an array |
| `Image.BitOnDisk` | src/bitmap.c:23-49 | On a disk that represents a volume, the mark of block b is bit b mod 8 of byte b div 8 of the bitmap region, which starts at block 1 |
| `Image.InodeOnDisk` | src/inode.c:11-27 | Inode id is at block inode_start + id div (block_size div 144), in the slot of 144 bytes that id mod (block_size div 144) numbers |
| `Image.ByteOnDisk` | src/fs.c:434-446 | Byte j of a file is byte j mod block_size of the block that pointer j div block_size names |
| `Codec.InodeRoundTrip` | include/common.h:62-74 | The 144-byte image of an inode decodes to that inode |
| `Codec.SuperblockRoundTrip` | include/common.h:35-57 | The 88-byte image of a superblock decodes to that superblock |
| `Codec.InodeLayout` | include/common.h:62-74 | The image of an inode has 144 bytes: id at 0, size at 4, is_used at 8, mode at 10, the name from 12, sixteen pointers from 44, the times at 112, 120 and 128, the link count at 136, all little-endian |
| `Codec.SuperblockLayout` | include/common.h:35-57 | The image of a superblock has 88 bytes: the twelve 32-bit fields in order from 0 and the five 64-bit ones from 48, little-endian |
| `Codec.MagicBytes` | include/common.h:23 | The magic number lies on disk as the letters of MINI, last first |
| `Codec.ZeroSlot` | src/fs.c:96-100 | A zeroed slot decodes to the unused zero inode, so a formatted table is empty |
| `Ownership.SlotStepInv` | src/fs.c:236-314 | Any change of one slot that takes only free or own blocks, gives back own ones and keeps the counters in step preserves the whole invariant and conserves owned + free + lost blocks |
| `Ownership.ReadBack` | src/fs.c:291-307 | Blocks filled from the data in order and zero-padded read back, by the file's size, as exactly the data |
| `Ownership.TakenBlocks` | src/fs.c:283-297 | The blocks a write takes ascend, lie in the data region, were free or the file's own, and the free bits afterwards number free + own - taken |
| `Ownership.TakenLeast` | src/bitmap.c:25-35 | No block that is clear once the old blocks are back and lies below a taken one is left untaken |
| `Ownership.StoredSizeExact` | src/fs.c:247-248 | For a stored file the 32-bit block count never wraps and is the exact ceiling |
| `Loops.NextTaken` | src/fs.c:293-296 | The allocator cannot fail inside the write loop: of the n clear blocks at its start, pass i yields the i-th smallest |
| `Loops.PartDone` | src/fs.c:283-313 | Freeing the old blocks, n passes of the loop and the counter updates come to the specified write |
| `Loops.FreedOneMore` | src/fs.c:286-287 | In the freeing loop every pointer names a bit still set: nothing is freed twice and the counter does not wrap |
| `Refinement.DirFind` | src/inode.c:75-86 | Looking a name up in the slots is the lookup in the directory map |
| `Refinement.SlotStepDir` | src/fs.c:236-314 | A one-slot step changes the directory map at that slot's name and nowhere else, and adds the lost blocks to the stranded ones |
| `Refinement.OthersReadBack` | src/fs.c:283-307 | After a one-slot step every other used slot has its old contents and mode |
| `Steps.SlotAvailable` | src/inode.c:51-65 | While the free-inode counter is nonzero a free slot exists, so the failure branch of create and the ignored result in copy are never failures |
| `Steps.WrapNeverFits` | src/fs.c:269 | Data long enough to wrap the block count exceeds the free blocks, since the whole disk is below 2^32 bytes: what the code accepts there a right one would refuse |
| `Commands.CreateRefines` | src/fs.c:182-231 | Keeps the invariant and, seen as a map operation with its counters and reply, creates an empty file of mode 0x81A4 exactly when the name has under 32 bytes, is new and an inode is free |
| `Commands.DeleteRefines` | src/fs.c:236-263 | Keeps the invariant and, seen as a map operation with its counters and reply, removes the name and gives back its blocks and inode |
| `Commands.ReadRefines` | src/fs.c:414-459 | Keeps the invariant and, seen as a map operation with its counters and reply, returns the contents and leaves the map alone |
| `Commands.RenameRefines` | src/fs.c:464-496 | Keeps the invariant and, seen as a map operation with its counters and reply, moves the file exactly when the new name has under 32 bytes and is free |
| `Commands.TruncateRefines` | src/fs.c:577-610 | Keeps the invariant and, seen as a map operation with its counters and reply, keeps the prefix and frees exactly the excess blocks, refusing to extend |
| `Commands.ChmodRefines` | src/fs.c:615-638 | Keeps the invariant and, seen as a map operation with its counters and reply, replaces the low 12 mode bits and nothing else |
| `Commands.WriteRefines` | src/fs.c:319-346 | For data of any length: keeps the invariant and is the map operation with its counters and reply if and only if Allowed holds, that is unless the 32-bit checks pass data that is too long for them |
| `Commands.AppendRefines` | src/fs.c:351-409 | Wherever the append has a result: the same, with the length of the old contents added |
| `Commands.CopyRefines` | src/fs.c:501-572 | For every destination name: succeeds exactly when the map operation does, and keeps the invariant and is that operation if and only if Allowed holds, that is unless the copy is made and the first 31 bytes of the name are taken |
| `Volume.BufferHoldsExactly` | src/fs.c:379-389 | Old contents, new data and terminator stay inside the append buffer exactly when their 32-bit sum does not wrap |
| `Commands.CopyFits` | src/fs.c:549-555 | A copy into a free slot succeeds exactly when the source's blocks fit in the free ones |
| `FsckProof.FsckExact` | src/fs.c:762-870 | In every reachable state in which no file exceeds the wrapped size limit fsck reports no error or exactly the block count mismatch, the latter exactly when blocks are stranded; a file over the limit is always reported |
| `FsckProof.FsckCounts` | src/fs.c:762-870 | For every volume that can be mounted, whatever its inode table and counters hold: fsck reports one error for each examined slot with another slot's id, one for each pointer looked at that leads out of the data region, and one for each of the two counts that differs from the superblock's in 32 bits; examined are the used slots with an id below max_inodes and a size within 16 * block_size modulo 2^32 |
| `FsckProof.FsckCleanExactly` | src/fs.c:762-870 | So fsck answers clean if and only if every examined slot bears its own id and has all the pointers its size calls for in the data region, and both counts agree |
| `FsckProof.NeverTooMany` | src/fs.c:807-813 | The branch for files of more than 16 blocks is never taken: a size that passes the size test before it needs at most 16 |
| `FsckProof.WalkCounts` | src/fs.c:781-826 | The inode walk finds no fault, counts every used inode except files its size test skips, and counts at most their owned blocks, exactly all of them when no file is skipped |
| `FsckProof.NoneOversized` | src/fs.c:790 | With blocks under 2^28 bytes the size test skips no file |
| `FsckProof.FsckRefines` | src/fs.c:762-870 | Fsck answers clean exactly when nothing is stranded and no file exceeds the wrapped limit |
| `Limits.FsckOverRuns` | src/fs.c:762-870 | From format and mount through any allowed run, for every block size: used data blocks are those of the files plus one per accepted empty write; fsck reports no error exactly when there was no empty write and no file exceeds its wrapped size limit; under 2^28 bytes a block it reports none, or exactly the one count mismatch |
| `Limits.StrandedCounts` | src/fs.c:269-270 | Over any run the stranded blocks grow by exactly the number of accepted empty writes |
| `Limits.EmptyWriteReported` | src/fs.c:269-270 | On the sample disk an empty write is accepted, the invariant stays, and fsck goes from no error to one |
| `Limits.FsckLargeBlocks` | src/fs.c:790 | With block sizes that are multiples of 2^28 fsck is clean exactly when nothing is stranded and every file is empty: its size limit has wrapped to zero |
| `Limits.LargeVolume` | src/fs.c:53-91 | A disk of 2^32 - 1 bytes can be formatted with blocks of 2^28 bytes: 12 data blocks, satisfying the invariant |
| `Limits.LargeBlocksReported` | src/fs.c:790 | On that disk one byte in one file makes fsck report errors, although the file shows the byte and nothing is stranded |
| `Limits.WriteKeepsInvariant` | src/fs.c:269 | An accepted write by name keeps the invariant exactly when the 32-bit length plus the block size is at most 2^32, and shows the data that was given, on a good volume, exactly when the true length plus the block size is |
| `Limits.AppendKeepsInvariant` | src/fs.c:351-409 | The same of an accepted append, with the size of the file added |
| `Limits.HugeWriteAccepted` | src/fs.c:269-281 | On the sample disk a write of 2^32 - 511 bytes is accepted into one block and breaks the invariant |
| `Limits.LongWriteCut` | src/fs.c:330 | On the sample disk a write of 2^32 + 5 bytes is accepted, keeps the invariant and stores 5 bytes |
| `Limits.CopyKeepsInvariant` | src/fs.c:511-542 | A successful copy keeps the invariant exactly when the first 31 bytes of the new name are not already a file |
| `Limits.CopyBearsName` | src/fs.c:542 | A successful copy bears the name it was given exactly when that name has under 32 bytes |
| `Limits.CopyDuplicatesName` | src/fs.c:511-542 | Copying a file of 31 letters to 32 letters makes two files of one name |
| `Limits.SampleVolume` | src/fs.c:53-91 | Formatting 102400 bytes with 512-byte blocks gives 178 free blocks and 60 free inodes, satisfying the invariant |
| `Store.MiniFs.DiskRead` | src/disk.c:33-43 | Returns the stored block |
| `Store.MiniFs.DiskWrite` | src/disk.c:45-55 | Replaces one block and no other |
| `Store.MiniFs.BitmapSync` | src/bitmap.c:51-56 | Every bitmap block receives its part of the buffer; no other block changes |
| `Store.MiniFs.FindClearBit` | src/bitmap.c:24-28 | Finds the least clear bit below total_blocks, or says there is none |
| `Store.MiniFs.AllocateBlock` | src/bitmap.c:23-38 | Takes the least clear block, marks it on disk and lowers the counter; fails without change exactly when no bit is clear |
| `Store.MiniFs.FreeBlock` | src/bitmap.c:40-49 | Clears the bit on disk and raises the counter, whatever the bit was; refuses numbers past the disk |
| `Store.MiniFs.BitmapInit` | src/bitmap.c:8-21 | Fills a new buffer with the bytes of the bitmap region |
| `Store.MiniFs.InodeRead` | src/inode.c:11-27 | Returns the slot's inode; fails exactly for numbers past the table |
| `Store.MiniFs.InodeWrite` | src/inode.c:29-49 | Replaces the slot's inode on disk and nothing else of the volume |
| `Store.MiniFs.StoreInode` | src/fs.c:336-337 | Writes one inode, then the superblock |
| `Store.MiniFs.FindFreeSlot` | src/inode.c:51-54 | Finds the least slot with is_used zero, or says there is none |
| `Store.MiniFs.InodeAllocate` | src/inode.c:51-65 | Writes a zeroed used inode to the least free slot and lowers the counter; fails without change exactly when there is none |
| `Store.MiniFs.InodeFree` | src/inode.c:67-73 | Clears is_used of the slot and raises the counter |
| `Store.MiniFs.InodeFindByName` | src/inode.c:75-86 | Finds the least used slot whose name compares equal, or says there is none |
| `Store.MiniFs.FreeOwnBlocks` | src/fs.c:284-287 | Frees the blocks the file's size accounts for, by the 32-bit count of the source |
| `Store.MiniFs.FreeBlocks` | src/fs.c:597-598 | Frees a run of distinct marked blocks one by one; the counter rises by their number |
| `Store.MiniFs.FillBlock` | src/fs.c:292-304 | Takes the least clear block and stores the buffer in it |
| `Store.MiniFs.WritePiece` | src/fs.c:291-306 | One pass: the next clear block is marked, counted and filled with the next piece |
| `Store.MiniFs.WriteBlocks` | src/fs.c:290-307 | The write loop: the n smallest clear blocks, in order, receive the successive zero-padded pieces and become the first pointers |
| `Store.MiniFs.ReplaceBlocks` | src/fs.c:283-313 | After the two checks: frees, allocates, writes and counts exactly as specified, without failing |
| `Store.MiniFs.DoWrite` | src/fs.c:268-314 | The whole block write equals its specification, including both refusals without change |
| `Store.MiniFs.Gather` | src/fs.c:438-449 | Reads a file block by block into exactly its contents |
| `Store.MiniFs.FsCreate` | src/fs.c:182-231 | The resulting bytes, superblock and result are those of the specified create, in any state |
| `Store.MiniFs.RemoveSlot` | src/fs.c:247-253 | Frees the blocks and the inode and flushes the superblock |
| `Store.MiniFs.FsDelete` | src/fs.c:236-263 | The resulting bytes, superblock and result are those of the specified delete |
| `Store.MiniFs.RewriteSlot` | src/fs.c:331-337 | Writes content to a slot, then its inode and the superblock, or changes nothing |
| `Store.MiniFs.FsWrite` | src/fs.c:319-346 | The resulting bytes, superblock and result are those of the specified write |
| `Store.MiniFs.FsAppend` | src/fs.c:351-409 | Wherever the buffer holds the result: the old contents are gathered before their blocks are freed and the result is the specified append |
| `Store.MiniFs.ReadSlot` | src/fs.c:425-454 | Prints the contents, stamps the access time and counts the read |
| `Store.MiniFs.FsRead` | src/fs.c:414-459 | The output, resulting bytes and result are those of the specified read |
| `Store.MiniFs.FsRename` | src/fs.c:464-496 | The resulting bytes and result are those of the specified rename |
| `Store.MiniFs.FsChmod` | src/fs.c:615-638 | The resulting bytes and result are those of the specified chmod |
| `Store.MiniFs.FreeExcess` | src/fs.c:594-598 | Frees exactly the blocks past those the new size needs |
| `Store.MiniFs.TruncateTail` | src/fs.c:594-603 | Frees exactly the excess blocks, then stores the shorter size |
| `Store.MiniFs.FsTruncate` | src/fs.c:577-610 | The resulting bytes, superblock and result are those of the specified truncate |
| `Store.MiniFs.CopyTail` | src/fs.c:539-562 | Fills the allocated slot with a copy, or gives the slot back when the write fails |
| `Store.MiniFs.FsCopy` | src/fs.c:501-572 | The resulting bytes, superblock and result are those of the specified copy; inode allocation does not fail |
| `Store.MiniFs.FsFsck` | src/fs.c:762-870 | Returns the number of errors the specification counts and changes nothing |
| `Store.MiniFs.FsckSlot` | src/fs.c:782-825 | One slot of the walk, with its skips, id check, clamp and pointer checks |
| `Store.MiniFs.MarkMetadata` | src/fs.c:105-108 | The marking loop marks exactly the metadata blocks and lowers the counter modulo 2^32 |
| `Store.MiniFs.DiskInit` | src/disk.c:7-31 | Opening for format truncates the file to zeroed blocks |
| `Store.MiniFs.WriteLayout` | src/fs.c:77-108 | On zeroed blocks: writes the superblock, zeroes the metadata, loads the bitmap and marks the metadata; the table is empty |
| `Store.MiniFs.Format` | src/fs.c:37-131 | The verdict is the one computed; a block size under 144 changes nothing; a disk too small is refused only after it has been wiped; an accepted format leaves a zeroed table and marked metadata |
| `Store.MiniFs.Mount` | src/fs.c:136-164 | Takes superblock and bitmap from the disk, whatever was in memory, exactly when block 0 carries the magic number, for every disk whose bitmap region can be read; on a disk that holds a volume the mounted state is that volume's |
| `Store.MiniFs.Unmount` | src/fs.c:166-177 | Writes bitmap and superblock; the bitmap blocks do not change, as they were written through |
| `Store.MiniFs.FlushSuperblock` | src/fs.c:94 | Block 0 becomes the image of the superblock; nothing else changes |
| `Bits.SetBitAt` | src/bitmap.c:26-30 | Setting bit i changes the test of bit i and of no other |
| `Bits.ClearBitAt` | src/bitmap.c:42-45 | Clearing bit i changes the test of bit i and of no other |
| `FreeList.ClearExact` | src/bitmap.c:23-38 | The free list is exactly the clear bits in ascending order |
| `FreeList.TakeFirst` | src/bitmap.c:23-38 | n first-fit allocations take the n smallest clear bits and leave the rest in order |
| `FreeList.FreeDistinct` | src/bitmap.c:40-49 | Freeing distinct set bits adds exactly their number to the clear ones |
| `Volume.CopyNameHolds` | src/fs.c:211 | strncpy of at most 31 bytes into a name field ending in zero holds the name if it has under 32 bytes, else its first 31 bytes |
| `Volume.Find` | src/inode.c:75-86 | The least used slot bearing the name, or none when no used slot bears it |
| `Logger.StepInv` | src/logger.c:20-100 | Every atomic step of producers, consumer, stop, spurious wakeup and restart keeps: head = (tail + count) mod 1024; accepted = written + queued; a sleeping consumer has an empty queue and no stop; only a full queue drops; at its exit the log holds every accepted message |
| `Logger.StartInv` | src/logger.c:49-53 | logger_init starts every session in a state of that invariant |
| `Logger.RunSafe` | src/logger.c:20-100 | Over any interleaving, restarts included: what each past session wrote and what each restart found queued, then the running session's log and queue, are exactly the messages that found room, in the order they were queued, each once |
| `Logger.GoneConsumer` | src/logger.c:34-37 | From the consumer's exit to the next restart nothing more is written and the queue is exactly the messages accepted since; those are what a restart drops |
| `Logger.WrittenInTime` | src/logger.c:28-47 | Whatever producers and stop do in between, once the consumer has made as many moves as messages were queued, and one more to take the mutex, every message accepted before is in the log |
| `Logger.ConsumerFinishes` | src/logger.c:28-47 | From any reachable state the consumer, left alone, writes everything and then sleeps, or exits once stopped |
| `Logger.CleanupEnds` | src/logger.c:61-68 | Shutdown ends, from any reachable state and whoever takes turns in between: after logger_cleanup has set the flag, as many consumer turns as messages were queued, three more and three for each producer's turn bring the consumer to its exit; at the exit everything accepted is in the log, nothing is written after it, and everything accepted before the call is in the log |
| `Logger.ExitsInTime` | src/logger.c:28-47 | The same from any reachable state whose flag is set, with the number of moves the state has left |
| `Logger.StopStays` | src/logger.c:63 | Over any run without a restart the flag is set at the end if and only if it was set before or logger_cleanup ran |
| `Logger.PushAppends` | src/logger.c:90-93 | Writing at head appends to the queue in ring order, wrap included |
| `Logger.PopRemovesFirst` | src/logger.c:36-40 | Advancing tail removes the oldest message |
| `Logger.LogQueue.Init` | src/logger.c:49-53 | The ring is empty and not stopped: the protocol's start state |
| `Logger.LogQueue.Cleanup` | src/logger.c:61-65 | Sets the flag and changes nothing else of the ring; the protocol makes its stop step |
| `Logger.LogQueue.Enqueue` | src/logger.c:89-99 | Appends the message exactly when fewer than 1024 are queued, else drops it; the protocol makes its log step |
| `Logger.LogQueue.WriteOldest` | src/logger.c:37-40 | One message, the oldest, leaves the ring for the log; the protocol makes one consumer move |
| `Logger.LogQueue.Drain` | src/logger.c:35-41 | Writes all queued messages oldest first and empties the ring, one consumer move each |
| `Logger.LogQueue.Pass` | src/logger.c:25-42 | Sleeps, exits, or writes everything, by count and stop flag; never exits with messages queued; the protocol makes exactly those consumer moves |
| `Perf.WindowHolds` | src/perf.c:17-32 | After any number of calls the last min(64, calls) records are each in their slot and head is the next slot |
| `Perf.ReportIsSuffix` | src/perf.c:43-50 | Walking the ring from (head - count + 64) mod 64 gives exactly the last min(64, calls) records in order |
| `Perf.LastIsFinal` | src/perf.c:54-62 | The record before head is the final call's |
| `Perf.TotalsAreSums` | src/perf.c:29-31 | The totals are the sums over the whole history modulo 2^64 |
| `Perf.EntryMeaning` | src/perf.c:17-26 | A call's entry has the bytes given, the first 31 bytes of the name, and the duration that leads from the start to the end reading modulo 2^64 |
| `Perf.PerfStats.constructor` | src/perf.c:7-9 | The zeroed statistics stand for the empty history |
| `Perf.PerfStats.PerfRecord` | src/perf.c:17-32 | The history grows by the call, with its name cut to 31 bytes and the duration modulo 2^64; the fields stay those of the history |
| `Perf.PerfStats.Report` | src/perf.c:34-52 | The listing is the last min(64, calls) calls of the history in order |
| `Perf.PerfStats.Last` | src/perf.c:54-62 | The last call of the history, or none before any call |
| `UiUser.RunShown` | ui/app.js:120-287 | Over any sequence of commands from a formatted simulator, what it shows (a map from names to content, mode, inode number and number of blocks, and its free counts and next inode number) is what a map machine computes, and names stay unique |
| `UiUser.StepShown` | ui/app.js:120-287 | Every command, refused ones included, does and answers what the map machine does: create makes an empty file of mode 0x81A4, write replaces, append puts the data behind the content, rename moves, copy duplicates content and mode under a new inode number, truncate keeps a prefix (counted from the end for a negative size), chmod replaces the low 12 bits, delete removes; a write needs max(1, ceil(length / block size)) blocks, at most 16 and at most the free ones and the file's own |
| `UiUser.FormatShown` | ui/app.js:69-98 | An accepted format shows the empty directory with all blocks and inodes free and inode number 0 next |
| `UiUser.OthersUnchanged` | ui/app.js:120-287 | A refused command changes nothing but, for a copy whose write fails, the next inode number; any command leaves the files it does not name as they were |
| `UiUser.AppendConcatenates` | ui/app.js:195-206 | After an accepted append the file is still found and its content is the old one followed by the data, with mode and inode number kept |
| `UiFsck.FsckCounts` | ui/app.js:361-423 | For every state, whatever its counters and block lists hold: one error for each of the two counts that disagrees, and one for each bad name, each block number out of the data region and each place where a number was seen before |
| `UiSim.RunAccounts` | ui/app.js:374-406 | Over every command sequence from a state whose counters agree, as FsFormat leaves it: used blocks are the sum over the files, free blocks and free inodes the differences, every block number lies in the data region, the count and range checks of fsFsck report nothing, and it reports no error exactly when every name has 1 to 31 characters and no two files share a block |
| `UiSim.FsckExact` | ui/app.js:382-406 | With agreeing counters fsFsck's errors are exactly bad names and block numbers seen twice |
| `UiSim.StepInv` | ui/app.js:120-287 | Each command keeps those counters and ranges |
| `UiSim.FormatAgrees` | ui/app.js:69-98 | For every 32-bit size the C code can divide, the simulator accepts the same formats with the same regions and counters as the C code |
| `UiSim.FormatOfIntegers` | ui/app.js:69-98 | On two integers, negative ones included, the number arithmetic of fsFormat gives the specified verdict and counters |
| `UiSim.FormatOfNaN` | ui/app.js:69-98 | When a size is no number, fsFormat refuses only a block size under 144; otherwise all counters are no numbers and both count checks of fsFsck fail on the empty disk |
| `UiSim.WriteKeepsApart` | ui/app.js:154-179 | A write keeps the files on separate blocks exactly when no other file holds one of the consecutive numbers above the used count |
| `UiSim.RewriteSharesBlock` | ui/app.js:154-179 | Two one-block files: rewriting the first hands it the block of the second |
| `UiSim.TwoFilesReached` | ui/app.js:120-192 | That state is reached by creating two files of any different names and writing one character to each |
| `UiSim.UiFs.constructor` | ui/app.js:19-25 | Nothing is formatted at the start |
| `UiSim.UiFs.FsFormat` | ui/app.js:69-117 | For all integer sizes: accepts exactly the specified ones, resets every counter and the file list, else changes nothing |
| `UiSim.UiFs.NextBlocks` | ui/app.js:163-168 | Hands out the consecutive numbers above the count of used blocks, whoever has them |
| `UiSim.UiFs.WriteContent` | ui/app.js:154-179 | The loop hands out the consecutive block numbers; content, blocks and counters become the specified ones, or nothing changes |
| `UiSim.UiFs.FsCreate` | ui/app.js:120-135 | State and result are those of the specified create; refused before a format |
| `UiSim.UiFs.FsDelete` | ui/app.js:138-151 | State and result are those of the specified delete; refused before a format |
| `UiSim.UiFs.FsWrite` | ui/app.js:182-192 | State and result are those of the specified write; refused before a format |
| `UiSim.UiFs.FsAppend` | ui/app.js:195-206 | State and result are those of the specified append; refused before a format |
| `UiSim.UiFs.FsRename` | ui/app.js:224-236 | State and result are those of the specified rename; refused before a format |
| `UiSim.UiFs.FsCopy` | ui/app.js:239-258 | State and result are those of the specified copy, which pops the new file when its write fails; refused before a format |
| `UiSim.UiFs.FsChmod` | ui/app.js:261-272 | State and result are those of the specified chmod; refused before a format |
| `UiSim.UiFs.FsTruncate` | ui/app.js:275-287 | State and result are those of the specified truncate, which rewrites the slice; refused before a format |
| `UiSim.UiFs.Execute` | ui/app.js:120-287 | Any command follows the specified step and keeps the counters and ranges |
| `UiSim.UiFs.FsFsck` | ui/app.js:361-423 | Returns the number of errors of the state: inode count, block count, names, ranges and repeated blocks |
| `UiSim.UiFs.FsckFile` | ui/app.js:384-398 | What is wrong with one file after the blocks seen so far |
| `Tokenizer.SmartSplit` | ui/app.js:466-477 | The loop computes the fold of the character step over the string, with the final token |
| `Tokenizer.SplitRecovers` | ui/app.js:466-477 | A line of tokens, each written as any sequence of bare, double-quoted and single-quoted pieces, separated by any non-empty runs of spaces and tabs and with any around them, splits into exactly the texts of the tokens that have any |
| `Tokenizer.SplitReading` | ui/app.js:466-477 | The same of a line that may end inside a quote: what follows the open quote belongs to the last token |
| `Tokenizer.EveryLine` | ui/app.js:466-477 | Every string is such a line, so the two together fix what the splitter does with any input |

## Left out

- Store.MiniFs.FsAppend: requires that the source's buffer holds the result, because where its 32-bit size wraps the source copies past its end and has no defined behaviour; Volume.BufferHoldsExactly says exactly when. Store.MiniFs.Execute asks only this, of an append.
- Store.MiniFs.Session: requires an allowed run, because after a call that is not allowed the volume is no longer good or no longer what the map machine has; Runs.RunExact says that these are exactly the runs the code gets right. So do Runs.RunRefines, Laws.RunFrame, Laws.FilesApart and Laws.CopyIndependent.
- Limits.FsckOverRuns: requires an allowed run, for the same reason.
- Store.MiniFs.Format: requires that block_size * 8 is not zero modulo 2^32, because the source then divides by zero.
- Store.MiniFs.Boot: requires the same of the block size as Format.
- Store.MiniFs.Mount: requires that the bitmap region named by block 0 can be read, when the magic number is there; the source ignores a failed read.
- UiSim.UiFs.FsFormat: takes integers; what a size that is no number does is UiSim.FormatOfNaN, and later commands on such a disk are not modelled. Numbers above 2^53, which JavaScript rounds, are exact here.
- UiSim.UiFs.FsFsck: leaves out the magic number check, whose value is a constant of fsFormat.
- Perf.PerfStats.PerfRecord: takes both clock readings as arguments; averages and microseconds are printing.
- POSIX calls, file descriptors, memory allocation and their failures: the disk is an array of blocks whose reads and writes succeed; a disk file whose size is no multiple of the block size loses only bytes no block covers.
- Bytes of block 0 past the 88-byte superblock record and padding bytes inside records are written as zeros; the source writes whatever lies beside the record in memory.
- Time stamps are arguments of the operations; local time and its formatting are not modelled.
- fs_ls, fs_stat, fs_statfs, mode strings and all messages: printing without state. What they print of a file or of the statistics is what Runs.RunRefines and Ledgers.RunKept are about.
- UiSim.UiFs.FsTruncate: takes integers; a size that is no number, which the source lets empty the file, is not modelled.
- Argument parsing of main and of fs_shell: Session starts from parsed commands, and the shell's format command is Boot.
- fs_mutex: every operation holds it from start to end, so operations are atomic here.
- Text of log messages, and a log file that cannot be opened: messages are opaque and the consumer starts.
- Names and contents of the simulator are sequences of characters without JavaScript's code units; its read, listings, log, performance panel and page are not modelled.
- What a restart of the logger does while the old consumer still runs: the source joins it first.
