/** mini_fs as it runs: a disk of blocks, the global superblock and the bitmap buffer, updated in place.
    Each method follows its C function and is tied to the function of Volume that says what it does. */
module Store {
  import opened Types
  import opened Arith
  import opened Codec
  import opened Bits
  import opened Geometry
  import opened FreeList
  import opened Volume
  import opened Ownership
  import opened Steps
  import opened Image
  import opened Loops
  import opened UserView
  import opened Refinement
  import opened Commands
  import opened Runs

  class MiniFs {
    var disk: array<Block>       // the disk file
    var sb: Superblock           // the global superblock
    var bitmap: array<Byte>      // the bitmap buffer
    ghost var vol: Vol           // what they represent

    /** Mounted, with the bitmap written through. */
    ghost predicate Valid()
      reads this, disk, bitmap
    {
      disk as object != bitmap as object && sb == vol.sb && Holds(disk[..], bitmap[..], vol)
    }

    // ---- src/disk.c ----

    method DiskRead(b: nat) returns (buf: Block)
      requires b < disk.Length
      ensures buf == disk[b]
    {
      buf := disk[b];
    }

    method DiskWrite(b: nat, buf: Block)
      requires b < disk.Length
      modifies disk
      ensures disk[..] == old(disk[..])[b := buf]
    {
      disk[b] := buf;
    }

    /** disk_write(0, &sb) */
    method FlushSuperblock()
      requires Valid()
      modifies disk, this`vol
      ensures Valid() && vol == Flushed(old(vol)) && disk[..] == old(disk[..])[0 := SuperblockBlock(sb)]
    {
      ghost var d, bits := disk[..], bitmap[..];
      HoldsSuperblock(d, bits, vol);
      DiskWrite(0, SuperblockBlock(sb));
      vol := Flushed(vol);
      assert disk[..] == d[0 := SuperblockBlock(sb)] && bitmap[..] == bits;
    }

    // ---- src/bitmap.c ----

    /** bitmap_sync: every bitmap block gets its part of the buffer; no other block changes. */
    method BitmapSync()
      requires disk as object != bitmap as object
      requires Geo(sb) && disk.Length == sb.totalBlocks && bitmap.Length == Times(sb.bitmapBlocks, sb.blockSize)
      modifies disk
      ensures Synced(old(disk[..]), disk[..], sb, bitmap[..])
    {
      ghost var d, bits := disk[..], bitmap[..];
      SyncedNext(d, sb, bits, 0);
      var i := 0;
      while i < sb.bitmapBlocks
        invariant 0 <= i <= sb.bitmapBlocks
        invariant disk[..] == SyncedTo(d, sb, bits, i) && bitmap[..] == bits
      {
        PartSized(sb, bits, i);
        SyncedNext(d, sb, bits, i);
        var o := Times(i, sb.blockSize);
        var part := bitmap[o..o + sb.blockSize];
        assert part == Part(bits, sb.blockSize, i);
        DiskWrite(sb.bitmapStart + i, part);
        i := i + 1;
      }
    }

    /** The tail of bitmap_allocate_block and bitmap_free_block: bit i has just been set or
        cleared in the buffer, the counter has been adjusted, and the bitmap is synced. */
    method SyncBit(ghost bits: seq<Byte>, i: nat, mark: bool)
      requires disk as object != bitmap as object && Holds(disk[..], bits, vol) && i < |vol.used| && i / 8 < |bits|
      requires bitmap[..] == if mark then SetBit(bits, i) else ClearBit(bits, i)
      requires sb == vol.sb.(freeBlocks := sb.freeBlocks)
      modifies this`vol, disk
      ensures Valid() && vol == old(vol).(used := old(vol.used)[i := mark], sb := sb)
    {
      ghost var d := disk[..];
      BitmapSync();
      HoldsBit(d, bits, vol, disk[..], i, mark);
      vol := vol.(used := vol.used[i := mark]);
      HoldsCounters(disk[..], bitmap[..], vol, sb);
      vol := vol.(sb := sb);
    }

    /** The scan of bitmap_allocate_block. */
    method FindClearBit() returns (ok: bool, b: U32)
      requires Valid()
      ensures ok <==> Clear(vol.used) != []
      ensures ok ==> b < |vol.used| && b / 8 < bitmap.Length && b == Clear(vol.used)[0]
    {
      b := 0;
      while b < sb.totalBlocks
        invariant 0 <= b <= sb.totalBlocks
        invariant forall k :: 0 <= k < b ==> vol.used[k]
      {
        assert BitHolds(bitmap[..], vol.used, b);
        if bitmap[b / 8] & Mask(b % 8) == 0 {
          FirstClear(vol.used, b);
          return true, b;
        }
        b := b + 1;
      }
      NoneClear(vol.used);
      return false, 0;
    }

    /** bitmap_allocate_block: the first clear bit, or failure when there is none. */
    method AllocateBlock() returns (ok: bool, b: U32)
      requires Valid()
      modifies this`sb, this`vol, disk, bitmap
      ensures Valid()
      ensures ok <==> Clear(old(vol.used)) != []
      ensures ok ==> b < |old(vol.used)| && b == Clear(old(vol.used))[0] && vol == BlockTaken(old(vol), b)
      ensures !ok ==> vol == old(vol)
    {
      ok, b := FindClearBit();
      if ok {
        TakeBlock(b);
      }
    }

    /** src/bitmap.c:30-33 */
    method TakeBlock(b: U32)
      requires Valid() && b < |vol.used|
      modifies this`sb, this`vol, disk, bitmap
      ensures Valid() && vol == BlockTaken(old(vol), b)
    {
      ghost var bits := bitmap[..];
      assert BitHolds(bits, vol.used, b);
      bitmap[b / 8] := bitmap[b / 8] | Mask(b % 8);
      assert bitmap[..] == SetBit(bits, b);
      sb := sb.(freeBlocks := Wrap(sb.freeBlocks - 1));
      SyncBit(bits, b, true);
    }

    /** bitmap_free_block. It does not check that the bit is set. */
    method FreeBlock(b: U32) returns (ok: bool)
      requires Valid()
      modifies this`sb, this`vol, disk, bitmap
      ensures Valid()
      ensures ok <==> b < |old(vol.used)|
      ensures ok ==> vol == BlockFreed(old(vol), b)
      ensures !ok ==> vol == old(vol)
    {
      if b >= sb.totalBlocks {
        return false;
      }
      ghost var bits := bitmap[..];
      assert BitHolds(bits, vol.used, b);
      bitmap[b / 8] := bitmap[b / 8] & !Mask(b % 8);
      assert bitmap[..] == ClearBit(bits, b);
      sb := sb.(freeBlocks := Wrap(sb.freeBlocks + 1));
      SyncBit(bits, b, false);
      return true;
    }

    // ---- src/inode.c ----

    method InodeRead(id: U32) returns (ok: bool, ino: Inode)
      requires Valid()
      ensures ok <==> id < |vol.inodes|
      ensures ok ==> ino == vol.inodes[id]
    {
      if id >= sb.maxInodes {
        return false, ZeroInode();
      }
      SlotBlockSized(disk[..], bitmap[..], vol, id);
      var buf := DiskRead(SlotBlock(sb, id));
      var o := SlotOffset(sb, id);
      assert SlotHolds(disk[..], vol, id);
      assert buf[o..o + INODE_SIZE] == Slot(disk[..], sb, id);
      return true, DecodeInode(buf[o..o + INODE_SIZE]);
    }

    method InodeWrite(id: U32, ino: Inode) returns (ok: bool)
      requires Valid()
      modifies this`vol, disk
      ensures Valid()
      ensures ok <==> id < |old(vol.inodes)|
      ensures ok ==> vol == WithInode(old(vol), id, ino)
      ensures !ok ==> vol == old(vol)
    {
      if id >= sb.maxInodes {
        return false;
      }
      ghost var d, bits := disk[..], bitmap[..];
      SlotBlockSized(d, bits, vol, id);
      HoldsInode(d, bits, vol, id, ino);
      var buf := DiskRead(SlotBlock(sb, id));
      DiskWrite(SlotBlock(sb, id), Patched(buf, SlotOffset(sb, id), EncodeInode(ino)));
      vol := vol.(inodes := vol.inodes[id := ino]);
      assert disk[..] == SlotWritten(d, sb, id, ino) && bitmap[..] == bits;
      return true;
    }

    /** inode_write, then the superblock, as most operations end. */
    method StoreInode(id: U32, ino: Inode)
      requires Valid() && id < |vol.inodes|
      modifies this`vol, disk
      ensures Valid() && vol == Flushed(WithInode(old(vol), id, ino))
    {
      var _ := InodeWrite(id, ino);
      FlushSuperblock();
    }

    /** The scan of inode_allocate. */
    method FindFreeSlot() returns (ok: bool, id: U32)
      requires Valid()
      ensures FreeSlot(vol.inodes) == if ok then Some(id) else None
    {
      id := 0;
      while id < sb.maxInodes
        invariant 0 <= id <= sb.maxInodes
        invariant forall k :: 0 <= k < id ==> vol.inodes[k].isUsed != 0
      {
        var found, temp := InodeRead(id);
        if found && temp.isUsed == 0 {
          FirstFreeSlot(vol.inodes, Some(id));
          return true, id;
        }
        id := id + 1;
      }
      FirstFreeSlot(vol.inodes, None);
      return false, 0;
    }

    /** inode_allocate: a zeroed, used inode in the first free slot. */
    method InodeAllocate() returns (ok: bool, ino: Inode)
      requires Valid()
      modifies this`sb, this`vol, disk
      ensures Valid()
      ensures ok <==> FreeSlot(old(vol.inodes)).Some?
      ensures ok ==> ino == BlankInode(FreeSlot(old(vol.inodes)).value)
                     && vol == Allocated(old(vol), FreeSlot(old(vol.inodes)).value)
      ensures !ok ==> vol == old(vol)
    {
      var id;
      ok, id := FindFreeSlot();
      if !ok {
        return false, ZeroInode();
      }
      ino := BlankInode(id);
      SetCounters(sb.(freeInodes := Wrap(sb.freeInodes - 1)));
      var _ := InodeWrite(id, ino);
    }

    method InodeFree(id: U32) returns (ok: bool)
      requires Valid()
      modifies this`sb, this`vol, disk
      ensures Valid()
      ensures ok <==> id < |old(vol.inodes)|
      ensures ok ==> vol == SlotFreed(old(vol), id)
      ensures !ok ==> vol == old(vol)
    {
      var temp;
      ok, temp := InodeRead(id);
      if ok {
        temp := temp.(isUsed := 0);
        SetCounters(sb.(freeInodes := Wrap(sb.freeInodes + 1)));
        ok := InodeWrite(id, temp);
      }
    }

    /** inode_find_by_name: strcmp against every used slot. */
    method InodeFindByName(name: CString) returns (ok: bool, id: nat, ino: Inode)
      requires Valid()
      ensures Find(vol.inodes, name) == if ok then Some(id) else None
      ensures ok ==> ino == vol.inodes[id]
    {
      var i := 0;
      while i < sb.maxInodes
        invariant 0 <= i <= sb.maxInodes
        invariant forall k :: 0 <= k < i && IsUsed(vol.inodes[k]) ==> NameOf(vol.inodes[k]) != name
      {
        var found, temp := InodeRead(i);
        if found && temp.isUsed == 1 && CStr(temp.name) == name {
          FirstNamed(vol.inodes, name, Some(i));
          return true, i, temp;
        }
        i := i + 1;
      }
      FirstNamed(vol.inodes, name, None);
      return false, 0, ZeroInode();
    }

    // ---- src/fs.c: _do_write ----

    /** A change of counters in the in-memory superblock. */
    method SetCounters(counters: Superblock)
      requires Valid() && SameGeo(sb, counters)
      modifies this`sb, this`vol
      ensures Valid() && vol == WithCounters(old(vol), counters)
    {
      HoldsCounters(disk[..], bitmap[..], vol, counters);
      sb := counters;
      vol := vol.(sb := counters);
    }

    method WriteData(b: U32, buf: Block)
      requires Valid() && b in vol.data && |buf| == sb.blockSize
      modifies this`vol, disk
      ensures Valid() && vol == old(vol).(data := old(vol.data)[b := buf])
    {
      ghost var d, bits := disk[..], bitmap[..];
      HoldsData(d, bits, vol, b, buf);
      DiskWrite(b, buf);
      vol := vol.(data := vol.data[b := buf]);
      assert disk[..] == d[b := buf] && bitmap[..] == bits;
    }

    /** The loop that gives a run of pointers back. */
    method FreeBlocks(ptrs: seq<U32>)
      requires Valid() && vol.sb.freeBlocks == |Clear(vol.used)| && AllSet(vol.used, ptrs) && Ascending(ptrs)
      modifies this`sb, this`vol, disk, bitmap
      ensures Valid() && vol == Freed(old(vol), ptrs)
    {
      ghost var v := vol;
      FreedNone(v);
      var i := 0;
      while i < |ptrs|
        invariant 0 <= i <= |ptrs| && Valid()
        invariant vol == Freed(v, ptrs[..i])
      {
        FreedOneMore(v, ptrs, i);
        var _ := FreeBlock(ptrs[i]);
        i := i + 1;
      }
      assert ptrs[..i] == ptrs;
    }

    /** Frees the ceil(size / block_size) blocks of a file, as _do_write and fs_delete do. */
    method FreeOwnBlocks(ino: Inode)
      requires Valid() && Ready(vol, ino)
      modifies this`sb, this`vol, disk, bitmap
      ensures Valid() && vol == Freed(old(vol), Own(ino, old(vol.sb.blockSize)))
    {
      BlockCount(vol, ino, ino.size);
      ExcessBlocks(vol, ino, 0);
      var blocks := if ino.size > 0 then Quot(Wrap(ino.size + sb.blockSize - 1), sb.blockSize) else 0;
      assert ino.direct[..blocks] == Own(ino, sb.blockSize);
      FreeBlocks(ino.direct[..blocks]);
    }

    /** bitmap_allocate_block followed by disk_write to the block it gave, when one is free. */
    method FillBlock(buf: Block) returns (b: U32)
      requires Valid() && Clear(vol.used) != [] && Clear(vol.used)[0] in vol.data && |buf| == sb.blockSize
      modifies this`sb, this`vol, disk, bitmap
      ensures Valid() && b < |old(vol.used)| && b == Clear(old(vol.used))[0]
      ensures vol == BlockFilled(old(vol), b, buf)
    {
      var ok;
      ok, b := AllocateBlock();
      if !ok {
        assert false;
      }
      WriteData(b, buf);
    }

    /** The write loop has done i passes from the volume f. */
    ghost predicate Writing(f: Vol, ptrs: seq<U32>, content: seq<Byte>, i: nat, at: nat)
      reads this, disk, bitmap
    {
      && Valid() && i <= |ptrs| && vol == PartWritten(f, ptrs, content, i)
      && at == Min(Times(i, f.sb.blockSize), |content|)
    }

    /** One pass of the write loop: allocate, fill a zeroed buffer with the next piece, write it. */
    method WritePiece(ghost f: Vol, ghost ptrs: seq<U32>, content: seq<Byte>, i: nat, at: nat)
      returns (b: U32, next: nat)
      requires Writing(f, ptrs, content, i, at) && i < |ptrs| && FirstClearBlocks(f, ptrs)
      modifies this`sb, this`vol, disk, bitmap
      ensures Writing(f, ptrs, content, i + 1, next) && b == ptrs[i]
    {
      NextTaken(f.used, ptrs, i);
      PlaceKeeps(f.data, ptrs, content, f.sb.blockSize, i, ptrs[i]);
      var len := Min(|content| - at, sb.blockSize);
      ChunkIs(content, sb.blockSize, i, at, len);
      PartOneMore(f, ptrs, content, i);
      b := FillBlock(content[at..at + len] + Zeros(sb.blockSize - len));
      next := at + len;
    }

    /** The write loop: the n smallest clear blocks receive the pieces in order and become the first pointers. */
    method WriteBlocks(ghost ptrs: seq<U32>, ino0: Inode, content: seq<Byte>, n: nat) returns (ino: Inode)
      requires Valid() && n == |ptrs| <= DIRECT && FirstClearBlocks(vol, ptrs)
      modifies this`sb, this`vol, disk, bitmap
      ensures Valid() && vol == PartWritten(old(vol), ptrs, content, n)
      ensures ino == ino0.(direct := PartPointers(ptrs, ino0.direct, n))
    {
      ghost var f := vol;
      PartStart(f, ptrs, content, ino0.direct);
      ino := ino0;
      var i, at := 0, 0;
      while i < n
        invariant 0 <= i <= n && Writing(f, ptrs, content, i, at)
        invariant ino == ino0.(direct := PartPointers(ptrs, ino0.direct, i))
      {
        PointerOneMore(ptrs, ino0.direct, i);
        var b;
        b, at := WritePiece(f, ptrs, content, i, at);
        ino := ino.(direct := ino.direct[i := b]);
        i := i + 1;
      }
    }

    /** src/fs.c:283-313: the part of _do_write after its two checks. */
    method ReplaceBlocks(ino0: Inode, content: seq<Byte>, n: nat, now: U64) returns (ino: Inode)
      requires Valid() && Ready(vol, ino0) && |content| < TWO32 && n == BlocksNeeded(|content|, sb.blockSize)
      requires WriteFits(vol, ino0, |content|)
      modifies this`sb, this`vol, disk, bitmap
      ensures Valid() && (vol, ino, true) == Volume.DoWrite(old(vol), ino0, content, now)
    {
      ghost var v := vol;
      ghost var f, ptrs := Freed(v, Own(ino0, v.sb.blockSize)), Taken(v, ino0, n);
      assert n == BlocksNeeded(|content|, v.sb.blockSize);
      TakenFromFreed(v, ino0, n, f);
      FreeOwnBlocks(ino0);
      ino := WriteBlocks(ptrs, ino0, content, n);
      ghost var p := vol;
      assert p == PartWritten(f, ptrs, content, n) && p.sb == sb;
      var counters := Tallied(sb, |content|);
      PartDone(v, ino0, content, n, now, p, counters);
      ino := ino.(size := |content|, modifiedAt := now);
      SetCounters(counters);
    }

    method DoWrite(ino0: Inode, content: seq<Byte>, now: U64) returns (ok: bool, ino: Inode)
      requires Valid() && Ready(vol, ino0) && |content| < TWO32
      modifies this`sb, this`vol, disk, bitmap
      ensures Valid()
      ensures (vol, ino, ok) == Volume.DoWrite(old(vol), ino0, content, now)
    {
      var n := Quot(Wrap(|content| + sb.blockSize - 1), sb.blockSize);
      if n == 0 {
        n := 1;
      }
      if n > DIRECT {
        return false, ino0;
      }
      if n > sb.freeBlocks {
        return false, ino0;
      }
      ino := ReplaceBlocks(ino0, content, n, now);
      return true, ino;
    }

    /** The read loop of fs_append, fs_read and fs_copy: gather the file block by block. */
    method Gather(ino: Inode) returns (content: seq<Byte>)
      requires Valid() && Ready(vol, ino)
      ensures content == Contents(vol.data, ino, sb.blockSize)
    {
      BlockCount(vol, ino, ino.size);
      GatherAll(vol.data, ino, sb.blockSize);
      content := [];
      var blocks := if ino.size > 0 then Quot(Wrap(ino.size + sb.blockSize - 1), sb.blockSize) else 0;
      var i := 0;
      while i < blocks
        invariant 0 <= i <= blocks
        invariant content == Gathered(vol.data, ino, sb.blockSize, i)
      {
        PointerReads(vol, ino, i);
        GatherNext(vol.data, ino, sb.blockSize, i);
        assert BlockHolds(disk[..], bitmap[..], vol, ino.direct[i]);
        var buf := DiskRead(ino.direct[i]);
        content := content + buf[..Min(ino.size - |content|, sb.blockSize)];
        i := i + 1;
      }
    }

    // ---- src/fs.c: the file operations ----

    /** fs_create */
    method FsCreate(name: CString, now: U64) returns (ok: bool)
      requires Valid()
      modifies this`sb, this`vol, disk
      ensures Valid() && Outcome(vol, ok, []) == Create(old(vol), name, now)
    {
      if |name| >= NAME_LEN {
        return false;
      }
      var present, _, _ := InodeFindByName(name);
      if present {
        return false;
      }
      if sb.freeInodes == 0 {
        return false;
      }
      ghost var v := vol;
      var ino;
      ok, ino := InodeAllocate();
      if !ok {
        return false;
      }
      CreateIsCalls(v, name, now, ino.id);
      ino := ino.(name := CopyName(ino.name, name), size := 0, mode := REGULAR_FILE_MODE, linkCount := 1,
                  createdAt := now, modifiedAt := now, accessedAt := now);
      StoreInode(ino.id, ino);
    }

    /** fs_delete after the lookup */
    method RemoveSlot(id: U32, ino: Inode)
      requires Valid() && id < |vol.inodes| && vol.inodes[id] == ino && Ready(vol, ino) && ino.id == id
      modifies this`sb, this`vol, disk, bitmap
      ensures Valid() && vol == DeleteSlot(old(vol), id)
    {
      DeleteIsCalls(vol, id);
      FreeOwnBlocks(ino);
      var _ := InodeFree(ino.id);
      FlushSuperblock();
    }

    method FsDelete(name: CString) returns (ok: bool)
      requires Valid() && Inv(vol)
      modifies this`sb, this`vol, disk, bitmap
      ensures Valid() && Outcome(vol, ok, []) == Delete(old(vol), name)
    {
      var id, ino;
      ok, id, ino := InodeFindByName(name);
      if ok {
        InvLocal(vol, id);
        RemoveSlot(id, ino);
      }
    }

    /** The tail of fs_write and fs_append: write the content, then the inode, then the superblock. */
    method RewriteSlot(id: U32, ino0: Inode, content: seq<Byte>, now: U64) returns (ok: bool)
      requires Valid() && id < |vol.inodes| && vol.inodes[id] == ino0 && Ready(vol, ino0) && ino0.id == id
      requires |content| < TWO32
      modifies this`sb, this`vol, disk, bitmap
      ensures Valid() && vol == Rewrite(old(vol), id, content, now).vol
      ensures ok == Rewrite(old(vol), id, content, now).ok
    {
      var ino;
      ok, ino := DoWrite(ino0, content, now);
      if ok {
        StoreInode(ino.id, ino);
      }
    }

    method FsWrite(name: CString, content: seq<Byte>, now: U64) returns (ok: bool)
      requires Valid() && Inv(vol)
      modifies this`sb, this`vol, disk, bitmap
      ensures Valid() && Outcome(vol, ok, []) == Write(old(vol), name, content, now)
    {
      var id, ino;
      ok, id, ino := InodeFindByName(name);
      if ok {
        InvLocal(vol, id);
        ok := RewriteSlot(id, ino, Counted(content), now);
      }
    }

    method FsAppend(name: CString, content: seq<Byte>, now: U64) returns (ok: bool)
      requires Valid() && Inv(vol) && AppendDefined(vol, name, content)
      modifies this`sb, this`vol, disk, bitmap
      ensures Valid() && Outcome(vol, ok, []) == Append(old(vol), name, content, now)
    {
      var id, ino;
      ok, id, ino := InodeFindByName(name);
      if ok {
        InvLocal(vol, id);
        var before := Gather(ino);
        ok := RewriteSlot(id, ino, before + Counted(content), now);
      }
    }

    /** fs_read after the lookup; the output is what it prints. */
    method ReadSlot(id: U32, ino0: Inode, now: U64) returns (output: seq<Byte>)
      requires Valid() && id < |vol.inodes| && vol.inodes[id] == ino0 && Ready(vol, ino0) && ino0.id == id
      modifies this`sb, this`vol, disk
      ensures Valid() && vol == ReadSlotOutcome(old(vol), id, now).vol && output == ReadSlotOutcome(old(vol), id, now).output
    {
      var ino := ino0.(accessedAt := now);
      var counted := sb.(totalReads := Wrap64(sb.totalReads + 1));
      var tally := counted.(bytesRead := Wrap64(sb.bytesRead + ino.size));
      ReadIsCalls(vol, id, now, ino, tally);
      var _ := InodeWrite(ino.id, ino);
      if ino.size == 0 {
        CountAndFlush(counted);
        return [];
      }
      output := Gather(ino);
      CountAndFlush(tally);
    }

    method CountAndFlush(counters: Superblock)
      requires Valid() && SameGeo(sb, counters)
      modifies this`sb, this`vol, disk
      ensures Valid() && vol == Flushed(WithCounters(old(vol), counters))
    {
      SetCounters(counters);
      FlushSuperblock();
    }

    method FsRead(name: CString, now: U64) returns (ok: bool, output: seq<Byte>)
      requires Valid() && Inv(vol)
      modifies this`sb, this`vol, disk
      ensures Valid() && Outcome(vol, ok, output) == Read(old(vol), name, now)
    {
      var id, ino;
      ok, id, ino := InodeFindByName(name);
      if !ok {
        return false, [];
      }
      InvLocal(vol, id);
      output := ReadSlot(id, ino, now);
    }

    method FsRename(oldName: CString, newName: CString, now: U64) returns (ok: bool)
      requires Valid() && Inv(vol)
      modifies this`vol, disk
      ensures Valid() && Outcome(vol, ok, []) == Rename(old(vol), oldName, newName, now)
    {
      if |newName| >= NAME_LEN {
        return false;
      }
      var id, ino;
      ok, id, ino := InodeFindByName(oldName);
      if !ok {
        return false;
      }
      var taken, _, _ := InodeFindByName(newName);
      if taken {
        return false;
      }
      InvLocal(vol, id);
      var _ := InodeWrite(ino.id, ino.(name := CopyName(ino.name, newName), modifiedAt := now));
    }

    method FsChmod(name: CString, mode: bv16, now: U64) returns (ok: bool)
      requires Valid() && Inv(vol)
      modifies this`vol, disk
      ensures Valid() && Outcome(vol, ok, []) == Chmod(old(vol), name, mode, now)
    {
      var id, ino;
      ok, id, ino := InodeFindByName(name);
      if ok {
        InvLocal(vol, id);
        var typeBits := ino.mode & 0xF000;
        var _ := InodeWrite(ino.id, ino.(mode := typeBits | (mode & 0x0FFF), modifiedAt := now));
      }
    }

    /** src/fs.c:594-598 */
    method FreeExcess(ino: Inode, newSize: U32)
      requires Valid() && Ready(vol, ino) && newSize <= ino.size
      modifies this`sb, this`vol, disk, bitmap
      ensures Valid() && vol == Freed(old(vol), Excess(ino, newSize, old(vol.sb.blockSize)))
    {
      BlockCount(vol, ino, ino.size);
      BlockCount(vol, ino, newSize);
      var oldBlocks := if ino.size > 0 then Quot(Wrap(ino.size + sb.blockSize - 1), sb.blockSize) else 0;
      var newBlocks := if newSize > 0 then Quot(Wrap(newSize + sb.blockSize - 1), sb.blockSize) else 0;
      ExcessBlocks(vol, ino, newBlocks);
      FreeBlocks(ino.direct[newBlocks..oldBlocks]);
    }

    /** src/fs.c:594-603 */
    method TruncateTail(id: U32, ino: Inode, newSize: U32, now: U64)
      requires Valid() && id < |vol.inodes| && vol.inodes[id] == ino && Ready(vol, ino) && ino.id == id
      requires newSize <= ino.size
      modifies this`sb, this`vol, disk, bitmap
      ensures Valid() && vol == TruncateSlot(old(vol), id, newSize, now)
    {
      TruncateIsCalls(vol, id, newSize, now);
      FreeExcess(ino, newSize);
      StoreInode(id, ino.(size := newSize, modifiedAt := now));
    }

    method FsTruncate(name: CString, newSize: U32, now: U64) returns (ok: bool)
      requires Valid() && Inv(vol)
      modifies this`sb, this`vol, disk, bitmap
      ensures Valid() && Outcome(vol, ok, []) == Truncate(old(vol), name, newSize, now)
    {
      var id, ino;
      ok, id, ino := InodeFindByName(name);
      if !ok {
        return false;
      }
      if newSize > ino.size {
        return false;
      }
      InvLocal(vol, id);
      TruncateTail(id, ino, newSize, now);
    }

    /** src/fs.c:539-562: fill the slot inode_allocate gave, or give it back. */
    method CopyTail(ghost v: Vol, ghost s: nat, srcSize: U32, srcMode: bv16, content: seq<Byte>, blank: Inode,
                    dst: CString, now: U64) returns (ok: bool)
      requires Shape(v) && MetadataMarked(v) && v.sb.freeBlocks == |Clear(v.used)|
      requires blank.id < |v.inodes| && s < |v.inodes|
      requires blank == BlankInode(blank.id)
      requires Valid() && vol == Allocated(v, blank.id)
      requires content == FileContents(v, s) && srcSize == v.inodes[s].size && srcMode == v.inodes[s].mode
      modifies this`sb, this`vol, disk, bitmap
      ensures Valid() && Outcome(vol, ok, []) == CopyInto(v, s, blank.id, dst, now)
    {
      var ino := blank.(name := CopyName(blank.name, dst), mode := srcMode, linkCount := 1,
                        createdAt := now, modifiedAt := now, accessedAt := now);
      CopyIsCalls(v, s, blank.id, dst, now, ino);
      if srcSize > 0 {
        ok, ino := DoWrite(ino, content, now);
        if !ok {
          var _ := InodeFree(ino.id);
          return false;
        }
      } else {
        ino := ino.(size := 0);
      }
      StoreInode(ino.id, ino);
      return true;
    }

    method FsCopy(src: CString, dst: CString, now: U64) returns (ok: bool)
      requires Valid() && Inv(vol)
      modifies this`sb, this`vol, disk, bitmap
      ensures Valid() && Outcome(vol, ok, []) == Copy(old(vol), src, dst, now)
    {
      var s, srcInode;
      ok, s, srcInode := InodeFindByName(src);
      if !ok {
        return false;
      }
      var present, _, _ := InodeFindByName(dst);
      if present {
        return false;
      }
      if sb.freeInodes == 0 {
        return false;
      }
      InvLocal(vol, s);
      SlotAvailable(vol);
      CopyIsInto(vol, src, dst, now, s, FreeSlot(vol.inodes).value);
      ghost var v := vol;
      var content := Gather(srcInode);
      var ino;
      ok, ino := InodeAllocate();
      if !ok {
        assert false;
      }
      ok := CopyTail(v, s, srcInode.size, srcInode.mode, content, ino, dst, now);
    }

    /** fs_fsck: the number of errors it prints; it returns 0 exactly when there are none. */
    method FsFsck() returns (errors: nat)
      requires Valid()
      ensures errors == Fsck(vol)
    {
      var found, usedInodes, usedBlocks := 0, 0, 0;
      var i := 0;
      while i < sb.maxInodes
        invariant 0 <= i <= sb.maxInodes
        invariant Walk(found, usedInodes, usedBlocks) == FsckWalk(vol, i)
      {
        found, usedInodes, usedBlocks := FsckSlot(i, found, usedInodes, usedBlocks);
        i := i + 1;
      }
      var badMagic := sb.magic != FS_MAGIC;
      var badInodes := usedInodes != Wrap(sb.maxInodes - sb.freeInodes);
      var badBlocks := usedBlocks != Wrap(sb.dataBlocks - sb.freeBlocks);
      errors := (if badMagic then 1 else 0) + found + (if badInodes then 1 else 0) + (if badBlocks then 1 else 0);
    }

    /** One slot of the fsck walk, src/fs.c:782-825. */
    method FsckSlot(i: U32, errors: nat, usedInodes: nat, usedBlocks: nat) returns (e: nat, n: nat, b: nat)
      requires Valid() && i < |vol.inodes| && Walk(errors, usedInodes, usedBlocks) == FsckWalk(vol, i)
      ensures Walk(e, n, b) == FsckWalk(vol, i + 1)
    {
      e, n, b := errors, usedInodes, usedBlocks;
      var _, tmp := InodeRead(i);
      if tmp.isUsed == 0 {
        return;
      }
      if tmp.id >= sb.maxInodes || tmp.isUsed > 1 || tmp.size > Wrap(DIRECT * sb.blockSize) {
        return;
      }
      n := n + 1;
      if tmp.id != i {
        e := e + 1;
      }
      var expected := if tmp.size > 0 then Quot(Wrap(tmp.size + sb.blockSize - 1), sb.blockSize) else 0;
      if expected > DIRECT {
        e := e + 1;
        return;
      }
      var k := 0;
      ghost var e0 := e;
      while k < expected
        invariant 0 <= k <= expected
        invariant e == e0 + StrayPointers(sb, tmp.direct, k)
      {
        if tmp.direct[k] < sb.dataStart || tmp.direct[k] >= sb.totalBlocks {
          e := e + 1;
        }
        k := k + 1;
      }
      b := Wrap(b + expected);
    }

    // ---- src/fs.c: format, mount, unmount ----

    /** bitmap_init: a new buffer filled from the bitmap blocks. */
    method BitmapInit(ghost bits: seq<Byte>)
      requires RegionIs(disk[..], sb, bits)
      modifies this`bitmap
      ensures fresh(bitmap) && bitmap[..] == bits
    {
      var n := Times(sb.bitmapBlocks, sb.blockSize);
      bitmap := new Byte[n](_ => 0);
      ghost var d := disk[..];
      var i, o := 0, 0;
      while i < sb.bitmapBlocks
        invariant 0 <= i <= sb.bitmapBlocks && o == Times(i, sb.blockSize) && o <= n
        invariant fresh(bitmap) && bitmap.Length == n == |bits| && disk[..] == d
        invariant bitmap[..o] == bits[..o]
      {
        PartSized(sb, bits, i);
        var buf := DiskRead(sb.bitmapStart + i);
        assert buf == Part(bits, sb.blockSize, i);
        PartExtends(bits, sb.blockSize, i, o);
        CopyIntoBuffer(bitmap, o, buf);
        o := o + sb.blockSize;
        i := i + 1;
      }
      assert bitmap[..o] == bitmap[..] && bits[..o] == bits;
    }

    /** disk_read into a caller's buffer at offset o. */
    static method CopyIntoBuffer(a: array<Byte>, o: nat, buf: Block)
      requires o + |buf| <= a.Length
      modifies a
      ensures a[..o + |buf|] == old(a[..o]) + buf
    {
      forall j | 0 <= j < |buf| {
        a[o + j] := buf[j];
      }
    }

    /** disk_init with format set: the file is truncated to zeroed blocks, whatever follows. */
    method DiskInit(totalBlocks: nat, blockSize: nat)
      modifies this`disk
      ensures fresh(disk) && disk[..] == ZeroDisk(totalBlocks, blockSize)
    {
      disk := new Block[totalBlocks](_ => Zeros(blockSize));
    }

    /** The two loops that zero the bitmap and inode blocks. */
    method ZeroBlocks(from: nat, to: nat, blockSize: nat)
      requires from <= to <= disk.Length
      requires forall b :: 0 < b < disk.Length ==> disk[b] == Zeros(blockSize)
      requires 0 < from
      modifies disk
      ensures disk[..] == old(disk[..])
    {
      var i := from;
      while i < to
        invariant from <= i <= to && disk[..] == old(disk[..])
      {
        DiskWrite(i, Zeros(blockSize));
        i := i + 1;
      }
    }

    /** The marking loop of fs_format. Its in-memory counter may wrap. */
    method MarkMetadata()
      requires Valid() && forall b :: 0 <= b < |vol.used| ==> !vol.used[b]
      modifies this`sb, this`vol, disk, bitmap
      ensures Valid() && vol == Marked(old(vol), sb.dataStart)
      ensures sb.dataStart == old(sb.dataStart)
    {
      ghost var v := vol;
      MarkedNone(v);
      var i := 0;
      while i < sb.dataStart
        invariant 0 <= i <= v.sb.dataStart && Valid() && vol == Marked(v, i)
      {
        MarkedNext(v, i);
        var _, _ := AllocateBlock();
        i := i + 1;
      }
    }

    /** fs_format. What it leaves is not yet a good mounted state: the in-memory counter has been
        lowered by the marking loop. A disk too small is refused only after it has been wiped. */
    method Format(totalSize: U32, blockSize: U32, now: U64) returns (r: FormatOutcome)
      requires INODE_SIZE <= blockSize ==> Wrap(blockSize * 8) != 0
      modifies this
      ensures r == Layout(totalSize, blockSize, now)
      ensures r.BlockTooSmall? ==> unchanged(this)
      ensures r.DiskTooSmall? ==> sb == old(sb) && disk[..] == ZeroDisk(Quot(totalSize, blockSize), blockSize)
      ensures r.Formatted? ==> Valid() && vol == Marked(Unformatted(r.sb), r.sb.dataStart)
      ensures r.Formatted? ==> fresh(disk) && fresh(bitmap)
    {
      r := Layout(totalSize, blockSize, now);
      if r.BlockTooSmall? {
        return;
      }
      DiskInit(Quot(totalSize, blockSize), blockSize);
      if !r.Formatted? {
        return;
      }
      FormatTiles(totalSize, blockSize, now);
      WriteLayout(r.sb);
    }

    /** src/fs.c:77-108, on a disk of zeroed blocks. */
    method WriteLayout(layout: Superblock)
      requires Geo(layout) && disk[..] == ZeroDisk(layout.totalBlocks, layout.blockSize)
      modifies this`sb, this`bitmap, this`vol, disk
      ensures sb.dataStart == layout.dataStart && fresh(bitmap)
      ensures Valid() && vol == Marked(Unformatted(layout), layout.dataStart)
    {
      sb := layout;
      DiskWrite(0, SuperblockBlock(sb));
      ZeroBlocks(sb.bitmapStart, sb.inodeStart, sb.blockSize);
      ZeroBlocks(sb.inodeStart, sb.dataStart, sb.blockSize);
      ghost var bits := Zeros(Times(sb.bitmapBlocks, sb.blockSize));
      vol := Unformatted(sb);
      UnformattedBlank(sb);
      HoldsBlank(disk[..], bits, vol);
      HoldsRegion(disk[..], bits, vol);
      BitmapInit(bits);
      MarkMetadata();
    }

    /** fs_mount. It takes superblock and bitmap from the disk, whatever was in memory, once block 0 carries the
        magic number and the bitmap region it names can be read; that the disk holds a volume is not asked. */
    method Mount(ghost bits: seq<Byte>) returns (ok: bool)
      requires disk.Length > 0 && SUPERBLOCK_SIZE <= |disk[0]|
      requires var onDisk := DecodeSuperblock(disk[0][..SUPERBLOCK_SIZE]);
               onDisk.magic == FS_MAGIC ==> RegionIs(disk[..], onDisk, bits)
      modifies this`sb, this`bitmap, this`vol
      ensures sb == DecodeSuperblock(disk[0][..SUPERBLOCK_SIZE])
      ensures ok <==> sb.magic == FS_MAGIC
      ensures !ok ==> bitmap == old(bitmap)
      ensures ok ==> bitmap[..] == bits && fresh(bitmap)
      ensures ok && Holds(disk[..], bits, old(vol)) ==> Valid() && vol == old(vol).(sb := old(vol.dsb))
    {
      var block := DiskRead(0);
      sb := DecodeSuperblock(block[..SUPERBLOCK_SIZE]);
      if sb.magic != FS_MAGIC {
        return false;
      }
      BitmapInit(bits);
      ghost var d := disk[..];
      if Holds(d, bits, vol) {
        MountedHolds(d, bits, vol, sb);
        vol := vol.(sb := sb);
      }
      return true;
    }

    /** fs_unmount, then fs_mount: the same superblock and bitmap, on a disk of which no block past the
        superblock's has changed. */
    method Remount() returns (ok: bool)
      requires Valid() && Inv(vol)
      modifies this`sb, this`vol, this`bitmap, disk, bitmap
      ensures ok && Valid() && vol == Remounted(old(vol)) == old(vol)
      ensures sb == old(sb) && fresh(bitmap) && bitmap[..] == old(bitmap[..])
      ensures forall b :: 0 < b < disk.Length ==> disk[b] == old(disk[b])
    {
      Unmount();
      ok := MountAgain();
    }

    /** fs_mount on a disk that holds the volume in memory, counters apart. */
    method MountAgain() returns (ok: bool)
      requires Valid()
      modifies this`sb, this`bitmap, this`vol
      ensures ok && Valid() && vol == old(vol).(sb := old(vol.dsb))
      ensures fresh(bitmap) && bitmap[..] == old(bitmap[..])
    {
      ghost var bits := bitmap[..];
      MagicOnDisk(disk[..], bits, vol);
      RegionOnDisk(disk[..], bits, vol);
      ok := Mount(bits);
    }

    /** fs_unmount */
    method Unmount()
      requires Valid()
      modifies this`vol, disk
      ensures Valid() && vol == Flushed(old(vol)) && bitmap[..] == old(bitmap[..])
      ensures disk[..] == old(disk[..])[0 := SuperblockBlock(sb)]
    {
      ghost var d, bits := disk[..], bitmap[..];
      HoldsRegion(d, bits, vol);
      BitmapSync();
      assert disk[..] == d;
      FlushSuperblock();
    }

    // ---- whole commands ----

    /** Format, then mount: the empty directory. */
    method Boot(totalSize: U32, blockSize: U32, now: U64) returns (ok: bool)
      requires INODE_SIZE <= blockSize ==> Wrap(blockSize * 8) != 0
      modifies this
      ensures ok <==> Acceptable(totalSize, blockSize)
      ensures ok <==> Layout(totalSize, blockSize, now).Formatted?
      ensures ok ==> Valid() && Inv(vol)
                     && vol == Fresh(Layout(totalSize, blockSize, now).sb)
      ensures ok ==> Abs(vol) == Model(blockSize, map[], vol.sb.dataBlocks, vol.sb.maxInodes, 0)
      ensures ok ==> fresh(disk) && fresh(bitmap)
    {
      FormatAccepts(totalSize, blockSize, now);
      var r := Format(totalSize, blockSize, now);
      if !r.Formatted? {
        return false;
      }
      FormatTiles(totalSize, blockSize, now);
      FormattedThenMounted(r.sb);
      FormatStarts(totalSize, blockSize, now);
      ok := MountAgain();
    }

    /** One command of a mounted volume, wherever the source has a defined result: state and reply are the
        specified ones, and they are the model's, on a good volume, if and only if the command is allowed. */
    method Execute(c: Command, now: U64) returns (reply: Reply)
      requires Valid() && Inv(vol) && Defined(Abs(vol), c)
      modifies this`sb, this`vol, this`bitmap, disk, bitmap
      ensures bitmap == old(bitmap) || fresh(bitmap)
      ensures Valid() && Outcome(vol, reply.ok, reply.output) == Step(old(vol), c, now)
      ensures Refines(Outcome(vol, reply.ok, reply.output), Apply(Abs(old(vol)), c)) <==> Allowed(Abs(old(vol)), c)
    {
      ghost var v := vol;
      StepRefines(vol, c, now);
      reply := Dispatch(c, now);
    }

    /** Part way through a session: what has been answered and what is left make up the model's run. */
    ghost predicate Serving(start: Model, calls: seq<Call>, rest: seq<Call>, replies: seq<Reply>)
      requires 0 < start.blockSize
      reads this, disk, bitmap
    {
      && Valid() && Inv(vol) && 0 < Abs(vol).blockSize
      && RunAllowed(Abs(vol), rest) && SplitRun(start, calls, Abs(vol), rest, replies)
    }

    method Serve(call: Call, ghost start: Model, ghost calls: seq<Call>, ghost rest: seq<Call>,
                 ghost replies: seq<Reply>) returns (reply: Reply)
      requires 0 < start.blockSize && Serving(start, calls, rest, replies)
      requires rest != [] && call == rest[0]
      modifies this`sb, this`vol, this`bitmap, disk, bitmap
      ensures bitmap == old(bitmap) || fresh(bitmap)
      ensures Serving(start, calls, rest[1..], replies + [reply])
    {
      SplitNext(start, calls, Abs(vol), rest, replies);
      reply := Execute(call.cmd, call.now);
    }

    /** The loop of fs_shell over parsed commands: the final disk, bitmap and superblock represent the
        model's final state, and every reply is the model's. */
    method Session(calls: seq<Call>) returns (replies: seq<Reply>)
      requires Valid() && Inv(vol) && RunAllowed(Abs(vol), calls)
      modifies this`sb, this`vol, this`bitmap, disk, bitmap
      ensures bitmap == old(bitmap) || fresh(bitmap)
      ensures Valid() && Inv(vol)
      ensures ModelRun(Abs(old(vol)), calls) == (Abs(vol), replies)
    {
      ghost var start := Abs(vol);
      SplitStart(start, calls);
      replies := [];
      var rest := calls;
      while rest != []
        invariant Serving(start, calls, rest, replies)
        invariant bitmap == old(bitmap) || fresh(bitmap)
        decreases |rest|
      {
        var reply := Serve(rest[0], start, calls, rest, replies);
        replies := replies + [reply];
        rest := rest[1..];
      }
      SplitEnd(start, calls, Abs(vol), rest, replies);
    }

    method Dispatch(c: Command, now: U64) returns (reply: Reply)
      requires Valid() && Inv(vol) && Defined(Abs(vol), c)
      modifies this`sb, this`vol, this`bitmap, disk, bitmap
      ensures bitmap == old(bitmap) || fresh(bitmap)
      ensures Valid() && Outcome(vol, reply.ok, reply.output) == Step(old(vol), c, now)
    {
      var ok, output := true, [];
      match c {
        case CreateFile(n) => ok := FsCreate(n, now);
        case DeleteFile(n) => ok := FsDelete(n);
        case WriteFile(n, content) => ok := FsWrite(n, content, now);
        case AppendFile(n, content) =>
          AppendHasResult(vol, n, content);
          ok := FsAppend(n, content, now);
        case ReadFile(n) => ok, output := FsRead(n, now);
        case RenameFile(n, to) => ok := FsRename(n, to, now);
        case CopyFile(n, dst) => ok := FsCopy(n, dst, now);
        case TruncateFile(n, size) => ok := FsTruncate(n, size, now);
        case ChangeMode(n, mode) => ok := FsChmod(n, mode, now);
        case Check =>
          var errors := FsFsck();
          ok := errors == 0;
        case Remount => ok := this.Remount();
      }
      reply := Reply(ok, output);
    }
  }
}
