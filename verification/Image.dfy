/** How a volume lies on the disk: the bytes of each block, and what one block write changes. */
module Image {
  import opened Types
  import opened Arith
  import opened Codec
  import opened Bits
  import opened Geometry
  import opened Volume

  // ---- parts of the disk ----

  /** The 144 bytes of inode slot id. */
  function Slot(disk: seq<Block>, sb: Superblock, id: nat): (b: seq<Byte>)
    requires INODE_SIZE <= sb.blockSize
    ensures |b| == INODE_SIZE
  {
    var k, o := SlotBlock(sb, id), SlotOffset(sb, id);
    if k < |disk| && o + INODE_SIZE <= |disk[k]| then disk[k][o..o + INODE_SIZE] else Zeros(INODE_SIZE)
  }

  /** The k-th block-sized part of the in-memory bitmap. */
  function Part(bits: seq<Byte>, bs: nat, k: nat): seq<Byte> {
    var o := Times(k, bs);
    if o + bs <= |bits| then bits[o..o + bs] else []
  }

  // ---- what the disk holds ----

  /** Block b has the block size and, by its region, the superblock record, its part of the
      bitmap, or the bytes of a data block. */
  ghost predicate BlockHolds(disk: seq<Block>, bits: seq<Byte>, v: Vol, b: nat) {
    && b < |disk| && |disk[b]| == v.sb.blockSize
    && (b == 0 ==> SUPERBLOCK_SIZE <= |disk[0]| && DecodeSuperblock(disk[0][..SUPERBLOCK_SIZE]) == v.dsb)
    && (v.sb.bitmapStart <= b < v.sb.inodeStart ==> disk[b] == Part(bits, v.sb.blockSize, b - v.sb.bitmapStart))
    && (b in v.data ==> disk[b] == v.data[b])
  }

  /** Slot id of the table decodes to inode id. */
  ghost predicate SlotHolds(disk: seq<Block>, v: Vol, id: nat)
    requires INODE_SIZE <= v.sb.blockSize
  {
    id < |v.inodes| && DecodeInode(Slot(disk, v.sb, id)) == v.inodes[id]
  }

  /** Bit i of the buffer is the mark of block i. */
  ghost predicate BitHolds(bits: seq<Byte>, used: seq<bool>, i: nat) {
    i < |used| && i / 8 < |bits| && (used[i] <==> TestBit(bits, i))
  }

  ghost predicate BitsAre(bits: seq<Byte>, used: seq<bool>) {
    forall i :: 0 <= i < |used| ==> BitHolds(bits, used, i)
  }

  /** The disk and the bitmap bytes represent v. */
  ghost predicate Holds(disk: seq<Block>, bits: seq<Byte>, v: Vol) {
    && Shape(v) && SameGeo(v.sb, v.dsb)
    && |disk| == v.sb.totalBlocks && |bits| == Times(v.sb.bitmapBlocks, v.sb.blockSize)
    && (forall b :: 0 <= b < |disk| ==> BlockHolds(disk, bits, v, b))
    && (forall id :: 0 <= id < |v.inodes| ==> SlotHolds(disk, v, id))
    && BitsAre(bits, v.used)
  }

  // ---- the packed inode table is an array ----

  /** The block buffer after memcpy of an inode at offset o. */
  function Patched(buf: Block, o: nat, image: seq<Byte>): (b: Block)
    requires o + |image| <= |buf|
    ensures |b| == |buf|
  {
    buf[..o] + image + buf[o + |image|..]
  }

  lemma PatchedAt(buf: Block, o: nat, image: seq<Byte>, j: nat)
    requires o + |image| <= |buf| && j < |buf|
    ensures Patched(buf, o, image)[j] == if o <= j < o + |image| then image[j - o] else buf[j]
  {
  }

  lemma PatchedPart(buf: Block, o: nat, image: seq<Byte>, p: nat, n: nat)
    requires o + |image| <= |buf| && p + n <= |buf|
    ensures p == o && n == |image| ==> Patched(buf, o, image)[p..p + n] == image
    ensures p + n <= o || o + |image| <= p ==> Patched(buf, o, image)[p..p + n] == buf[p..p + n]
  {
    var r := Patched(buf, o, image);
    forall k | p <= k < p + n
      ensures r[k] == if o <= k < o + |image| then image[k - o] else buf[k]
    {
      PatchedAt(buf, o, image, k);
    }
  }

  /** The block of slot i is on the disk, at full size. */
  ghost predicate SlotFits(disk: seq<Block>, sb: Superblock, i: nat)
    requires INODE_SIZE <= sb.blockSize
  {
    SlotBlock(sb, i) < |disk| && |disk[SlotBlock(sb, i)]| == sb.blockSize
  }

  /** inode_write of slot i: read the block, patch the buffer, write it back. */
  function SlotWritten(disk: seq<Block>, sb: Superblock, i: nat, ino: Inode): (r: seq<Block>)
    requires Geo(sb) && i < sb.maxInodes && |disk| == sb.totalBlocks && SlotFits(disk, sb, i)
    ensures |r| == |disk|
  {
    SlotInRegion(sb, i);
    var k := SlotBlock(sb, i);
    disk[k := Patched(disk[k], SlotOffset(sb, i), EncodeInode(ino))]
  }

  lemma SlotWrittenSame(disk: seq<Block>, sb: Superblock, i: nat, ino: Inode)
    requires Geo(sb) && i < sb.maxInodes && |disk| == sb.totalBlocks && SlotFits(disk, sb, i)
    ensures Slot(SlotWritten(disk, sb, i, ino), sb, i) == EncodeInode(ino)
  {
    SlotInRegion(sb, i);
    PatchedPart(disk[SlotBlock(sb, i)], SlotOffset(sb, i), EncodeInode(ino), SlotOffset(sb, i), INODE_SIZE);
  }

  /** A patch of one slot leaves the bytes of another. */
  lemma SlotPatchedOther(disk: seq<Block>, sb: Superblock, i: nat, j: nat, image: seq<Byte>, after: seq<Block>)
    requires Geo(sb) && i < sb.maxInodes && j < sb.maxInodes && i != j && |image| == INODE_SIZE
    requires |disk| == sb.totalBlocks && SlotFits(disk, sb, i) && SlotOffset(sb, i) + INODE_SIZE <= sb.blockSize
    requires after == disk[SlotBlock(sb, i) := Patched(disk[SlotBlock(sb, i)], SlotOffset(sb, i), image)]
    ensures Slot(after, sb, j) == Slot(disk, sb, j)
  {
    SlotInRegion(sb, j);
    if SlotBlock(sb, i) == SlotBlock(sb, j) {
      SlotsApart(sb, i, j);
      PatchedPart(disk[SlotBlock(sb, i)], SlotOffset(sb, i), image, SlotOffset(sb, j), INODE_SIZE);
    }
  }

  lemma SlotWrittenOther(disk: seq<Block>, sb: Superblock, i: nat, j: nat, ino: Inode)
    requires Geo(sb) && i < sb.maxInodes && |disk| == sb.totalBlocks && SlotFits(disk, sb, i)
    requires j < sb.maxInodes && i != j
    ensures Slot(SlotWritten(disk, sb, i, ino), sb, j) == Slot(disk, sb, j)
  {
    SlotInRegion(sb, i);
    SlotPatchedOther(disk, sb, i, j, EncodeInode(ino), SlotWritten(disk, sb, i, ino));
  }

  /** inode_write of slot i, then inode_read of slot j, whatever the block size: the packed table
      is an array of records. */
  lemma TableIsArray(disk: seq<Block>, sb: Superblock, i: nat, j: nat, ino: Inode)
    requires Geo(sb) && i < sb.maxInodes && |disk| == sb.totalBlocks && SlotFits(disk, sb, i)
    requires j < sb.maxInodes
    ensures DecodeInode(Slot(SlotWritten(disk, sb, i, ino), sb, j))
            == if i == j then ino else DecodeInode(Slot(disk, sb, j))
  {
    if i == j {
      SlotWrittenSame(disk, sb, i, ino);
      InodeRoundTrip(ino);
    } else {
      SlotWrittenOther(disk, sb, i, j, ino);
    }
  }

  // ---- one block write ----

  lemma SlotBlockSized(disk: seq<Block>, bits: seq<Byte>, v: Vol, i: nat)
    requires Holds(disk, bits, v) && i < v.sb.maxInodes
    ensures v.sb.inodeStart <= SlotBlock(v.sb, i) < v.sb.dataStart
    ensures SlotFits(disk, v.sb, i)
    ensures SlotOffset(v.sb, i) + INODE_SIZE <= v.sb.blockSize
  {
    SlotInRegion(v.sb, i);
    assert BlockHolds(disk, bits, v, SlotBlock(v.sb, i));
  }

  lemma SlotHoldsAfter(disk: seq<Block>, v: Vol, i: nat, ino: Inode, j: nat)
    requires Geo(v.sb) && |v.inodes| == v.sb.maxInodes && i < v.sb.maxInodes && j < v.sb.maxInodes
    requires |disk| == v.sb.totalBlocks && SlotFits(disk, v.sb, i)
    requires forall id :: 0 <= id < |v.inodes| ==> SlotHolds(disk, v, id)
    ensures SlotHolds(SlotWritten(disk, v.sb, i, ino), v.(inodes := v.inodes[i := ino]), j)
  {
    assert SlotHolds(disk, v, j);
    TableIsArray(disk, v.sb, i, j, ino);
  }

  /** Writing an inode slot changes the table at that slot and nothing else. */
  lemma HoldsInode(disk: seq<Block>, bits: seq<Byte>, v: Vol, i: nat, ino: Inode)
    requires Holds(disk, bits, v) && i < v.sb.maxInodes && SlotFits(disk, v.sb, i)
    ensures Holds(SlotWritten(disk, v.sb, i, ino), bits, v.(inodes := v.inodes[i := ino]))
  {
    SlotInRegion(v.sb, i);
    var after := SlotWritten(disk, v.sb, i, ino);
    var w := v.(inodes := v.inodes[i := ino]);
    forall j | 0 <= j < |w.inodes|
      ensures SlotHolds(after, w, j)
    {
      SlotHoldsAfter(disk, v, i, ino, j);
    }
    forall b | 0 <= b < |after|
      ensures BlockHolds(after, bits, w, b)
    {
      BlockKept(disk, bits, v, after, w, b);
    }
  }

  /** A block that keeps its bytes and its part of v still holds it. */
  lemma BlockKept(disk: seq<Block>, bits: seq<Byte>, v: Vol, after: seq<Block>, w: Vol, b: nat)
    requires Holds(disk, bits, v) && b < |disk| == |after|
    requires w.sb.blockSize == v.sb.blockSize && w.sb.bitmapStart == v.sb.bitmapStart
    requires w.sb.inodeStart == v.sb.inodeStart && (b == 0 ==> w.dsb == v.dsb)
    requires b in w.data ==> b in v.data && w.data[b] == v.data[b]
    requires after[b] == disk[b] || (v.sb.inodeStart <= b < v.sb.dataStart && |after[b]| == |disk[b]|)
    ensures BlockHolds(after, bits, w, b)
  {
    assert BlockHolds(disk, bits, v, b);
    assert b in w.data ==> v.sb.dataStart <= b;
  }

  /** A write outside the inode region leaves every slot as it was. */
  lemma SlotKept(disk: seq<Block>, bits: seq<Byte>, v: Vol, after: seq<Block>, w: Vol, id: nat)
    requires Holds(disk, bits, v) && id < |v.inodes| && |after| == |disk|
    requires w.inodes == v.inodes && w.sb.blockSize == v.sb.blockSize && w.sb.inodeStart == v.sb.inodeStart
    requires forall b :: v.sb.inodeStart <= b < v.sb.dataStart ==> after[b] == disk[b]
    ensures SlotHolds(after, w, id)
  {
    assert SlotHolds(disk, v, id);
    SlotInRegion(v.sb, id);
    assert SlotBlock(w.sb, id) == SlotBlock(v.sb, id) && SlotOffset(w.sb, id) == SlotOffset(v.sb, id);
    assert Slot(after, w.sb, id) == Slot(disk, v.sb, id);
  }

  /** Writing a data block changes that block and nothing else. */
  lemma HoldsData(disk: seq<Block>, bits: seq<Byte>, v: Vol, b: nat, buf: Block)
    requires Holds(disk, bits, v) && b in v.data && |buf| == v.sb.blockSize
    ensures Holds(disk[b := buf], bits, v.(data := v.data[b := buf]))
  {
    var after := disk[b := buf];
    var w := v.(data := v.data[b := buf]);
    forall id | 0 <= id < |w.inodes|
      ensures SlotHolds(after, w, id)
    {
      SlotKept(disk, bits, v, after, w, id);
    }
    forall k | 0 <= k < |after|
      ensures BlockHolds(after, bits, w, k)
    {
      if k != b {
        BlockKept(disk, bits, v, after, w, k);
      }
    }
  }

  /** disk_write(0, &sb). The bytes past the record are not modelled: they are written as zeros. */
  function SuperblockBlock(sb: Superblock): (b: Block)
    requires SUPERBLOCK_SIZE <= sb.blockSize
    ensures |b| == sb.blockSize
  {
    EncodeSuperblock(sb) + Zeros(sb.blockSize - SUPERBLOCK_SIZE)
  }

  lemma SuperblockRead(sb: Superblock)
    requires SUPERBLOCK_SIZE <= sb.blockSize
    ensures DecodeSuperblock(SuperblockBlock(sb)[..SUPERBLOCK_SIZE]) == sb
  {
    assert SuperblockBlock(sb)[..SUPERBLOCK_SIZE] == EncodeSuperblock(sb);
    SuperblockRoundTrip(sb);
  }

  lemma HoldsSuperblock(disk: seq<Block>, bits: seq<Byte>, v: Vol)
    requires Holds(disk, bits, v)
    ensures Holds(disk[0 := SuperblockBlock(v.sb)], bits, Flushed(v))
  {
    SuperblockRead(v.sb);
    var after := disk[0 := SuperblockBlock(v.sb)];
    forall id | 0 <= id < |v.inodes|
      ensures SlotHolds(after, Flushed(v), id)
    {
      SlotKept(disk, bits, v, after, Flushed(v), id);
    }
    forall k | 0 <= k < |after|
      ensures BlockHolds(after, bits, Flushed(v), k)
    {
      if k != 0 {
        BlockKept(disk, bits, v, after, Flushed(v), k);
      }
    }
  }

  /** The disk after the first i iterations of bitmap_sync: i bitmap blocks hold their part of the
      buffer, the other blocks are untouched. */
  function SyncedTo(disk: seq<Block>, sb: Superblock, bits: seq<Byte>, i: nat): (r: seq<Block>)
    ensures |r| == |disk|
  {
    seq(|disk|, b requires 0 <= b < |disk| =>
      if sb.bitmapStart <= b < sb.bitmapStart + i then Part(bits, sb.blockSize, b - sb.bitmapStart) else disk[b])
  }

  lemma SyncedNext(disk: seq<Block>, sb: Superblock, bits: seq<Byte>, i: nat)
    requires sb.bitmapStart + i < |disk|
    ensures SyncedTo(disk, sb, bits, i)[sb.bitmapStart + i := Part(bits, sb.blockSize, i)]
            == SyncedTo(disk, sb, bits, i + 1)
    ensures SyncedTo(disk, sb, bits, 0) == disk
  {
  }

  /** What bitmap_sync leaves. */
  ghost predicate Synced(disk: seq<Block>, after: seq<Block>, sb: Superblock, bits: seq<Byte>) {
    |bits| == Times(sb.bitmapBlocks, sb.blockSize) && after == SyncedTo(disk, sb, bits, sb.bitmapBlocks)
  }

  lemma PartSized(sb: Superblock, bits: seq<Byte>, k: nat)
    requires |bits| == Times(sb.bitmapBlocks, sb.blockSize) && k < sb.bitmapBlocks
    ensures |Part(bits, sb.blockSize, k)| == sb.blockSize
    ensures Times(k, sb.blockSize) + sb.blockSize <= |bits|
  {
    TimesMono(k + 1, sb.bitmapBlocks, sb.blockSize);
  }

  /** One more block read extends what has been read. */
  lemma PartExtends(bits: seq<Byte>, bs: nat, k: nat, o: nat)
    requires o == Times(k, bs) && o + bs <= |bits|
    ensures bits[..o + bs] == bits[..o] + Part(bits, bs, k)
  {
  }

  /** A new bitmap, once synced to its blocks, changes the marks and nothing else. */
  lemma HoldsBitmap(disk: seq<Block>, bits: seq<Byte>, v: Vol, after: seq<Block>, bits': seq<Byte>, used: seq<bool>)
    requires Holds(disk, bits, v) && Synced(disk, after, v.sb, bits')
    requires BitsAre(bits', used) && |used| == |v.used|
    ensures Holds(after, bits', v.(used := used))
  {
    var w := v.(used := used);
    forall id | 0 <= id < |v.inodes|
      ensures SlotHolds(after, w, id)
    {
      SlotKept(disk, bits, v, after, w, id);
    }
    forall k | 0 <= k < |after|
      ensures BlockHolds(after, bits', w, k)
    {
      assert BlockHolds(disk, bits, v, k);
      if v.sb.bitmapStart <= k < v.sb.inodeStart {
        PartSized(v.sb, bits', k - v.sb.bitmapStart);
      }
    }
  }

  lemma BitsSet(bits: seq<Byte>, used: seq<bool>, i: nat)
    requires BitsAre(bits, used) && i < |used| && i / 8 < |bits|
    ensures BitsAre(SetBit(bits, i), used[i := true])
  {
    var bits', used' := SetBit(bits, i), used[i := true];
    forall m | 0 <= m < |used'|
      ensures BitHolds(bits', used', m)
    {
      assert BitHolds(bits, used, m);
      SetBitAt(bits, i, m);
    }
  }

  lemma BitsCleared(bits: seq<Byte>, used: seq<bool>, i: nat)
    requires BitsAre(bits, used) && i < |used| && i / 8 < |bits|
    ensures BitsAre(ClearBit(bits, i), used[i := false])
  {
    var bits', used' := ClearBit(bits, i), used[i := false];
    forall m | 0 <= m < |used'|
      ensures BitHolds(bits', used', m)
    {
      assert BitHolds(bits, used, m);
      ClearBitAt(bits, i, m);
    }
  }

  /** Bit i set or cleared in the buffer, and the buffer synced. */
  lemma HoldsBit(disk: seq<Block>, bits: seq<Byte>, v: Vol, after: seq<Block>, i: nat, mark: bool)
    requires Holds(disk, bits, v) && i < |v.used| && i / 8 < |bits|
    requires Synced(disk, after, v.sb, if mark then SetBit(bits, i) else ClearBit(bits, i))
    ensures Holds(after, if mark then SetBit(bits, i) else ClearBit(bits, i), v.(used := v.used[i := mark]))
  {
    BitsSet(bits, v.used, i);
    BitsCleared(bits, v.used, i);
    HoldsBitmap(disk, bits, v, after, if mark then SetBit(bits, i) else ClearBit(bits, i), v.used[i := mark]);
  }

  /** A counter in the in-memory superblock is no part of the image. */
  lemma HoldsCounters(disk: seq<Block>, bits: seq<Byte>, v: Vol, sb: Superblock)
    requires Holds(disk, bits, v) && SameGeo(v.sb, sb)
    ensures Holds(disk, bits, v.(sb := sb))
  {
    var w := v.(sb := sb);
    forall id | 0 <= id < |v.inodes|
      ensures SlotHolds(disk, w, id)
    {
      SlotKept(disk, bits, v, disk, w, id);
    }
    forall k | 0 <= k < |disk|
      ensures BlockHolds(disk, bits, w, k)
    {
      BlockKept(disk, bits, v, disk, w, k);
    }
  }

  lemma MagicOnDisk(disk: seq<Block>, bits: seq<Byte>, v: Vol)
    requires Holds(disk, bits, v)
    ensures |disk| > 0 && SUPERBLOCK_SIZE <= |disk[0]|
    ensures DecodeSuperblock(disk[0][..SUPERBLOCK_SIZE]) == v.dsb && v.dsb.magic == FS_MAGIC
  {
    assert BlockHolds(disk, bits, v, 0);
  }

  /** A mounted disk: the superblock is the one block 0 holds. */
  lemma MountedHolds(disk: seq<Block>, bits: seq<Byte>, v: Vol, sb: Superblock)
    requires Holds(disk, bits, v) && |disk| > 0 && SUPERBLOCK_SIZE <= |disk[0]|
    requires sb == DecodeSuperblock(disk[0][..SUPERBLOCK_SIZE])
    ensures sb == v.dsb && Holds(disk, bits, v.(sb := sb))
  {
    assert BlockHolds(disk, bits, v, 0);
    HoldsCounters(disk, bits, v, sb);
  }

  /** The bitmap region of the disk is the buffer, cut into blocks. */
  ghost predicate RegionIs(disk: seq<Block>, sb: Superblock, bits: seq<Byte>) {
    && |bits| == Times(sb.bitmapBlocks, sb.blockSize) && sb.bitmapStart + sb.bitmapBlocks <= |disk|
    && forall k :: sb.bitmapStart <= k < sb.bitmapStart + sb.bitmapBlocks
                   ==> disk[k] == Part(bits, sb.blockSize, k - sb.bitmapStart)
  }

  lemma HoldsRegion(disk: seq<Block>, bits: seq<Byte>, v: Vol)
    requires Holds(disk, bits, v)
    ensures RegionIs(disk, v.sb, bits)
  {
    forall k | v.sb.bitmapStart <= k < v.sb.bitmapStart + v.sb.bitmapBlocks
      ensures disk[k] == Part(bits, v.sb.blockSize, k - v.sb.bitmapStart)
    {
      assert BlockHolds(disk, bits, v, k);
    }
  }

  /** The same, by the superblock on the disk. */
  lemma RegionOnDisk(disk: seq<Block>, bits: seq<Byte>, v: Vol)
    requires Holds(disk, bits, v)
    ensures RegionIs(disk, v.dsb, bits)
  {
    HoldsRegion(disk, bits, v);
  }

  // ---- a fresh disk ----

  function ZeroDisk(n: nat, bs: nat): (d: seq<Block>)
    ensures |d| == n && forall b :: 0 <= b < n ==> d[b] == Zeros(bs)
  {
    seq(n, b => Zeros(bs))
  }

  lemma ZeroPart(bits: seq<Byte>, bs: nat, k: nat)
    requires forall i :: 0 <= i < |bits| ==> bits[i] == 0
    requires Times(k, bs) + bs <= |bits|
    ensures Part(bits, bs, k) == Zeros(bs)
  {
  }

  lemma ZeroSlotHolds(disk: seq<Block>, v: Vol, id: nat)
    requires Blank(v) && id < |v.inodes| && |disk| == v.sb.totalBlocks
    requires forall b :: 0 < b < |disk| ==> disk[b] == Zeros(v.sb.blockSize)
    ensures SlotHolds(disk, v, id)
  {
    SlotInRegion(v.sb, id);
    assert Slot(disk, v.sb, id) == Zeros(INODE_SIZE);
    ZeroSlot();
  }

  lemma BlankBlock(disk: seq<Block>, bits: seq<Byte>, v: Vol, b: nat)
    requires Blank(v) && |disk| == v.sb.totalBlocks && disk[0] == SuperblockBlock(v.sb) && b < |disk|
    requires b > 0 ==> disk[b] == Zeros(v.sb.blockSize)
    requires |bits| == Times(v.sb.bitmapBlocks, v.sb.blockSize) && forall i :: 0 <= i < |bits| ==> bits[i] == 0
    ensures BlockHolds(disk, bits, v, b)
  {
    if b == 0 {
      SuperblockRead(v.sb);
    } else if v.sb.bitmapStart <= b < v.sb.inodeStart {
      BlankPart(bits, v.sb, b - v.sb.bitmapStart);
    }
  }

  lemma BlankPart(bits: seq<Byte>, sb: Superblock, k: nat)
    requires |bits| == Times(sb.bitmapBlocks, sb.blockSize) && k < sb.bitmapBlocks
    requires forall i :: 0 <= i < |bits| ==> bits[i] == 0
    ensures Part(bits, sb.blockSize, k) == Zeros(sb.blockSize)
  {
    PartSized(sb, bits, k);
    ZeroPart(bits, sb.blockSize, k);
  }

  lemma HoldsBlank(disk: seq<Block>, bits: seq<Byte>, v: Vol)
    requires Blank(v) && |disk| == v.sb.totalBlocks && disk[0] == SuperblockBlock(v.sb)
    requires forall b :: 0 < b < |disk| ==> disk[b] == Zeros(v.sb.blockSize)
    requires |bits| == Times(v.sb.bitmapBlocks, v.sb.blockSize) && forall i :: 0 <= i < |bits| ==> bits[i] == 0
    ensures Holds(disk, bits, v)
  {
    forall id | 0 <= id < |v.inodes|
      ensures SlotHolds(disk, v, id)
    {
      ZeroSlotHolds(disk, v, id);
    }
    forall b | 0 <= b < |disk|
      ensures BlockHolds(disk, bits, v, b)
    {
      BlankBlock(disk, bits, v, b);
    }
    forall i | 0 <= i < |v.used|
      ensures BitHolds(bits, v.used, i)
    {
      ZeroBits(bits, i);
    }
  }

  // ---- where another reader of the disk file finds things ----

  lemma BitShift(b: Byte, k: nat)
    requires k < 8
    ensures b & Mask(k) != 0 <==> (b >> k) & 1 == 1
  {
    if k == 0 {
    } else if k == 1 {
    } else if k == 2 {
    } else if k == 3 {
    } else if k == 4 {
    } else if k == 5 {
    } else if k == 6 {
    } else {
      assert k == 7;
    }
  }

  /** The byte of the bitmap at an offset of the region. */
  lemma RegionByte(disk: seq<Block>, bits: seq<Byte>, v: Vol, n: nat)
    requires Holds(disk, bits, v) && n < |bits|
    ensures var (k, o) := (Quot(n, v.sb.blockSize), Rem(n, v.sb.blockSize));
            1 + k < |disk| && o < |disk[1 + k]| && disk[1 + k][o] == bits[n]
  {
    var bs := v.sb.blockSize;
    var (k, o) := (Quot(n, bs), Rem(n, bs));
    QuotRem(n, bs);
    QuotLess(n, bs, v.sb.bitmapBlocks);
    TimesMono(k, v.sb.bitmapBlocks, bs);
    assert BlockHolds(disk, bits, v, 1 + k);
    assert Part(bits, bs, k)[o] == bits[Times(k, bs) + o];
  }

  /** The mark of block b is bit b mod 8 of byte b div 8 of the bitmap region, which starts at block 1. */
  lemma BitOnDisk(disk: seq<Block>, bits: seq<Byte>, v: Vol, b: nat)
    requires Holds(disk, bits, v) && b < v.sb.totalBlocks
    ensures var (k, o) := (1 + Quot(b / 8, v.sb.blockSize), Rem(b / 8, v.sb.blockSize));
            k < |disk| && o < |disk[k]| && (v.used[b] <==> (disk[k][o] >> (b % 8)) & 1 == 1)
  {
    assert BitHolds(bits, v.used, b);
    RegionByte(disk, bits, v, b / 8);
    BitShift(bits[b / 8], b % 8);
  }

  lemma SlotIs(sb: Superblock, id: nat, perBlock: nat, k: nat, o: nat)
    requires 144 <= sb.blockSize && 0 < perBlock == sb.blockSize / 144
    requires k == sb.inodeStart + Quot(id, perBlock) && o == Rem(id, perBlock) * 144
    ensures k == SlotBlock(sb, id) && o == SlotOffset(sb, id)
  {
  }

  lemma InodeInSlot(disk: seq<Block>, bits: seq<Byte>, v: Vol, id: nat, k: nat, o: nat)
    requires Holds(disk, bits, v) && id < v.sb.maxInodes && k == SlotBlock(v.sb, id) && o == SlotOffset(v.sb, id)
    ensures k < |disk| && o + 144 <= |disk[k]| && DecodeInode(disk[k][o..o + 144]) == v.inodes[id]
  {
    SlotInRegion(v.sb, id);
    assert SlotHolds(disk, v, id);
    assert BlockHolds(disk, bits, v, k);
  }

  /** Inode id is at block id div (bs div 144) of the inode region, in the slot of 144 bytes that the remainder
      numbers. */
  lemma InodeOnDisk(disk: seq<Block>, bits: seq<Byte>, v: Vol, id: nat, perBlock: nat, k: nat, o: nat)
    requires 144 <= v.sb.blockSize && 0 < perBlock == v.sb.blockSize / 144
    requires k == v.sb.inodeStart + Quot(id, perBlock) && o == Rem(id, perBlock) * 144
    requires Holds(disk, bits, v) && id < v.sb.maxInodes
    ensures k < |disk| && o + 144 <= |disk[k]| && DecodeInode(disk[k][o..o + 144]) == v.inodes[id]
  {
    SlotIs(v.sb, id, perBlock, k, o);
    InodeInSlot(disk, bits, v, id, k, o);
  }

  lemma ByteInBlock(disk: seq<Block>, bits: seq<Byte>, v: Vol, i: nat, j: nat)
    requires Holds(disk, bits, v) && i < |v.inodes| && j < v.inodes[i].size
    requires IsUsed(v.inodes[i]) && Ceil(v.inodes[i].size, v.sb.blockSize) <= 16
    requires PointersOk(v, Own(v.inodes[i], v.sb.blockSize))
    ensures Quot(j, v.sb.blockSize) < 16
    ensures var (b, o) := (v.inodes[i].direct[Quot(j, v.sb.blockSize)], Rem(j, v.sb.blockSize));
            b < |disk| && o < |disk[b]| && disk[b][o] == FileContents(v, i)[j]
  {
    var (ino, bs) := (v.inodes[i], v.sb.blockSize);
    ByteInBlocks(j, ino.size, bs);
    var b := ino.direct[Quot(j, bs)];
    assert Own(ino, bs)[Quot(j, bs)] == b;
    assert BlockHolds(disk, bits, v, b);
  }

  /** Byte j of a file is byte j mod bs of the block its pointer j div bs names. */
  lemma ByteOnDisk(disk: seq<Block>, bits: seq<Byte>, v: Vol, i: nat, j: nat)
    requires Holds(disk, bits, v) && Inv(v) && i < |v.inodes| && IsUsed(v.inodes[i]) && j < v.inodes[i].size
    ensures Quot(j, v.sb.blockSize) < 16
    ensures var (b, o) := (v.inodes[i].direct[Quot(j, v.sb.blockSize)], Rem(j, v.sb.blockSize));
            b < |disk| && o < |disk[b]| && disk[b][o] == FileContents(v, i)[j]
  {
    assert PointersOk(v, Own(v.inodes[i], v.sb.blockSize));
    ByteInBlock(disk, bits, v, i, j);
  }
}
