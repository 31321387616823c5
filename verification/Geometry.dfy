/** The layout fs_format computes, with its 32-bit arithmetic written out, and what it guarantees. */
module Geometry {
  import opened Types
  import opened Arith

  /** Conversion to uint32_t, and to uint64_t: x modulo 2^32 and 2^64. */
  function Wrap(x: int): U32 { if 0 <= x < TWO32 then x else x % TWO32 }
  function Wrap64(x: int): U64 { if 0 <= x < TWO64 then x else x % TWO64 }

  datatype FormatOutcome =
    | BlockTooSmall            // refused before the disk file is opened
    | DivisionByZero           // block_size * 8 wraps to zero
    | DiskTooSmall             // refused after the disk file has been truncated
    | Formatted(sb: Superblock)

  /** src/fs.c:41-56 */
  function Layout(totalSize: U32, blockSize: U32, now: U64): FormatOutcome
  {
    if blockSize < INODE_SIZE then BlockTooSmall else
    var totalBlocks := Quot(totalSize, blockSize);
    var bitsPerBlock := Wrap(blockSize * 8);
    if bitsPerBlock == 0 then DivisionByZero else
    var bitmapBlocks := Quot(Wrap(totalBlocks + bitsPerBlock - 1), bitsPerBlock);
    var inodeBlocks := if totalBlocks / 10 == 0 then 1 else totalBlocks / 10;
    LayoutRegions(totalBlocks, blockSize, bitmapBlocks, inodeBlocks, now)
  }

  /** src/fs.c:58-92 */
  function LayoutRegions(totalBlocks: U32, blockSize: U32, bitmapBlocks: U32, inodeBlocks: U32, now: U64)
    : FormatOutcome
  {
    if Wrap(1 + bitmapBlocks + inodeBlocks) >= totalBlocks then DiskTooSmall else
    var maxInodes := Wrap(Times(blockSize / INODE_SIZE, inodeBlocks));
    if maxInodes == 0 then DiskTooSmall else
    var inodeStart := Wrap(1 + bitmapBlocks);
    var dataStart := Wrap(inodeStart + inodeBlocks);
    var dataBlocks := Wrap(totalBlocks - dataStart);
    Formatted(Superblock(FS_MAGIC, totalBlocks, blockSize, maxInodes, dataBlocks, maxInodes,
                         1, bitmapBlocks, inodeStart, inodeBlocks, dataStart, dataBlocks,
                         0, 0, 0, 0, now))
  }

  /** The regions tile [0, totalBlocks) in order, every block has a bitmap bit,
      and the disk fits 32-bit byte offsets. */
  ghost predicate Geo(sb: Superblock) {
    && sb.magic == FS_MAGIC
    && INODE_SIZE <= sb.blockSize
    && sb.bitmapStart == 1 && 1 <= sb.bitmapBlocks
    && sb.inodeStart == sb.bitmapStart + sb.bitmapBlocks && 1 <= sb.inodeBlocks
    && sb.dataStart == sb.inodeStart + sb.inodeBlocks && 1 <= sb.dataBlocks
    && sb.totalBlocks == sb.dataStart + sb.dataBlocks
    && sb.totalBlocks <= 8 * Times(sb.bitmapBlocks, sb.blockSize)
    && Times(sb.totalBlocks, sb.blockSize) < TWO32
    && sb.maxInodes == Times(sb.inodeBlocks, sb.blockSize / INODE_SIZE)
  }

  /** The counters apart, two superblocks describe the same layout. */
  ghost predicate SameGeo(a: Superblock, b: Superblock) {
    b == a.(freeBlocks := b.freeBlocks, freeInodes := b.freeInodes,
            totalWrites := b.totalWrites, totalReads := b.totalReads,
            bytesWritten := b.bytesWritten, bytesRead := b.bytesRead)
  }

  /** While block_size * 8 does not wrap, neither does the sum. */
  lemma BitmapBlocksSmall(totalBlocks: nat, blockSize: U32)
    requires INODE_SIZE <= blockSize < 0x2000_0000 && Times(totalBlocks, blockSize) < TWO32
    ensures totalBlocks + blockSize * 8 - 1 < TWO32
  {
    TimesIsProduct(totalBlocks, INODE_SIZE);
    TimesMonoRight(totalBlocks, INODE_SIZE, blockSize);
    if 0x1000_0000 <= blockSize {
      TimesIsProduct(totalBlocks, 0x1000_0000);
      TimesMonoRight(totalBlocks, 0x1000_0000, blockSize);
    }
    if 0x1FFF_FFFF <= blockSize {
      TimesIsProduct(totalBlocks, 0x1FFF_FFFF);
      TimesMonoRight(totalBlocks, 0x1FFF_FFFF, blockSize);
    }
  }

  lemma QuotOne(a: nat, d: nat)
    requires 1 <= a <= d
    ensures Quot(a + d - 1, d) == 1
  {
    assert Quot(a - 1, d) == 0;
  }

  /** When it does wrap there are at most 7 blocks, and one bitmap block is still right. */
  lemma BitmapBlocksLarge(totalBlocks: nat, blockSize: U32)
    requires 0x2000_0000 <= blockSize && Times(totalBlocks, blockSize) < TWO32
    requires Wrap(blockSize * 8) != 0
    ensures Quot(Wrap(totalBlocks + Wrap(blockSize * 8) - 1), Wrap(blockSize * 8))
            == Ceil(totalBlocks, 8 * blockSize)
  {
    TimesIsProduct(totalBlocks, 0x2000_0000);
    TimesMonoRight(totalBlocks, 0x2000_0000, blockSize);
    assert totalBlocks < 8;
    var d := Wrap(blockSize * 8);
    assert 8 <= d <= TWO32 - 8;
    if totalBlocks > 0 {
      QuotOne(totalBlocks, d);
      QuotOne(totalBlocks, 8 * blockSize);
    }
  }

  lemma BitmapBlocksExact(totalBlocks: nat, blockSize: U32)
    requires INODE_SIZE <= blockSize && Times(totalBlocks, blockSize) < TWO32
    requires Wrap(blockSize * 8) != 0
    ensures Quot(Wrap(totalBlocks + Wrap(blockSize * 8) - 1), Wrap(blockSize * 8))
            == Ceil(totalBlocks, 8 * blockSize)
  {
    if blockSize < 0x2000_0000 {
      BitmapBlocksSmall(totalBlocks, blockSize);
    } else {
      BitmapBlocksLarge(totalBlocks, blockSize);
    }
  }

  lemma InodesPerBlock(blockSize: U32, inodeBlocks: nat, totalBlocks: nat)
    requires INODE_SIZE <= blockSize && 1 <= inodeBlocks <= totalBlocks
    requires Times(totalBlocks, blockSize) < TWO32
    ensures 1 <= Times(inodeBlocks, blockSize / INODE_SIZE) < TWO32
    ensures Times(inodeBlocks, blockSize / INODE_SIZE) == Times(blockSize / INODE_SIZE, inodeBlocks)
  {
    TimesMono(1, inodeBlocks, blockSize / INODE_SIZE);
    TimesOne(blockSize / INODE_SIZE);
    TimesMonoRight(inodeBlocks, blockSize / INODE_SIZE, blockSize);
    TimesMono(inodeBlocks, totalBlocks, blockSize);
    TimesIsProduct(inodeBlocks, blockSize / INODE_SIZE);
    TimesIsProduct(blockSize / INODE_SIZE, inodeBlocks);
  }

  /** What a caller can check before fs_format to know whether it will be accepted. */
  ghost predicate Acceptable(totalSize: U32, blockSize: U32) {
    && 144 <= blockSize
    && blockSize % 0x2000_0000 != 0
    && var n := Quot(totalSize, blockSize);
       1 + Ceil(n, 8 * blockSize) + Max(1, n / 10) < n
  }

  /** The sums of the layout, none of which wraps. */
  lemma RegionsBounded(n: nat, blockSize: U32)
    requires INODE_SIZE <= blockSize && Times(n, blockSize) < TWO32
    ensures n < 0x200_0000
    ensures Ceil(n, 8 * blockSize) <= n
  {
    TimesIsProduct(n, INODE_SIZE);
    TimesMonoRight(n, INODE_SIZE, blockSize);
    TimesOne(n);
    TimesMonoRight(n, 1, 8 * blockSize);
    CeilLeast(n, 8 * blockSize, n);
  }

  lemma RegionNumbers(n: U32, blockSize: U32, bitmapBlocks: U32, inodeBlocks: U32, now: U64)
    requires INODE_SIZE <= blockSize && Times(n, blockSize) < TWO32
    requires n < 0x200_0000 && bitmapBlocks <= n && 1 <= inodeBlocks <= n + 1
    ensures var r := LayoutRegions(n, blockSize, bitmapBlocks, inodeBlocks, now);
            if 1 + bitmapBlocks + inodeBlocks >= n then r == DiskTooSmall
            else r.Formatted? && LaidOut(r.sb, n, blockSize, bitmapBlocks, inodeBlocks)
  {
    if 1 + bitmapBlocks + inodeBlocks < n {
      InodesPerBlock(blockSize, inodeBlocks, n);
    }
  }

  /** fs_format reaches the size check with these region sizes. */
  lemma LayoutIsRegions(totalSize: U32, blockSize: U32, now: U64, n: U32, bitmapBlocks: U32)
    requires INODE_SIZE <= blockSize && Wrap(blockSize * 8) != 0
    requires n == Quot(totalSize, blockSize)
    requires bitmapBlocks == Quot(Wrap(n + Wrap(blockSize * 8) - 1), Wrap(blockSize * 8))
    ensures Layout(totalSize, blockSize, now)
            == LayoutRegions(n, blockSize, bitmapBlocks, Max(1, n / 10), now)
  {
  }

  lemma LayoutNumbers(totalSize: U32, blockSize: U32, now: U64)
    requires INODE_SIZE <= blockSize && Wrap(blockSize * 8) != 0
    ensures var n := Quot(totalSize, blockSize);
            var bitmapBlocks := Ceil(n, 8 * blockSize);
            var inodeBlocks := Max(1, n / 10);
            var r := Layout(totalSize, blockSize, now);
            if 1 + bitmapBlocks + inodeBlocks >= n then r == DiskTooSmall
            else r.Formatted? && LaidOut(r.sb, n, blockSize, bitmapBlocks, inodeBlocks)
  {
    var n := Quot(totalSize, blockSize);
    QuotRem(totalSize, blockSize);
    BitmapBlocksExact(n, blockSize);
    RegionsBounded(n, blockSize);
    LayoutIsRegions(totalSize, blockSize, now, n, Ceil(n, 8 * blockSize));
    RegionNumbers(n, blockSize, Ceil(n, 8 * blockSize), Max(1, n / 10), now);
  }

  ghost predicate LaidOut(sb: Superblock, n: nat, blockSize: nat, bitmapBlocks: nat, inodeBlocks: nat)
    requires 144 <= blockSize
  {
    && sb.magic == 0x4D494E49 && sb.totalBlocks == n && sb.blockSize == blockSize
    && sb.bitmapStart == 1 && sb.bitmapBlocks == bitmapBlocks
    && sb.inodeStart == 1 + bitmapBlocks && sb.inodeBlocks == inodeBlocks
    && sb.dataStart == 1 + bitmapBlocks + inodeBlocks
    && sb.dataBlocks == n - sb.dataStart
    && sb.maxInodes == Times(inodeBlocks, blockSize / 144) && 1 <= sb.maxInodes
    && sb.freeBlocks == sb.dataBlocks && sb.freeInodes == sb.maxInodes
  }

  lemma {:induction false} TimesEight(c: nat, n: nat)
    ensures Times(c, 8 * n) == 8 * Times(c, n)
  {
    if c > 0 {
      TimesEight(c - 1, n);
    }
  }

  lemma WrapsToZero(blockSize: U32)
    ensures Wrap(blockSize * 8) == 0 <==> blockSize % 0x2000_0000 == 0
  {
  }

  /** Which sizes are accepted, rejected or crash the division. */
  lemma FormatAccepts(totalSize: U32, blockSize: U32, now: U64)
    ensures Layout(totalSize, blockSize, now).Formatted? <==> Acceptable(totalSize, blockSize)
    ensures Layout(totalSize, blockSize, now).DivisionByZero?
            <==> INODE_SIZE <= blockSize && blockSize % 0x2000_0000 == 0
  {
    WrapsToZero(blockSize);
    if INODE_SIZE <= blockSize && Wrap(blockSize * 8) != 0 {
      LayoutNumbers(totalSize, blockSize, now);
    }
  }

  /** Every accepted format lays the disk out soundly: the regions tile it, the bitmap has a
      bit for each block, there is at least one data block, and no 32-bit sum has wrapped. */
  lemma FormatTiles(totalSize: U32, blockSize: U32, now: U64)
    requires Layout(totalSize, blockSize, now).Formatted?
    ensures var sb := Layout(totalSize, blockSize, now).sb;
            && Geo(sb)
            && sb.totalBlocks == Quot(totalSize, blockSize)
            && sb.bitmapBlocks == Ceil(sb.totalBlocks, 8 * blockSize)
            && sb.inodeBlocks == Max(1, sb.totalBlocks / 10)
            && sb.freeBlocks == sb.dataBlocks && sb.freeInodes == sb.maxInodes
            && 1 <= sb.maxInodes
  {
    LayoutNumbers(totalSize, blockSize, now);
    var n := Quot(totalSize, blockSize);
    QuotRem(totalSize, blockSize);
    CeilBounds(n, 8 * blockSize);
    TimesEight(Ceil(n, 8 * blockSize), blockSize);
  }

  // ---- the packed inode table ----

  function PerBlock(sb: Superblock): (n: nat)
    requires INODE_SIZE <= sb.blockSize
    ensures 1 <= n && n * INODE_SIZE <= sb.blockSize
  {
    sb.blockSize / INODE_SIZE
  }

  function SlotBlock(sb: Superblock, id: nat): nat
    requires INODE_SIZE <= sb.blockSize
  {
    sb.inodeStart + Quot(id, PerBlock(sb))
  }

  function SlotOffset(sb: Superblock, id: nat): nat
    requires INODE_SIZE <= sb.blockSize
  {
    Rem(id, PerBlock(sb)) * INODE_SIZE
  }

  /** Every slot lies within one block of the inode region. */
  lemma SlotInRegion(sb: Superblock, id: nat)
    requires Geo(sb) && id < sb.maxInodes
    ensures sb.inodeStart <= SlotBlock(sb, id) < sb.dataStart
    ensures SlotOffset(sb, id) + INODE_SIZE <= sb.blockSize
  {
    QuotLess(id, PerBlock(sb), sb.inodeBlocks);
  }

  /** Two slots of one block do not overlap. */
  lemma SlotsApart(sb: Superblock, i: nat, j: nat)
    requires Geo(sb) && i != j && SlotBlock(sb, i) == SlotBlock(sb, j)
    ensures SlotOffset(sb, i) + INODE_SIZE <= SlotOffset(sb, j)
         || SlotOffset(sb, j) + INODE_SIZE <= SlotOffset(sb, i)
  {
    if Rem(i, PerBlock(sb)) == Rem(j, PerBlock(sb)) {
      QuotRemInjective(i, j, PerBlock(sb));
    }
  }
}
