/** The records and constants of include/common.h. */
module Types {
  type Byte = bv8
  type Block = seq<Byte>

  const TWO32: int := 0x1_0000_0000
  const TWO64: int := 0x1_0000_0000_0000_0000

  type U32 = x: int | 0 <= x < TWO32
  type U64 = x: int | 0 <= x < TWO64

  const FS_MAGIC: U32 := 0x4D494E49
  const NAME_LEN: nat := 32
  const DIRECT: nat := 16
  const INODE_SIZE: nat := 144
  const SUPERBLOCK_SIZE: nat := 88

  /** FS_IFREG | FS_DEFAULT_MODE */
  const REGULAR_FILE_MODE: bv16 := 0x8000 | 0x01A4

  datatype Option<+T> = None | Some(value: T)

  /** A C string: no byte of it is the terminator. */
  predicate NoNul(s: seq<Byte>) { forall i :: 0 <= i < |s| ==> s[i] != 0 }
  type CString = s: seq<Byte> | NoNul(s) witness []

  datatype Superblock = Superblock(
    magic: U32, totalBlocks: U32, blockSize: U32, maxInodes: U32,
    freeBlocks: U32, freeInodes: U32,
    bitmapStart: U32, bitmapBlocks: U32, inodeStart: U32, inodeBlocks: U32,
    dataStart: U32, dataBlocks: U32,
    totalWrites: U64, totalReads: U64, bytesWritten: U64, bytesRead: U64,
    formattedAt: U64)

  datatype InodeRecord = InodeRecord(
    id: U32, size: U32, isUsed: Byte, mode: bv16,
    name: seq<Byte>, direct: seq<U32>,
    createdAt: U64, modifiedAt: U64, accessedAt: U64, linkCount: U32)

  type Inode = r: InodeRecord | |r.name| == NAME_LEN && |r.direct| == DIRECT
    witness InodeRecord(0, 0, 0, 0, seq(NAME_LEN, _ => 0), seq(DIRECT, _ => 0), 0, 0, 0, 0)

  function Zeros(n: nat): (b: Block)
    ensures |b| == n && forall i :: 0 <= i < n ==> b[i] == 0
  {
    seq(n, _ => 0)
  }

  /** memset(&inode, 0, sizeof(Inode)) */
  function ZeroInode(): Inode {
    InodeRecord(0, 0, 0, 0, Zeros(NAME_LEN), seq(DIRECT, _ => 0), 0, 0, 0, 0)
  }

  /** The integers from lo up to hi. */
  function Range(lo: int, hi: int): (r: set<int>)
    ensures |r| == Max(0, hi - lo) && forall b :: b in r <==> lo <= b < hi
    decreases hi - lo
  {
    if hi <= lo then {} else Range(lo, hi - 1) + {hi - 1}
  }

  function Min(a: int, b: int): int { if a < b then a else b }
  function Max(a: int, b: int): int { if a < b then b else a }
}
