/** The byte images of the two on-disk records: little-endian fields at the offsets
    the structs of include/common.h have on a 64-bit target. */
module Codec {
  import opened Types

  function Pow256(n: nat): nat { if n == 0 then 1 else 256 * Pow256(n - 1) }

  function EncodeLE(x: nat, n: nat): (r: seq<Byte>)
    ensures |r| == n
  {
    if n == 0 then [] else [(x % 256) as Byte] + EncodeLE(x / 256, n - 1)
  }

  function DecodeLE(b: seq<Byte>): (x: nat)
    ensures x < Pow256(|b|)
  {
    if |b| == 0 then 0 else (b[0] as nat) + 256 * DecodeLE(b[1..])
  }

  lemma {:induction false} EveryByteValue(x: nat) returns (b: Byte)
    requires x < 256
    ensures b as nat == x
  {
    if x == 0 {
      b := 0;
    } else {
      var c := EveryByteValue(x - 1);
      b := c + 1;
    }
  }

  lemma ByteRoundTrip(x: nat)
    requires x < 256
    ensures (x as Byte) as nat == x
  {
    var b := EveryByteValue(x);
    assert (b as nat) as Byte == b;
  }

  lemma {:induction false} LERoundTrip(x: nat, n: nat)
    requires x < Pow256(n)
    ensures DecodeLE(EncodeLE(x, n)) == x
  {
    if n > 0 {
      LERoundTrip(x / 256, n - 1);
      assert EncodeLE(x, n)[1..] == EncodeLE(x / 256, n - 1);
      ByteRoundTrip(x % 256);
    }
  }

  function Sum(widths: seq<nat>): nat {
    if widths == [] then 0 else widths[0] + Sum(widths[1..])
  }

  ghost predicate Fits(vals: seq<nat>, widths: seq<nat>) {
    |vals| == |widths| && forall k :: 0 <= k < |vals| ==> vals[k] < Pow256(widths[k])
  }

  function EncodeFields(vals: seq<nat>, widths: seq<nat>): (r: seq<Byte>)
    requires |vals| == |widths|
    ensures |r| == Sum(widths)
  {
    if vals == [] then [] else EncodeLE(vals[0], widths[0]) + EncodeFields(vals[1..], widths[1..])
  }

  function DecodeFields(b: seq<Byte>, widths: seq<nat>): (vals: seq<nat>)
    requires |b| == Sum(widths)
    ensures Fits(vals, widths)
  {
    if widths == [] then [] else
      [DecodeLE(b[..widths[0]])] + DecodeFields(b[widths[0]..], widths[1..])
  }

  lemma {:induction false} FieldsRoundTrip(vals: seq<nat>, widths: seq<nat>)
    requires Fits(vals, widths)
    ensures DecodeFields(EncodeFields(vals, widths), widths) == vals
  {
    if vals != [] {
      var head, tail := EncodeLE(vals[0], widths[0]), EncodeFields(vals[1..], widths[1..]);
      var b := EncodeFields(vals, widths);
      assert b[..widths[0]] == head && b[widths[0]..] == tail;
      LERoundTrip(vals[0], widths[0]);
      FieldsRoundTrip(vals[1..], widths[1..]);
      assert vals == [vals[0]] + vals[1..];
    }
  }

  lemma Powers()
    ensures Pow256(1) == 256 && Pow256(2) == 65536
    ensures Pow256(4) == TWO32 && Pow256(8) == TWO64
  {
  }

  lemma {:induction false} SumRepeat(n: nat, w: nat)
    ensures Sum(seq(n, _ => w)) == n * w
  {
    if n > 0 {
      assert seq(n, _ => w)[1..] == seq(n - 1, _ => w);
      SumRepeat(n - 1, w);
    }
  }

  // ---- superblock: twelve 32-bit fields, then five 64-bit ones ----

  const SB_WIDTHS: seq<nat> := [4, 4, 4, 4, 4, 4, 4, 4, 4, 4, 4, 4] + [8, 8, 8, 8, 8]

  lemma SuperblockWidths()
    ensures Sum(SB_WIDTHS) == SUPERBLOCK_SIZE
  {
    SumConcat(SB_WIDTHS[..12], SB_WIDTHS[12..]);
    assert SB_WIDTHS[..12] == seq(12, _ => 4) && SB_WIDTHS[12..] == seq(5, _ => 8);
    assert SB_WIDTHS == SB_WIDTHS[..12] + SB_WIDTHS[12..];
    SumRepeat(12, 4);
    SumRepeat(5, 8);
  }

  lemma {:induction false} SumConcat(a: seq<nat>, b: seq<nat>)
    ensures Sum(a + b) == Sum(a) + Sum(b)
  {
    if a == [] {
      assert a + b == b;
    } else {
      assert (a + b)[1..] == a[1..] + b;
      SumConcat(a[1..], b);
    }
  }

  function SuperblockFields(s: Superblock): seq<nat> {
    [s.magic, s.totalBlocks, s.blockSize, s.maxInodes, s.freeBlocks, s.freeInodes,
     s.bitmapStart, s.bitmapBlocks, s.inodeStart, s.inodeBlocks, s.dataStart, s.dataBlocks]
    + [s.totalWrites, s.totalReads, s.bytesWritten, s.bytesRead, s.formattedAt]
  }

  function EncodeSuperblock(s: Superblock): (b: seq<Byte>)
    ensures |b| == SUPERBLOCK_SIZE
  {
    SuperblockWidths();
    EncodeFields(SuperblockFields(s), SB_WIDTHS)
  }

  function DecodeSuperblock(b: seq<Byte>): Superblock
    requires |b| == SUPERBLOCK_SIZE
  {
    SuperblockWidths();
    Powers();
    var f := DecodeFields(b, SB_WIDTHS);
    Superblock(f[0], f[1], f[2], f[3], f[4], f[5], f[6], f[7], f[8], f[9], f[10], f[11],
               f[12], f[13], f[14], f[15], f[16])
  }

  lemma SuperblockRoundTrip(s: Superblock)
    ensures DecodeSuperblock(EncodeSuperblock(s)) == s
  {
    SuperblockWidths();
    Powers();
    FieldsRoundTrip(SuperblockFields(s), SB_WIDTHS);
  }

  // ---- inode: id, size, is_used, a hole, mode; name; pointers; hole, times, links, tail padding ----

  const HEAD_WIDTHS: seq<nat> := [4, 4, 1, 1, 2]
  const TAIL_WIDTHS: seq<nat> := [4, 8, 8, 8, 4, 4]

  function PointerWidths(): (w: seq<nat>)
    ensures |w| == DIRECT && Sum(w) == 64
  {
    SumRepeat(DIRECT, 4);
    seq(DIRECT, _ => 4)
  }

  lemma InodeWidths()
    ensures Sum(HEAD_WIDTHS) == 12 && Sum(TAIL_WIDTHS) == 36
  {
    assert Sum([2]) == 2 && Sum([1, 2]) == 3 && Sum([1, 1, 2]) == 4 && Sum([4, 1, 1, 2]) == 8;
    assert Sum([4]) == 4 && Sum([4, 4]) == 8 && Sum([8, 4, 4]) == 16 && Sum([8, 8, 4, 4]) == 24;
    assert Sum([8, 8, 8, 4, 4]) == 32;
    assert HEAD_WIDTHS[1..] == [4, 1, 1, 2] && TAIL_WIDTHS[1..] == [8, 8, 8, 4, 4];
  }

  function HeadFields(i: Inode): seq<nat> {
    [i.id, i.size, i.isUsed as nat, 0, i.mode as nat]
  }

  function TailFields(i: Inode): seq<nat> {
    [0, i.createdAt, i.modifiedAt, i.accessedAt, i.linkCount, 0]
  }

  function Pointers(i: Inode): (p: seq<nat>)
    ensures |p| == DIRECT && forall k :: 0 <= k < DIRECT ==> p[k] == i.direct[k]
  {
    seq(DIRECT, k requires 0 <= k < DIRECT => i.direct[k])
  }

  function EncodeInode(i: Inode): (b: seq<Byte>)
    ensures |b| == INODE_SIZE
  {
    InodeWidths();
    EncodeFields(HeadFields(i), HEAD_WIDTHS) + i.name
    + EncodeFields(Pointers(i), PointerWidths()) + EncodeFields(TailFields(i), TAIL_WIDTHS)
  }

  function DecodePointers(b: seq<Byte>): (p: seq<U32>)
    requires |b| == 64
    ensures |p| == DIRECT
  {
    Powers();
    var f := DecodeFields(b, PointerWidths());
    seq(DIRECT, k requires 0 <= k < DIRECT => f[k])
  }

  function DecodeHead(b: seq<Byte>): (h: seq<nat>)
    requires |b| == 12
    ensures |h| == 5 && h[0] < TWO32 && h[1] < TWO32 && h[2] < 256 && h[4] < 65536
  {
    InodeWidths();
    Powers();
    DecodeFields(b, HEAD_WIDTHS)
  }

  function DecodeTail(b: seq<Byte>): (t: seq<nat>)
    requires |b| == 36
    ensures |t| == 6 && t[1] < TWO64 && t[2] < TWO64 && t[3] < TWO64 && t[4] < TWO32
  {
    InodeWidths();
    Powers();
    DecodeFields(b, TAIL_WIDTHS)
  }

  function DecodeInode(b: seq<Byte>): Inode
    requires |b| == INODE_SIZE
  {
    var h := DecodeHead(b[..12]);
    var t := DecodeTail(b[108..]);
    InodeRecord(h[0], h[1], h[2] as Byte, h[4] as bv16, b[12..44], DecodePointers(b[44..108]),
                t[1], t[2], t[3], t[4])
  }

  lemma BitVectorsRoundTrip(b: Byte, m: bv16)
    ensures (b as nat) < 256 && (b as nat) as Byte == b
    ensures (m as nat) < 65536 && (m as nat) as bv16 == m
  {
  }

  /** Four parts, concatenated and cut out again. */
  lemma Parts(h: seq<Byte>, n: seq<Byte>, p: seq<Byte>, t: seq<Byte>)
    requires |h| == 12 && |n| == 32 && |p| == 64 && |t| == 36
    ensures var b := h + n + p + t;
            b[..12] == h && b[12..44] == n && b[44..108] == p && b[108..] == t
  {
  }

  /** Where each part of the struct sits in its image. */
  lemma InodeParts(i: Inode)
    ensures var b := EncodeInode(i);
            && b[..12] == EncodeFields(HeadFields(i), HEAD_WIDTHS)
            && b[12..44] == i.name
            && b[44..108] == EncodeFields(Pointers(i), PointerWidths())
            && b[108..] == EncodeFields(TailFields(i), TAIL_WIDTHS)
  {
    InodeWidths();
    Parts(EncodeFields(HeadFields(i), HEAD_WIDTHS), i.name,
          EncodeFields(Pointers(i), PointerWidths()), EncodeFields(TailFields(i), TAIL_WIDTHS));
  }

  lemma HeadRoundTrip(i: Inode)
    ensures |EncodeFields(HeadFields(i), HEAD_WIDTHS)| == 12
    ensures DecodeHead(EncodeFields(HeadFields(i), HEAD_WIDTHS)) == HeadFields(i)
  {
    InodeWidths();
    Powers();
    BitVectorsRoundTrip(i.isUsed, i.mode);
    FieldsRoundTrip(HeadFields(i), HEAD_WIDTHS);
  }

  lemma TailRoundTrip(i: Inode)
    ensures |EncodeFields(TailFields(i), TAIL_WIDTHS)| == 36
    ensures DecodeTail(EncodeFields(TailFields(i), TAIL_WIDTHS)) == TailFields(i)
  {
    InodeWidths();
    Powers();
    FieldsRoundTrip(TailFields(i), TAIL_WIDTHS);
  }

  lemma PointersRoundTrip(i: Inode)
    ensures DecodePointers(EncodeFields(Pointers(i), PointerWidths())) == i.direct
  {
    Powers();
    FieldsRoundTrip(Pointers(i), PointerWidths());
  }

  lemma InodeRoundTrip(i: Inode)
    ensures DecodeInode(EncodeInode(i)) == i
  {
    InodeParts(i);
    HeadRoundTrip(i);
    TailRoundTrip(i);
    PointersRoundTrip(i);
    BitVectorsRoundTrip(i.isUsed, i.mode);
  }

  lemma ZeroParts()
    ensures Zeros(12) + Zeros(32) + Zeros(64) + Zeros(36) == Zeros(INODE_SIZE)
  {
  }

  lemma ZeroImage(i: Inode)
    requires i.id == 0 && i.size == 0 && i.isUsed == 0 && i.mode == 0 && i.linkCount == 0
    requires i.createdAt == 0 && i.modifiedAt == 0 && i.accessedAt == 0
    requires i.name == Zeros(NAME_LEN) && forall k :: 0 <= k < DIRECT ==> i.direct[k] == 0
    ensures EncodeInode(i) == Zeros(INODE_SIZE)
  {
    InodeWidths();
    ZeroHead(i);
    ZeroFields(Pointers(i), PointerWidths());
    ZeroFields(TailFields(i), TAIL_WIDTHS);
    ZeroParts();
  }

  lemma ZeroHead(i: Inode)
    requires i.id == 0 && i.size == 0 && i.isUsed == 0 && i.mode == 0
    ensures EncodeFields(HeadFields(i), HEAD_WIDTHS) == Zeros(Sum(HEAD_WIDTHS))
  {
    ZeroFields(HeadFields(i), HEAD_WIDTHS);
  }

  /** A zeroed slot reads back as the zeroed inode, which is not in use. */
  lemma ZeroSlot()
    ensures DecodeInode(Zeros(INODE_SIZE)) == ZeroInode()
  {
    ZeroImage(ZeroInode());
    InodeRoundTrip(ZeroInode());
  }

  lemma {:induction false} ZeroLE(n: nat)
    ensures EncodeLE(0, n) == Zeros(n)
  {
    if n > 0 {
      ZeroLE(n - 1);
    }
  }

  lemma {:induction false} ZeroFields(vals: seq<nat>, widths: seq<nat>)
    requires |vals| == |widths| && forall k :: 0 <= k < |vals| ==> vals[k] == 0
    ensures EncodeFields(vals, widths) == Zeros(Sum(widths))
  {
    if vals != [] {
      ZeroLE(widths[0]);
      ZeroFields(vals[1..], widths[1..]);
    }
  }

  // ---- the offsets ----

  /** The 16-, 32- and 64-bit little-endian numbers at an offset. */
  function Little16(b: seq<Byte>, o: nat): nat
    requires o + 2 <= |b|
  {
    (b[o] as nat) + 0x100 * (b[o + 1] as nat)
  }

  function Little32(b: seq<Byte>, o: nat): nat
    requires o + 4 <= |b|
  {
    Little16(b, o) + 0x1_0000 * Little16(b, o + 2)
  }

  function Little64(b: seq<Byte>, o: nat): nat
    requires o + 8 <= |b|
  {
    Little32(b, o) + 0x1_0000_0000 * Little32(b, o + 4)
  }

  lemma TwoMore(b: seq<Byte>, o: nat, n: nat)
    requires o + 2 + n <= |b|
    ensures DecodeLE(b[o..o + 2 + n]) == Little16(b, o) + 0x1_0000 * DecodeLE(b[o + 2..o + 2 + n])
  {
    var part := b[o..o + 2 + n];
    assert part[1..][1..] == b[o + 2..o + 2 + n];
    assert DecodeLE(part[1..]) == (b[o + 1] as nat) + 256 * DecodeLE(part[1..][1..]);
  }

  lemma DecodeIsLittle16(b: seq<Byte>, o: nat)
    requires o + 2 <= |b|
    ensures DecodeLE(b[o..o + 2]) == Little16(b, o)
  {
    TwoMore(b, o, 0);
    assert b[o + 2..o + 2] == [];
  }

  lemma DecodeIsLittle32(b: seq<Byte>, o: nat)
    requires o + 4 <= |b|
    ensures DecodeLE(b[o..o + 4]) == Little32(b, o)
  {
    TwoMore(b, o, 2);
    DecodeIsLittle16(b, o + 2);
  }

  lemma DecodeIsLittle64(b: seq<Byte>, o: nat)
    requires o + 8 <= |b|
    ensures DecodeLE(b[o..o + 8]) == Little64(b, o)
  {
    TwoMore(b, o, 6);
    TwoMore(b, o + 2, 4);
    DecodeIsLittle32(b, o + 4);
  }

  /** Field k starts behind the widths of those before it. */
  lemma {:induction false} FieldAt(vals: seq<nat>, widths: seq<nat>, b: seq<Byte>, k: nat, o: nat)
    requires Fits(vals, widths) && b == EncodeFields(vals, widths) && k < |vals| && o == Sum(widths[..k])
    ensures o + widths[k] <= |b| && b[o..o + widths[k]] == EncodeLE(vals[k], widths[k])
    decreases k
  {
    var w := widths[0];
    var rest := EncodeFields(vals[1..], widths[1..]);
    if k > 0 {
      assert widths[..k][1..] == widths[1..][..k - 1];
      FieldAt(vals[1..], widths[1..], rest, k - 1, o - w);
      Behind(b, EncodeLE(vals[0], w), rest, o - w, widths[k]);
    }
  }

  lemma Behind(b: seq<Byte>, first: seq<Byte>, rest: seq<Byte>, o: nat, n: nat)
    requires b == first + rest && o + n <= |rest|
    ensures b[|first| + o..|first| + o + n] == rest[o..o + n]
  {
  }

  lemma ByteAt(vals: seq<nat>, widths: seq<nat>, b: seq<Byte>, k: nat, o: nat)
    requires Fits(vals, widths) && b == EncodeFields(vals, widths) && k < |vals|
    requires o == Sum(widths[..k]) && widths[k] == 1
    ensures o + 1 <= |b| && b[o] as nat == vals[k]
  {
    FieldAt(vals, widths, b, k, o);
    LERoundTrip(vals[k], 1);
    assert b[o..o + 1][1..] == [];
  }

  lemma HalfAt(vals: seq<nat>, widths: seq<nat>, b: seq<Byte>, k: nat, o: nat)
    requires Fits(vals, widths) && b == EncodeFields(vals, widths) && k < |vals|
    requires o == Sum(widths[..k]) && widths[k] == 2
    ensures o + 2 <= |b| && Little16(b, o) == vals[k]
  {
    FieldAt(vals, widths, b, k, o);
    LERoundTrip(vals[k], 2);
    DecodeIsLittle16(b, o);
  }

  lemma WordAt(vals: seq<nat>, widths: seq<nat>, b: seq<Byte>, k: nat, o: nat)
    requires Fits(vals, widths) && b == EncodeFields(vals, widths) && k < |vals|
    requires o == Sum(widths[..k]) && widths[k] == 4
    ensures o + 4 <= |b| && Little32(b, o) == vals[k]
  {
    FieldAt(vals, widths, b, k, o);
    LERoundTrip(vals[k], 4);
    DecodeIsLittle32(b, o);
  }

  lemma LongAt(vals: seq<nat>, widths: seq<nat>, b: seq<Byte>, k: nat, o: nat)
    requires Fits(vals, widths) && b == EncodeFields(vals, widths) && k < |vals|
    requires o == Sum(widths[..k]) && widths[k] == 8
    ensures o + 8 <= |b| && Little64(b, o) == vals[k]
  {
    FieldAt(vals, widths, b, k, o);
    LERoundTrip(vals[k], 8);
    DecodeIsLittle64(b, o);
  }

  lemma NextOffset(w: seq<nat>, k: nat)
    requires k < |w|
    ensures Sum(w[..0]) == 0 && Sum(w[..k + 1]) == Sum(w[..k]) + w[k]
  {
    assert w[..k + 1] == w[..k] + [w[k]];
    SumConcat(w[..k], [w[k]]);
    assert Sum([w[k]]) == w[k];
  }

  /** Behind equal widths. */
  lemma {:induction false} EvenOffset(w: seq<nat>, from: nat, k: nat, width: nat)
    requires from + k <= |w| && forall j :: from <= j < from + k ==> w[j] == width
    ensures Sum(w[..from + k]) == Sum(w[..from]) + width * k
  {
    if k > 0 {
      EvenOffset(w, from, k - 1, width);
      NextOffset(w, from + k - 1);
    }
  }

  lemma SuperblockFits(s: Superblock)
    ensures Fits(SuperblockFields(s), SB_WIDTHS)
  {
    Powers();
  }

  lemma SuperblockOffsets(widths: seq<nat>)
    requires |widths| == 17
    requires (forall k :: 0 <= k < 12 ==> widths[k] == 4) && (forall k :: 12 <= k < 17 ==> widths[k] == 8)
    ensures Sum(widths) == 88
    ensures forall k: nat :: k < 12 ==> Sum(widths[..k]) == 4 * k
    ensures forall k: nat :: k < 5 ==> Sum(widths[..12 + k]) == 48 + 8 * k
  {
    EvenOffset(widths, 0, 12, 4);
    EvenOffset(widths, 12, 5, 8);
    assert widths[..17] == widths && widths[..0] == [];
    forall k: nat | k < 12
      ensures Sum(widths[..k]) == 4 * k
    {
      EvenOffset(widths, 0, k, 4);
    }
    forall k: nat | k < 5
      ensures Sum(widths[..12 + k]) == 48 + 8 * k
    {
      EvenOffset(widths, 12, k, 8);
    }
  }

  /** The superblock's image: twelve 32-bit numbers from offset 0 and five 64-bit ones from offset 48,
      little-endian. */
  lemma SuperblockWords(vals: seq<nat>, widths: seq<nat>, b: seq<Byte>)
    requires Fits(vals, widths) && b == EncodeFields(vals, widths) && |vals| == 17
    requires (forall k :: 0 <= k < 12 ==> widths[k] == 4) && (forall k :: 12 <= k < 17 ==> widths[k] == 8)
    ensures |b| == 88
    ensures forall k: nat :: k < 12 ==> Little32(b, 4 * k) == vals[k]
    ensures forall k: nat :: k < 5 ==> Little64(b, 48 + 8 * k) == vals[12 + k]
  {
    SuperblockOffsets(widths);
    forall k: nat | k < 12
      ensures Little32(b, 4 * k) == vals[k]
    {
      WordAt(vals, widths, b, k, 4 * k);
    }
    forall k: nat | k < 5
      ensures Little64(b, 48 + 8 * k) == vals[12 + k]
    {
      LongAt(vals, widths, b, 12 + k, 48 + 8 * k);
    }
  }

  /** The superblock's image, field by field in the struct's order. */
  lemma SuperblockLayout(s: Superblock)
    ensures var b := EncodeSuperblock(s);
            && |b| == 88
            && Little32(b, 0) == s.magic && Little32(b, 4) == s.totalBlocks && Little32(b, 8) == s.blockSize
            && Little32(b, 12) == s.maxInodes && Little32(b, 16) == s.freeBlocks && Little32(b, 20) == s.freeInodes
            && Little32(b, 24) == s.bitmapStart && Little32(b, 28) == s.bitmapBlocks
            && Little32(b, 32) == s.inodeStart && Little32(b, 36) == s.inodeBlocks
            && Little32(b, 40) == s.dataStart && Little32(b, 44) == s.dataBlocks
            && Little64(b, 48) == s.totalWrites && Little64(b, 56) == s.totalReads
            && Little64(b, 64) == s.bytesWritten && Little64(b, 72) == s.bytesRead
            && Little64(b, 80) == s.formattedAt
  {
    var b := EncodeSuperblock(s);
    SuperblockFits(s);
    SuperblockWords(SuperblockFields(s), SB_WIDTHS, b);
    SuperblockNamed(s, b);
  }

  lemma SuperblockNamed(s: Superblock, b: seq<Byte>)
    requires |b| == 88
    requires forall k: nat :: k < 12 ==> Little32(b, 4 * k) == SuperblockFields(s)[k]
    requires forall k: nat :: k < 5 ==> Little64(b, 48 + 8 * k) == SuperblockFields(s)[12 + k]
    ensures Little32(b, 0) == s.magic && Little32(b, 4) == s.totalBlocks && Little32(b, 8) == s.blockSize
    ensures Little32(b, 12) == s.maxInodes && Little32(b, 16) == s.freeBlocks && Little32(b, 20) == s.freeInodes
    ensures Little32(b, 24) == s.bitmapStart && Little32(b, 28) == s.bitmapBlocks
    ensures Little32(b, 32) == s.inodeStart && Little32(b, 36) == s.inodeBlocks
    ensures Little32(b, 40) == s.dataStart && Little32(b, 44) == s.dataBlocks
    ensures Little64(b, 48) == s.totalWrites && Little64(b, 56) == s.totalReads
    ensures Little64(b, 64) == s.bytesWritten && Little64(b, 72) == s.bytesRead
    ensures Little64(b, 80) == s.formattedAt
  {
    var f := SuperblockFields(s);
    assert Little32(b, 4 * 0) == f[0] && Little32(b, 4 * 1) == f[1] && Little32(b, 4 * 2) == f[2];
    assert Little32(b, 4 * 3) == f[3] && Little32(b, 4 * 4) == f[4] && Little32(b, 4 * 5) == f[5];
    assert Little32(b, 4 * 6) == f[6] && Little32(b, 4 * 7) == f[7] && Little32(b, 4 * 8) == f[8];
    assert Little32(b, 4 * 9) == f[9] && Little32(b, 4 * 10) == f[10] && Little32(b, 4 * 11) == f[11];
    assert Little64(b, 48 + 8 * 0) == f[12] && Little64(b, 48 + 8 * 1) == f[13];
    assert Little64(b, 48 + 8 * 2) == f[14] && Little64(b, 48 + 8 * 3) == f[15];
    assert Little64(b, 48 + 8 * 4) == f[16];
  }

  lemma ByteBounds(x: Byte)
    ensures x as nat < 256
  {
  }

  lemma SameByte(x: Byte, y: Byte)
    requires x as nat == y as nat
    ensures x == y
  {
    assert (x as nat) as Byte == x;
  }

  lemma MagicIs(a0: nat, a1: nat, a2: nat, a3: nat)
    requires a0 < 0x100 && a1 < 0x100 && a2 < 0x100 && a3 < 0x100
    requires a0 + 0x100 * a1 + 0x1_0000 * (a2 + 0x100 * a3) == 0x4D49_4E49
    ensures a0 == 0x49 && a1 == 0x4E && a2 == 0x49 && a3 == 0x4D
  {
  }

  lemma Word(b: seq<Byte>) returns (a0: nat, a1: nat, a2: nat, a3: nat)
    requires |b| >= 4
    ensures a0 == b[0] as nat && a1 == b[1] as nat && a2 == b[2] as nat && a3 == b[3] as nat
    ensures a0 < 0x100 && a1 < 0x100 && a2 < 0x100 && a3 < 0x100
    ensures Little32(b, 0) == a0 + 0x100 * a1 + 0x1_0000 * (a2 + 0x100 * a3)
  {
    ByteBounds(b[0]);
    ByteBounds(b[1]);
    ByteBounds(b[2]);
    ByteBounds(b[3]);
    a0, a1, a2, a3 := b[0] as nat, b[1] as nat, b[2] as nat, b[3] as nat;
  }

  /** The magic number on disk: the letters of "MINI", last first. */
  lemma MagicBytes(s: Superblock)
    requires s.magic == FS_MAGIC
    ensures var b := EncodeSuperblock(s);
            b[0] as nat == 0x49 && b[1] as nat == 0x4E && b[2] as nat == 0x49 && b[3] as nat == 0x4D
  {
    SuperblockLayout(s);
    var a0, a1, a2, a3 := Word(EncodeSuperblock(s));
    MagicIs(a0, a1, a2, a3);
  }

  lemma HeadOffsets(w: seq<nat>)
    requires |w| == 5 && w[0] == 4 && w[1] == 4 && w[2] == 1 && w[3] == 1 && w[4] == 2
    ensures Sum(w[..0]) == 0 && Sum(w[..1]) == 4 && Sum(w[..2]) == 8 && Sum(w[..3]) == 9 && Sum(w[..4]) == 10
    ensures Sum(w) == 12
  {
    NextOffset(w, 0);
    NextOffset(w, 1);
    NextOffset(w, 2);
    NextOffset(w, 3);
    NextOffset(w, 4);
    assert w[..5] == w;
  }

  lemma HeadOf(vals: seq<nat>, w: seq<nat>, h: seq<Byte>)
    requires Fits(vals, w) && h == EncodeFields(vals, w)
    requires |w| == 5 && w[0] == 4 && w[1] == 4 && w[2] == 1 && w[3] == 1 && w[4] == 2
    ensures |h| == 12 && Little32(h, 0) == vals[0] && Little32(h, 4) == vals[1]
    ensures h[8] as nat == vals[2] && h[9] as nat == vals[3] && Little16(h, 10) == vals[4]
  {
    HeadOffsets(w);
    WordAt(vals, w, h, 0, 0);
    WordAt(vals, w, h, 1, 4);
    ByteAt(vals, w, h, 2, 8);
    ByteAt(vals, w, h, 3, 9);
    HalfAt(vals, w, h, 4, 10);
  }

  lemma InodeHead(i: Inode, h: seq<Byte>)
    requires h == EncodeFields(HeadFields(i), HEAD_WIDTHS)
    ensures |h| == 12 && Little32(h, 0) == i.id && Little32(h, 4) == i.size
    ensures h[8] == i.isUsed && h[9] == 0 && Little16(h, 10) == i.mode as nat
  {
    Powers();
    BitVectorsRoundTrip(i.isUsed, i.mode);
    HeadOf(HeadFields(i), HEAD_WIDTHS, h);
    SameByte(h[8], i.isUsed);
    SameByte(h[9], 0);
  }

  lemma TailOffsets(w: seq<nat>)
    requires |w| == 6 && w[0] == 4 && w[1] == 8 && w[2] == 8 && w[3] == 8 && w[4] == 4 && w[5] == 4
    ensures Sum(w[..0]) == 0 && Sum(w[..1]) == 4 && Sum(w[..2]) == 12 && Sum(w[..3]) == 20 && Sum(w[..4]) == 28
    ensures Sum(w[..5]) == 32 && Sum(w) == 36
  {
    NextOffset(w, 0);
    NextOffset(w, 1);
    NextOffset(w, 2);
    NextOffset(w, 3);
    NextOffset(w, 4);
    NextOffset(w, 5);
    assert w[..6] == w;
  }

  lemma TailOf(vals: seq<nat>, w: seq<nat>, t: seq<Byte>)
    requires Fits(vals, w) && t == EncodeFields(vals, w)
    requires |w| == 6 && w[0] == 4 && w[1] == 8 && w[2] == 8 && w[3] == 8 && w[4] == 4 && w[5] == 4
    ensures |t| == 36 && Little32(t, 0) == vals[0] && Little64(t, 4) == vals[1] && Little64(t, 12) == vals[2]
    ensures Little64(t, 20) == vals[3] && Little32(t, 28) == vals[4] && Little32(t, 32) == vals[5]
  {
    TailOffsets(w);
    WordAt(vals, w, t, 0, 0);
    LongAt(vals, w, t, 1, 4);
    LongAt(vals, w, t, 2, 12);
    LongAt(vals, w, t, 3, 20);
    WordAt(vals, w, t, 4, 28);
    WordAt(vals, w, t, 5, 32);
  }

  lemma InodeTail(i: Inode, t: seq<Byte>)
    requires t == EncodeFields(TailFields(i), TAIL_WIDTHS)
    ensures |t| == 36 && Little64(t, 4) == i.createdAt && Little64(t, 12) == i.modifiedAt
    ensures Little64(t, 20) == i.accessedAt && Little32(t, 28) == i.linkCount
    ensures Little32(t, 0) == 0 && Little32(t, 32) == 0
  {
    Powers();
    TailOf(TailFields(i), TAIL_WIDTHS, t);
  }

  lemma InodePointer(i: Inode, p: seq<Byte>, k: nat)
    requires p == EncodeFields(Pointers(i), PointerWidths()) && k < 16
    ensures |p| == 64 && Little32(p, 4 * k) == i.direct[k]
  {
    Powers();
    EvenOffset(PointerWidths(), 0, k, 4);
    WordAt(Pointers(i), PointerWidths(), p, k, 4 * k);
  }

  /** Numbers in a part of an image are at the part's offset plus their own. */
  lemma Within(b: seq<Byte>, from: nat, part: seq<Byte>, o: nat)
    requires from + |part| <= |b| && b[from..from + |part|] == part && o + 4 <= |part|
    ensures Little16(b, from + o) == Little16(part, o) && Little32(b, from + o) == Little32(part, o)
    ensures o + 8 <= |part| ==> Little64(b, from + o) == Little64(part, o)
  {
    assert forall j :: 0 <= j < |part| ==> b[from + j] == part[j];
  }

  lemma HeadInside(b: seq<Byte>, h: seq<Byte>)
    requires |b| == 144 && b[..12] == h
    ensures |h| == 12 && Little32(b, 0) == Little32(h, 0) && Little32(b, 4) == Little32(h, 4)
    ensures b[8] == h[8] && Little16(b, 10) == Little16(h, 10)
  {
    assert b[0..12] == h;
    Within(b, 0, h, 0);
    Within(b, 0, h, 4);
    assert forall j :: 0 <= j < 12 ==> b[j] == h[j];
  }

  lemma PointerInside(i: Inode, b: seq<Byte>, p: seq<Byte>, k: nat)
    requires |b| == 144 && b[44..108] == p && p == EncodeFields(Pointers(i), PointerWidths()) && k < 16
    ensures Little32(b, 44 + 4 * k) == i.direct[k]
  {
    InodePointer(i, p, k);
    Within(b, 44, p, 4 * k);
  }

  lemma TailInside(b: seq<Byte>, t: seq<Byte>)
    requires |b| == 144 && b[108..] == t
    ensures |t| == 36 && Little64(b, 112) == Little64(t, 4) && Little64(b, 120) == Little64(t, 12)
    ensures Little64(b, 128) == Little64(t, 20) && Little32(b, 136) == Little32(t, 28)
  {
    assert b[108..144] == t;
    Within(b, 108, t, 4);
    Within(b, 108, t, 12);
    Within(b, 108, t, 20);
    Within(b, 108, t, 28);
  }

  /** The inode's image, 144 bytes, with the holes a 64-bit target leaves: id, size, is_used and mode up to
      offset 12, the name up to 44, sixteen pointers up to 108, three times and the link count. */
  lemma InodeLayout(i: Inode)
    ensures var b := EncodeInode(i);
            && |b| == 144
            && Little32(b, 0) == i.id && Little32(b, 4) == i.size
            && b[8] == i.isUsed && Little16(b, 10) == i.mode as nat && b[12..44] == i.name
            && (forall k: nat :: k < 16 ==> Little32(b, 44 + 4 * k) == i.direct[k])
            && Little64(b, 112) == i.createdAt && Little64(b, 120) == i.modifiedAt
            && Little64(b, 128) == i.accessedAt && Little32(b, 136) == i.linkCount
  {
    InodeParts(i);
    var b := EncodeInode(i);
    var (h, p, t) := (b[..12], b[44..108], b[108..]);
    InodeHead(i, h);
    HeadInside(b, h);
    forall k: nat | k < 16
      ensures Little32(b, 44 + 4 * k) == i.direct[k]
    {
      PointerInside(i, b, p, k);
    }
    InodeTail(i, t);
    TailInside(b, t);
  }
}
