/** Every operation keeps the invariant of the volume: bitmap, pointers, sizes, names and counters. */
module Ownership {
  import opened Types
  import opened Arith
  import opened Geometry
  import opened FreeList
  import opened Volume

  // ---- sizes ----

  lemma {:induction false} AscendingSpan(p: seq<U32>, lo: int, hi: int)
    requires Ascending(p) && forall k :: 0 <= k < |p| ==> lo <= p[k] < hi
    ensures p != [] ==> |p| <= hi - lo
  {
    if p != [] {
      var n := |p| - 1;
      assert lo <= p[n] < hi;
      AscendingSpan(p[..n], lo, p[n]);
    }
  }

  /** The 32-bit block count of a stored size never wraps: it is the exact ceiling. */
  lemma StoredSizeExact(v: Vol, ino: Inode)
    requires Shape(v) && IsUsed(ino) && Ceil(ino.size, v.sb.blockSize) <= DIRECT
    requires PointersOk(v, Own(ino, v.sb.blockSize))
    ensures ino.size + v.sb.blockSize - 1 < TWO32
    ensures Ceil(ino.size, v.sb.blockSize) <= v.sb.dataBlocks
  {
    var bs := v.sb.blockSize;
    var n := Ceil(ino.size, bs);
    CeilBounds(ino.size, bs);
    AscendingSpan(Own(ino, bs), v.sb.dataStart, v.sb.totalBlocks);
    TimesMono(n + 1, v.sb.totalBlocks, bs);
  }

  lemma {:induction false} SumOwnedUpdate(inodes: seq<Inode>, i: nat, x: Inode, bs: nat)
    requires i < |inodes| && 0 < bs
    ensures SumOwned(inodes[i := x], bs) == SumOwned(inodes, bs) - |Own(inodes[i], bs)| + |Own(x, bs)|
  {
    var n := |inodes| - 1;
    if i < n {
      assert inodes[i := x][..n] == inodes[..n][i := x];
      SumOwnedUpdate(inodes[..n], i, x, bs);
    } else {
      assert inodes[i := x][..n] == inodes[..n];
    }
  }

  function Unused(ino: Inode): nat { if ino.isUsed == 0 then 1 else 0 }

  lemma {:induction false} CountUnusedUpdate(inodes: seq<Inode>, i: nat, x: Inode)
    requires i < |inodes|
    ensures CountUnused(inodes[i := x]) == CountUnused(inodes) - Unused(inodes[i]) + Unused(x)
  {
    var n := |inodes| - 1;
    if i < n {
      assert inodes[i := x][..n] == inodes[..n][i := x];
      CountUnusedUpdate(inodes[..n], i, x);
    } else {
      assert inodes[i := x][..n] == inodes[..n];
    }
  }

  /** A nonzero free_inodes means inode_allocate will find a slot. */
  lemma {:induction false} UnusedExists(inodes: seq<Inode>)
    ensures CountUnused(inodes) > 0 <==> FreeSlot(inodes).Some?
    ensures CountUnused(inodes) <= |inodes|
  {
    if inodes != [] {
      UnusedExists(inodes[..|inodes| - 1]);
    }
  }

  // ---- one slot changes ----

  /** No slot but i holds that name. */
  ghost predicate NameFree(inodes: seq<Inode>, i: nat, name: CString) {
    forall j :: 0 <= j < |inodes| && j != i && IsUsed(inodes[j]) ==> NameOf(inodes[j]) != name
  }

  /** w differs from v in slot i only, in a way that disturbs no other file. The blocks `lost`
      become marked without being owned by the file. */
  ghost predicate SlotStep(v: Vol, w: Vol, i: nat, lost: seq<U32>) {
    && Shape(v) && Shape(w) && SameGeo(v.sb, w.sb) && w.dsb == w.sb
    && i < |v.inodes| && w.inodes == v.inodes[i := w.inodes[i]]
    && SlotOk(w.inodes[i], i)
    && (IsUsed(w.inodes[i]) ==> NameFree(v.inodes, i, NameOf(w.inodes[i])))
    && MetadataMarked(w)
    && BlocksStep(v, w, Own(v.inodes[i], v.sb.blockSize), Own(w.inodes[i], v.sb.blockSize), lost)
    && (IsUsed(w.inodes[i]) ==>
         Ceil(w.inodes[i].size, v.sb.blockSize) <= DIRECT && PointersOk(w, Own(w.inodes[i], v.sb.blockSize)))
    && w.sb.freeInodes == v.sb.freeInodes - Unused(v.inodes[i]) + Unused(w.inodes[i])
  }

  /** The marks become those of the others, the file's new blocks and the lost ones; the new ones were
      free or already owned; used blocks of the others keep their bytes; the free count follows. */
  ghost predicate BlocksStep(v: Vol, w: Vol, before: seq<U32>, after: seq<U32>, lost: seq<U32>)
    requires Shape(v) && Shape(w) && SameGeo(v.sb, w.sb)
  {
    && (forall b | 0 <= b < |v.used| ::
         w.used[b] <==> (v.used[b] && b !in before) || b in after || b in lost)
    && (forall b | 0 <= b < |v.used| :: b in after || b in lost ==> !v.used[b] || b in before)
    && (forall b | b in v.data :: v.used[b] && b !in before ==> w.data[b] == v.data[b])
    && w.sb.freeBlocks == |Clear(w.used)|
    && w.sb.freeBlocks + |after| + |lost| == v.sb.freeBlocks + |before|
  }

  /** The step takes no mark from the blocks of another file, and gives none of them to slot i. */
  lemma OtherPointers(v: Vol, w: Vol, i: nat, lost: seq<U32>, p: seq<U32>)
    requires SlotStep(v, w, i, lost) && PointersOk(v, p)
    requires forall b | b in p :: b !in Own(v.inodes[i], v.sb.blockSize)
    ensures PointersOk(w, p)
    ensures forall b | b in p :: b !in Own(w.inodes[i], v.sb.blockSize)
  {
    forall k | 0 <= k < |p|
      ensures w.used[p[k]] && p[k] !in Own(w.inodes[i], v.sb.blockSize)
    {
      assert p[k] in p && v.used[p[k]];
    }
  }

  /** What Owners says of one file: pointers in order, and none of them another's. */
  ghost predicate OwnerOk(v: Vol, j: nat)
    requires Shape(v) && j < |v.inodes|
  {
    var bs := v.sb.blockSize;
    && (IsUsed(v.inodes[j]) ==> Ceil(v.inodes[j].size, bs) <= DIRECT && PointersOk(v, Own(v.inodes[j], bs)))
    && forall k, b | 0 <= k < |v.inodes| && b in Own(v.inodes[j], bs) :: b in Own(v.inodes[k], bs) ==> j == k
  }

  lemma OwnersAre(v: Vol)
    requires Shape(v)
    ensures Owners(v) <==> forall j | 0 <= j < |v.inodes| :: OwnerOk(v, j)
  {
    if forall j | 0 <= j < |v.inodes| :: OwnerOk(v, j) {
      forall i | 0 <= i < |v.inodes| && IsUsed(v.inodes[i])
        ensures Ceil(v.inodes[i].size, v.sb.blockSize) <= DIRECT && PointersOk(v, Own(v.inodes[i], v.sb.blockSize))
      {
        assert OwnerOk(v, i);
      }
      forall i, j, b | 0 <= i < |v.inodes| && 0 <= j < |v.inodes|
                       && b in Own(v.inodes[i], v.sb.blockSize) && b in Own(v.inodes[j], v.sb.blockSize)
        ensures i == j
      {
        assert OwnerOk(v, i);
      }
    }
  }

  lemma SlotStepOwner(v: Vol, w: Vol, i: nat, lost: seq<U32>, j: nat)
    requires Shape(v) && Owners(v) && SlotStep(v, w, i, lost) && j < |v.inodes| && j != i
    ensures OwnerOk(w, j)
  {
    if IsUsed(v.inodes[j]) {
      OtherPointers(v, w, i, lost, Own(v.inodes[j], v.sb.blockSize));
    }
  }

  lemma SlotStepOwners(v: Vol, w: Vol, i: nat, lost: seq<U32>)
    requires Shape(v) && Owners(v) && SlotStep(v, w, i, lost)
    ensures Owners(w)
  {
    forall j | 0 <= j < |w.inodes|
      ensures OwnerOk(w, j)
    {
      if j != i {
        SlotStepOwner(v, w, i, lost, j);
      } else {
        SlotStepOwned(v, w, i, lost);
      }
    }
    OwnersAre(w);
  }

  lemma SlotStepOwned(v: Vol, w: Vol, i: nat, lost: seq<U32>)
    requires Shape(v) && Owners(v) && SlotStep(v, w, i, lost)
    ensures OwnerOk(w, i)
  {
    forall k, b | 0 <= k < |w.inodes| && b in Own(w.inodes[i], v.sb.blockSize) && b in Own(w.inodes[k], v.sb.blockSize)
      ensures i == k
    {
      if k != i {
        OtherPointers(v, w, i, lost, Own(v.inodes[k], v.sb.blockSize));
      }
    }
  }

  lemma SlotStepDirectory(v: Vol, w: Vol, i: nat, lost: seq<U32>)
    requires Directory(v) && SlotStep(v, w, i, lost)
    ensures Directory(w)
  {
  }

  /** Blocks and inodes are conserved: what the counters lose is owned or lost. */
  lemma SlotStepCounters(v: Vol, w: Vol, i: nat, lost: seq<U32>)
    requires Shape(v) && Counters(v) && SlotStep(v, w, i, lost)
    ensures Counters(w)
    ensures SumOwned(w.inodes, w.sb.blockSize) + w.sb.freeBlocks + |lost|
            == SumOwned(v.inodes, v.sb.blockSize) + v.sb.freeBlocks
  {
    SumOwnedUpdate(v.inodes, i, w.inodes[i], v.sb.blockSize);
    CountUnusedUpdate(v.inodes, i, w.inodes[i]);
  }

  lemma SlotStepInv(v: Vol, w: Vol, i: nat, lost: seq<U32>)
    requires Inv(v) && SlotStep(v, w, i, lost)
    ensures Inv(w)
    ensures SumOwned(w.inodes, w.sb.blockSize) + w.sb.freeBlocks + |lost|
            == SumOwned(v.inodes, v.sb.blockSize) + v.sb.freeBlocks
  {
    SlotStepOwners(v, w, i, lost);
    SlotStepDirectory(v, w, i, lost);
    SlotStepCounters(v, w, i, lost);
  }

  // ---- placing content in blocks ----

  /** Distinct pointers receive their chunks; every other block keeps its bytes. */
  lemma {:induction false} PlaceAt(data: map<int, Block>, ptrs: seq<U32>, content: seq<Byte>, bs: nat, n: nat)
    requires n <= |ptrs| && Ascending(ptrs)
    ensures var d := Place(data, ptrs, content, bs, n);
            && (forall k | 0 <= k < n :: ptrs[k] in d && d[ptrs[k]] == Chunk(content, bs, k))
            && (forall b | b in data :: b in d)
            && (forall b | b in data && b !in ptrs :: d[b] == data[b])
            && (forall b | b in d :: b in data || b in ptrs)
            && (forall b | b in d :: (b in data && d[b] == data[b]) || |d[b]| == bs)
  {
    if n > 0 {
      PlaceAt(data, ptrs, content, bs, n - 1);
    }
  }

  /** Byte j of blocks that hold the chunks of a content is byte j of the content. */
  lemma ChunkByte(d: map<int, Block>, ptrs: seq<U32>, direct: seq<U32>, content: seq<Byte>, bs: nat, j: nat)
    requires 0 < bs && j < |content| && Ceil(|content|, bs) <= |ptrs| <= |direct|
    requires forall k :: 0 <= k < |ptrs| ==> direct[k] == ptrs[k]
    requires forall k :: 0 <= k < |ptrs| ==> ptrs[k] in d && d[ptrs[k]] == Chunk(content, bs, k)
    ensures ByteAt(d, direct, bs, j) == content[j]
  {
    ByteInBlocks(j, |content|, bs);
    QuotRem(j, bs);
    assert direct[Quot(j, bs)] == ptrs[Quot(j, bs)];
  }

  /** Reading the placed blocks back byte by byte gives the content: padding is never read. */
  lemma ReadBack(data: map<int, Block>, ptrs: seq<U32>, ino: Inode, content: seq<Byte>, bs: nat)
    requires 0 < bs && Ascending(ptrs) && ino.size == |content| && Ceil(|content|, bs) <= |ptrs| <= DIRECT
    requires ino.direct[..|ptrs|] == ptrs
    ensures Contents(Place(data, ptrs, content, bs, |ptrs|), ino, bs) == content
  {
    var d := Place(data, ptrs, content, bs, |ptrs|);
    PlaceAt(data, ptrs, content, bs, |ptrs|);
    forall k | 0 <= k < |ptrs|
      ensures ino.direct[k] == ptrs[k]
    {
      assert ino.direct[..|ptrs|][k] == ptrs[k];
    }
    forall j | 0 <= j < |content|
      ensures ByteAt(d, ino.direct, bs, j) == content[j]
    {
      ChunkByte(d, ptrs, ino.direct, content, bs, j);
    }
  }

  // ---- _do_write ----

  /** The 32-bit block count of the new content is the exact one, rounded up to one. */
  lemma NeededExact(len: U32, bs: U32)
    requires 0 < bs && len + bs - 1 < TWO32
    ensures BlocksNeeded(len, bs) == Max(1, Ceil(len, bs))
  {
  }

  /** What _do_write takes is free or its own, lies in the data region, and accounts for itself. */
  lemma TakenBlocks(v: Vol, ino: Inode, n: nat)
    requires Ready(v, ino) && n <= v.sb.freeBlocks
    ensures var own := Own(ino, v.sb.blockSize);
            var ptrs := Taken(v, ino, n);
            && Ascending(ptrs)
            && (forall b | b in ptrs :: v.sb.dataStart <= b < v.sb.totalBlocks && (!v.used[b] || b in own))
            && |Clear(Mark(Unmark(v.used, own), ptrs))| == v.sb.freeBlocks + |own| - n
  {
    var own := Own(ino, v.sb.blockSize);
    FreeDistinct(v.used, own);
    var freed := Unmark(v.used, own);
    FirstEntries(freed, n);
    forall b | b in own
      ensures v.sb.dataStart <= b
    {
      var k :| 0 <= k < |own| && own[k] == b;
    }
  }

  /** First fit: a taken block has no untaken clear block below it. */
  lemma TakenLeast(v: Vol, ino: Inode, n: nat, b: nat, c: nat)
    requires Ready(v, ino) && n <= v.sb.freeBlocks
    requires b in Taken(v, ino, n) && c < b && c < |v.used|
    requires !v.used[c] || c in Own(ino, v.sb.blockSize)
    ensures c in Taken(v, ino, n)
  {
    var own := Own(ino, v.sb.blockSize);
    FreeDistinct(v.used, own);
    FirstEntriesLeast(Unmark(v.used, own), n, b, c);
  }

  ghost predicate WriteFits(v: Vol, ino: Inode, len: U32)
    requires Ready(v, ino)
  {
    BlocksNeeded(len, v.sb.blockSize) <= DIRECT && BlocksNeeded(len, v.sb.blockSize) <= v.sb.freeBlocks
  }

  lemma DoWriteShape(v: Vol, ino: Inode, content: seq<Byte>, now: U64)
    requires Ready(v, ino) && |content| < TWO32 && WriteFits(v, ino, |content|)
    ensures var need := BlocksNeeded(|content|, v.sb.blockSize);
            var ptrs := Taken(v, ino, need);
            var w := DoWrite(v, ino, content, now).0;
            && Shape(w) && SameGeo(v.sb, w.sb) && MetadataMarked(w) && PointersOk(w, ptrs)
  {
    var need := BlocksNeeded(|content|, v.sb.blockSize);
    var own := Own(ino, v.sb.blockSize);
    var ptrs := Taken(v, ino, need);
    var w := DoWrite(v, ino, content, now).0;
    TakenBlocks(v, ino, need);
    PlaceKeepsShape(v, ptrs, content, need, w);
    MarksStay(v, own, ptrs, w.used);
    forall k | 0 <= k < |ptrs|
      ensures v.sb.dataStart <= ptrs[k] < v.sb.totalBlocks && w.used[ptrs[k]]
    {
      assert ptrs[k] in ptrs;
    }
  }

  lemma PlaceKeepsShape(v: Vol, ptrs: seq<U32>, content: seq<Byte>, n: nat, w: Vol)
    requires Shape(v) && n <= |ptrs| && Ascending(ptrs)
    requires forall b | b in ptrs :: v.sb.dataStart <= b < v.sb.totalBlocks
    requires SameGeo(v.sb, w.sb) && |w.used| == |v.used| && w.inodes == v.inodes
    requires w.data == Place(v.data, ptrs, content, v.sb.blockSize, n)
    ensures Shape(w)
  {
    PlaceAt(v.data, ptrs, content, v.sb.blockSize, n);
  }

  /** Giving back and taking data blocks leaves the metadata marked. */
  lemma MarksStay(v: Vol, own: seq<U32>, ptrs: seq<U32>, used: seq<bool>)
    requires Shape(v) && MetadataMarked(v) && PointersOk(v, own) && used == Mark(Unmark(v.used, own), ptrs)
    ensures forall b :: 0 <= b < v.sb.dataStart ==> used[b]
  {
    forall b | 0 <= b < v.sb.dataStart
      ensures b !in own
    {
    }
  }

  lemma DoWriteBlocks(v: Vol, ino: Inode, content: seq<Byte>, now: U64)
    requires Ready(v, ino) && |content| < TWO32 && WriteFits(v, ino, |content|)
    requires Shape(DoWrite(v, ino, content, now).0)
    ensures var need := BlocksNeeded(|content|, v.sb.blockSize);
            var own := Own(ino, v.sb.blockSize);
            var w := DoWrite(v, ino, content, now).0;
            && BlocksStep(v, w, own, Taken(v, ino, need), [])
            && w.sb.freeBlocks == v.sb.freeBlocks + |own| - need
  {
    var need := BlocksNeeded(|content|, v.sb.blockSize);
    var ptrs := Taken(v, ino, need);
    TakenBlocks(v, ino, need);
    PlaceAt(v.data, ptrs, content, v.sb.blockSize, need);
    ClearBound(DoWrite(v, ino, content, now).0.used);
  }
}
