/** What fs_fsck reports of any volume, damaged or not, and of the volumes a run can reach: there it agrees with the
    invariant and finds exactly the blocks that empty writes have stranded. */
module FsckProof {
  import opened Types
  import opened Arith
  import opened Geometry
  import opened Volume
  import opened Ownership
  import opened UserView
  import opened Refinement

  // ---- any volume ----

  /** The slots fs_fsck looks into: used, with an id it takes for one, within the size limit as 32 bits hold it. */
  predicate Examined(v: Vol, i: nat)
    requires i < |v.inodes|
  {
    var ino := v.inodes[i];
    var bs: int := v.sb.blockSize;
    ino.isUsed == 1 && ino.id < v.sb.maxInodes && ino.size <= (16 * bs) % 0x1_0000_0000
  }

  /** The pointers of such a slot it looks at: those its size calls for, or none where the rounding up wraps. */
  function Expected(v: Vol, i: nat): nat
    requires i < |v.inodes| && 0 < v.sb.blockSize
  {
    var size: int, bs: int := v.inodes[i].size, v.sb.blockSize;
    if size + bs - 1 < 0x1_0000_0000 then Ceil(size, bs) else 0
  }

  predicate SeenAt(v: Vol, i: nat, k: nat)
    requires i < |v.inodes| && 0 < v.sb.blockSize
  {
    Examined(v, i) && k < Expected(v, i)
  }

  /** A pointer out of the data region. */
  predicate StrayAt(v: Vol, i: nat, k: nat)
    requires i < |v.inodes| && k < 16
  {
    !(v.sb.dataStart <= v.inodes[i].direct[k] < v.sb.dataStart + v.sb.dataBlocks)
  }

  predicate BadId(v: Vol, i: nat)
    requires i < |v.inodes|
  {
    v.inodes[i].id != i
  }

  // Among the first n slots: those examined, those of them with another slot's id, the pointers looked at, and
  // those of them that lead out of the data region.

  function ExaminedSlots(v: Vol, n: nat): set<nat>
    requires n <= |v.inodes|
  {
    set i: nat | i < n && Examined(v, i)
  }

  function BadIds(v: Vol, n: nat): set<nat>
    requires n <= |v.inodes|
  {
    set i: nat | i < n && Examined(v, i) && BadId(v, i)
  }

  function SeenPointers(v: Vol, n: nat): set<(nat, nat)>
    requires n <= |v.inodes| && 0 < v.sb.blockSize
  {
    set i: nat, k: nat | i < n && k < 16 && SeenAt(v, i, k) :: (i, k)
  }

  function StraysSeen(v: Vol, n: nat): set<(nat, nat)>
    requires n <= |v.inodes| && 0 < v.sb.blockSize
  {
    set i: nat, k: nat | i < n && k < 16 && SeenAt(v, i, k) && StrayAt(v, i, k) :: (i, k)
  }

  /** The pairs of slot i with the first m pointers, and with those of them that are stray. */
  function Row(i: nat, m: nat): (r: set<(nat, nat)>)
    ensures |r| == m && forall p :: p in r <==> p.0 == i && p.1 < m
  {
    if m == 0 then {} else Row(i, m - 1) + {(i, m - 1)}
  }

  function StrayRow(v: Vol, i: nat, m: nat): set<(nat, nat)>
    requires i < |v.inodes| && m <= 16
  {
    set k: nat | k < m && StrayAt(v, i, k) :: (i, k)
  }

  lemma StrayRowNext(v: Vol, i: nat, m: nat)
    requires i < |v.inodes| && m < 16
    ensures |StrayRow(v, i, m + 1)| == |StrayRow(v, i, m)| + if StrayAt(v, i, m) then 1 else 0
  {
    assert StrayRow(v, i, m + 1) == StrayRow(v, i, m) + if StrayAt(v, i, m) then {(i, m)} else {};
  }

  lemma {:induction false} StrayRowSize(v: Vol, i: nat, m: nat)
    requires Shape(v) && i < |v.inodes| && m <= 16
    ensures |StrayRow(v, i, m)| == StrayPointers(v.sb, v.inodes[i].direct, m)
  {
    if m == 0 {
      assert StrayRow(v, i, 0) == {};
    } else {
      StrayRowSize(v, i, m - 1);
      StrayRowNext(v, i, m - 1);
    }
  }

  lemma WrapIsRemainder(x: int)
    ensures Wrap(x) == x % 0x1_0000_0000
  {
  }

  lemma AddWraps(a: nat, b: nat)
    ensures Wrap(Wrap(a) + b) == Wrap(a + b)
  {
  }

  /** The branch of fs_fsck for files of too many blocks is never taken: the size test before it is as strict. */
  lemma NeverTooMany(v: Vol, i: nat)
    requires Shape(v) && i < |v.inodes| && Examined(v, i)
    ensures Ceil(v.inodes[i].size, v.sb.blockSize) <= 16
  {
    var bs: int := v.sb.blockSize;
    TimesIsProduct(16, bs);
    CeilLeast(v.inodes[i].size, bs, 16);
    AtMost(16 * bs);
  }

  lemma AtMost(x: nat)
    ensures x % 0x1_0000_0000 <= x
  {
  }

  /** The number of blocks fs_fsck computes, in 32 bits. */
  lemma ExpectedIs(v: Vol, i: nat)
    requires Shape(v) && i < |v.inodes| && v.inodes[i].size > 0
    ensures Expected(v, i) == Quot(Wrap(v.inodes[i].size + v.sb.blockSize - 1), v.sb.blockSize)
  {
    WrapIsRemainder(v.inodes[i].size + v.sb.blockSize - 1);
  }

  lemma NoPointers(v: Vol, i: nat)
    requires Shape(v) && i < |v.inodes| && v.inodes[i].size == 0
    ensures Expected(v, i) == 0
  {
    CeilBounds(0, v.sb.blockSize);
  }

  /** What the walk adds at slot n, in terms of the slot. */
  lemma WalkAt(v: Vol, n: nat, w: Walk)
    requires Shape(v) && n < |v.inodes| && w == FsckWalk(v, n)
    ensures !Examined(v, n) ==> FsckWalk(v, n + 1) == w
    ensures Examined(v, n) ==>
      Expected(v, n) <= 16 &&
      FsckWalk(v, n + 1) == Walk(w.errors + (if BadId(v, n) then 1 else 0)
                                 + StrayPointers(v.sb, v.inodes[n].direct, Expected(v, n)),
                                 w.usedInodes + 1, Wrap(w.usedBlocks + Expected(v, n)))
  {
    WrapIsRemainder(16 * v.sb.blockSize);
    if Examined(v, n) {
      NeverTooMany(v, n);
      if v.inodes[n].size > 0 {
        ExpectedIs(v, n);
      } else {
        NoPointers(v, n);
      }
    }
  }

  lemma SlotsNext(v: Vol, n: nat)
    requires n < |v.inodes|
    ensures |ExaminedSlots(v, n + 1)| == |ExaminedSlots(v, n)| + if Examined(v, n) then 1 else 0
  {
    assert ExaminedSlots(v, n + 1) == ExaminedSlots(v, n) + if Examined(v, n) then {n} else {};
  }

  lemma IdsNext(v: Vol, n: nat)
    requires n < |v.inodes|
    ensures |BadIds(v, n + 1)| == |BadIds(v, n)| + if Examined(v, n) && BadId(v, n) then 1 else 0
  {
    assert BadIds(v, n + 1) == BadIds(v, n) + if Examined(v, n) && BadId(v, n) then {n} else {};
  }

  lemma PointersNext(v: Vol, n: nat)
    requires Shape(v) && n < |v.inodes| && (Examined(v, n) ==> Expected(v, n) <= 16)
    ensures |SeenPointers(v, n + 1)| == |SeenPointers(v, n)| + if Examined(v, n) then Expected(v, n) else 0
  {
    if Examined(v, n) {
      var row := Row(n, Expected(v, n));
      assert SeenPointers(v, n + 1) == SeenPointers(v, n) + row;
      assert SeenPointers(v, n) !! row;
    } else {
      assert SeenPointers(v, n + 1) == SeenPointers(v, n);
    }
  }

  lemma StraysSplit(v: Vol, n: nat, m: nat)
    requires 0 < v.sb.blockSize && n < |v.inodes| && Examined(v, n) && m == Expected(v, n) <= 16
    ensures StraysSeen(v, n + 1) == StraysSeen(v, n) + StrayRow(v, n, m) && StraysSeen(v, n) !! StrayRow(v, n, m)
  {
  }

  lemma StraysNext(v: Vol, n: nat)
    requires Shape(v) && n < |v.inodes| && (Examined(v, n) ==> Expected(v, n) <= 16)
    ensures |StraysSeen(v, n + 1)| == |StraysSeen(v, n)|
      + if Examined(v, n) then StrayPointers(v.sb, v.inodes[n].direct, Expected(v, n)) else 0
  {
    if Examined(v, n) {
      StraysSplit(v, n, Expected(v, n));
      StrayRowSize(v, n, Expected(v, n));
    } else {
      assert StraysSeen(v, n + 1) == StraysSeen(v, n);
    }
  }

  /** The walk has come to these numbers. */
  predicate WalkIs(w: Walk, ids: nat, strays: nat, slots: nat, pointers: nat) {
    w == Walk(ids + strays, slots, Wrap(pointers))
  }

  lemma WalkIsNext(v: Vol, n: nat, ids: nat, strays: nat, slots: nat, pointers: nat, expected: nat)
    requires Shape(v) && n < |v.inodes| && WalkIs(FsckWalk(v, n), ids, strays, slots, pointers)
    requires expected == Expected(v, n)
    ensures !Examined(v, n) ==> WalkIs(FsckWalk(v, n + 1), ids, strays, slots, pointers)
    ensures Examined(v, n) ==>
      expected <= 16 &&
      WalkIs(FsckWalk(v, n + 1), ids + (if BadId(v, n) then 1 else 0),
             strays + StrayPointers(v.sb, v.inodes[n].direct, expected), slots + 1, pointers + expected)
  {
    WalkAt(v, n, FsckWalk(v, n));
    AddWraps(pointers, expected);
  }

  predicate WalkCounted(v: Vol, n: nat)
    requires Shape(v) && n <= |v.inodes|
  {
    WalkIs(FsckWalk(v, n), |BadIds(v, n)|, |StraysSeen(v, n)|, |ExaminedSlots(v, n)|, |SeenPointers(v, n)|)
  }

  lemma WalkCountedNext(v: Vol, n: nat)
    requires Shape(v) && n < |v.inodes| && WalkCounted(v, n)
    ensures WalkCounted(v, n + 1)
  {
    WalkIsNext(v, n, |BadIds(v, n)|, |StraysSeen(v, n)|, |ExaminedSlots(v, n)|, |SeenPointers(v, n)|, Expected(v, n));
    SlotsNext(v, n);
    IdsNext(v, n);
    PointersNext(v, n);
    StraysNext(v, n);
  }

  /** The walk counts those sets, the pointers in 32 bits. */
  lemma {:induction false} WalkCountsSets(v: Vol, n: nat)
    requires Shape(v) && n <= |v.inodes|
    ensures WalkCounted(v, n)
  {
    if n == 0 {
      assert BadIds(v, 0) == {} && ExaminedSlots(v, 0) == {};
      assert StraysSeen(v, 0) == {} && SeenPointers(v, 0) == {};
    } else {
      WalkCountsSets(v, n - 1);
      WalkCountedNext(v, n - 1);
    }
  }

  /** The superblock's two counts agree with the walk's, in 32 bits. */
  predicate SlotCountAgrees(v: Vol)
  {
    |ExaminedSlots(v, |v.inodes|)| == (v.sb.maxInodes - v.sb.freeInodes) % 0x1_0000_0000
  }

  predicate BlockCountAgrees(v: Vol)
    requires 0 < v.sb.blockSize
  {
    |SeenPointers(v, |v.inodes|)| % 0x1_0000_0000 == (v.sb.dataBlocks - v.sb.freeBlocks) % 0x1_0000_0000
  }

  /** fs_fsck of any volume, whatever its inode table and counters hold: one error for every examined slot with
      another slot's id, one for every pointer looked at that leads out of the data region, and one for each of the
      two counts that does not agree. (A volume with a wrong magic number cannot be mounted.) */
  lemma FsckCounts(v: Vol)
    requires Shape(v)
    ensures Fsck(v) == |BadIds(v, |v.inodes|)| + |StraysSeen(v, |v.inodes|)|
                       + (if SlotCountAgrees(v) then 0 else 1) + (if BlockCountAgrees(v) then 0 else 1)
  {
    WalkCountsSets(v, |v.inodes|);
    WrapIsRemainder(v.sb.maxInodes - v.sb.freeInodes);
    WrapIsRemainder(v.sb.dataBlocks - v.sb.freeBlocks);
    WrapIsRemainder(|SeenPointers(v, |v.inodes|)|);
  }

  lemma NoBadIds(v: Vol, n: nat)
    requires n <= |v.inodes|
    ensures BadIds(v, n) == {} <==> forall i: nat :: i < n && Examined(v, i) ==> !BadId(v, i)
  {
    forall i: nat | i < n && Examined(v, i) && BadId(v, i)
      ensures i in BadIds(v, n)
    {
    }
  }

  lemma NoStrays(v: Vol, n: nat)
    requires n <= |v.inodes| && 0 < v.sb.blockSize
    ensures StraysSeen(v, n) == {}
            <==> forall i: nat, k: nat :: i < n && k < 16 && SeenAt(v, i, k) ==> !StrayAt(v, i, k)
  {
    forall i: nat, k: nat | i < n && k < 16 && SeenAt(v, i, k) && StrayAt(v, i, k)
      ensures (i, k) in StraysSeen(v, n)
    {
    }
    if StraysSeen(v, n) != {} {
      var p :| p in StraysSeen(v, n);
      assert SeenAt(v, p.0, p.1) && StrayAt(v, p.0, p.1);
    }
  }

  /** So a volume is reported clean if and only if every slot it looks into bears its own id and has all the pointers
      its size calls for in the data region, and the counts agree. */
  lemma FsckCleanExactly(v: Vol)
    requires Shape(v)
    ensures Fsck(v) == 0 <==>
            && (forall i: nat :: i < |v.inodes| && Examined(v, i) ==> !BadId(v, i))
            && (forall i: nat, k: nat :: i < |v.inodes| && k < 16 && SeenAt(v, i, k) ==> !StrayAt(v, i, k))
            && SlotCountAgrees(v) && BlockCountAgrees(v)
  {
    FsckCounts(v);
    NoBadIds(v, |v.inodes|);
    NoStrays(v, |v.inodes|);
  }

  // ---- volumes of the invariant ----

  /** A slot as every reachable state has it. */
  ghost predicate Sound(v: Vol, i: nat)
    requires Shape(v) && i < |v.inodes|
  {
    var ino := v.inodes[i];
    var bs := v.sb.blockSize;
    && SlotOk(ino, i)
    && (IsUsed(ino) ==>
         && Ceil(ino.size, bs) <= DIRECT && ino.size + bs - 1 < TWO32
         && (forall k :: 0 <= k < Ceil(ino.size, bs) ==> v.sb.dataStart <= ino.direct[k] < v.sb.totalBlocks))
  }

  lemma InvSound(v: Vol, i: nat)
    requires Inv(v) && i < |v.inodes|
    ensures Sound(v, i)
  {
    assert SlotOk(v.inodes[i], i);
    var ino := v.inodes[i];
    if IsUsed(ino) {
      StoredSizeExact(v, ino);
      var own := Own(ino, v.sb.blockSize);
      assert forall k :: 0 <= k < Ceil(ino.size, v.sb.blockSize) ==> own[k] == ino.direct[k];
    }
  }

  ghost predicate AllSound(v: Vol) {
    && Shape(v) && (forall i :: 0 <= i < |v.inodes| ==> Sound(v, i))
    && v.sb.freeInodes == CountUnused(v.inodes)
    && v.sb.freeBlocks + SumOwned(v.inodes, v.sb.blockSize) <= v.sb.dataBlocks
  }

  lemma InvAllSound(v: Vol)
    requires Inv(v)
    ensures AllSound(v)
  {
    forall i | 0 <= i < |v.inodes|
      ensures Sound(v, i)
    {
      InvSound(v, i);
    }
  }

  lemma {:induction false} NoStray(sb: Superblock, direct: seq<U32>, n: nat)
    requires n <= |direct| && forall k :: 0 <= k < n ==> sb.dataStart <= direct[k] < sb.totalBlocks
    ensures StrayPointers(sb, direct, n) == 0
  {
    if n > 0 {
      NoStray(sb, direct, n - 1);
    }
  }

  lemma {:induction false} SumPrefix(inodes: seq<Inode>, bs: nat, n: nat)
    requires 0 < bs && n <= |inodes|
    ensures SumOwned(inodes[..n], bs) <= SumOwned(inodes, bs)
    decreases |inodes|
  {
    if n == |inodes| {
      assert inodes[..n] == inodes;
    } else {
      var m := |inodes| - 1;
      SumPrefix(inodes[..m], bs, n);
      assert inodes[..m][..n] == inodes[..n];
    }
  }

  /** The size test of fs_fsck passes over this used slot. */
  predicate Oversized(sb: Superblock, ino: Inode) {
    IsUsed(ino) && ino.size > Wrap(DIRECT * sb.blockSize)
  }

  /** What the walk adds at a sound slot it does not skip. */
  lemma WalkOne(v: Vol, i: nat)
    requires Shape(v) && i < |v.inodes| && Sound(v, i) && !Oversized(v.sb, v.inodes[i])
    requires FsckWalk(v, i).usedBlocks + |Own(v.inodes[i], v.sb.blockSize)| < TWO32
    ensures FsckWalk(v, i + 1) == Walk(FsckWalk(v, i).errors, FsckWalk(v, i).usedInodes + 1 - Unused(v.inodes[i]),
                                       FsckWalk(v, i).usedBlocks + |Own(v.inodes[i], v.sb.blockSize)|)
  {
    var ino := v.inodes[i];
    if IsUsed(ino) {
      NoStray(v.sb, ino.direct, Ceil(ino.size, v.sb.blockSize));
      CeilBounds(ino.size, v.sb.blockSize);
    }
  }

  lemma WalkSkips(v: Vol, i: nat)
    requires Shape(v) && i < |v.inodes| && Oversized(v.sb, v.inodes[i])
    ensures FsckWalk(v, i + 1) == FsckWalk(v, i)
  {
  }

  lemma PrefixStep(inodes: seq<Inode>, bs: nat, n: nat)
    requires 0 < bs && n < |inodes|
    ensures CountUnused(inodes[..n + 1]) == CountUnused(inodes[..n]) + Unused(inodes[n])
    ensures SumOwned(inodes[..n + 1], bs) == SumOwned(inodes[..n], bs) + |Own(inodes[n], bs)|
  {
    assert inodes[..n + 1][..n] == inodes[..n];
  }

  /** Files among the first n slots that the size test passes over. */
  function Over(v: Vol, n: nat): (c: nat)
    requires n <= |v.inodes|
    ensures c == 0 <==> forall i :: 0 <= i < n ==> !Oversized(v.sb, v.inodes[i])
  {
    if n == 0 then 0 else Over(v, n - 1) + if Oversized(v.sb, v.inodes[n - 1]) then 1 else 0
  }

  /** What a walk over n sound slots comes to: no fault, every file counted that the size test does not skip. */
  predicate Tally(w: Walk, n: nat, unused: nat, over: nat, owned: nat) {
    && w.errors == 0 && w.usedInodes + over + unused == n
    && w.usedBlocks <= owned && (over == 0 ==> w.usedBlocks == owned)
  }

  /** What a walk over n sound slots has come to. */
  predicate TallyAt(v: Vol, n: nat)
    requires Shape(v) && n <= |v.inodes|
  {
    Tally(FsckWalk(v, n), n, CountUnused(v.inodes[..n]), Over(v, n), SumOwned(v.inodes[..n], v.sb.blockSize))
  }

  lemma TallyNext(v: Vol, n: nat)
    requires Shape(v) && n < |v.inodes| && Sound(v, n) && TallyAt(v, n)
    requires SumOwned(v.inodes[..n], v.sb.blockSize) + |Own(v.inodes[n], v.sb.blockSize)| < TWO32
    ensures TallyAt(v, n + 1)
  {
    PrefixStep(v.inodes, v.sb.blockSize, n);
    if Oversized(v.sb, v.inodes[n]) {
      WalkSkips(v, n);
    } else {
      WalkOne(v, n);
    }
  }

  /** The blocks of the slots so far, and of the next, are counted in 32 bits. */
  lemma OwnedFits(v: Vol, n: nat)
    requires AllSound(v) && n < |v.inodes|
    ensures SumOwned(v.inodes[..n], v.sb.blockSize) + |Own(v.inodes[n], v.sb.blockSize)| < TWO32
  {
    PrefixStep(v.inodes, v.sb.blockSize, n);
    SumPrefix(v.inodes, v.sb.blockSize, n + 1);
  }

  /** The walk finds no fault in any slot; it counts every file that its size test does not skip. */
  lemma {:induction false} WalkCounts(v: Vol, n: nat)
    requires AllSound(v) && n <= |v.inodes|
    ensures TallyAt(v, n)
  {
    if n > 0 {
      WalkCounts(v, n - 1);
      OwnedFits(v, n - 1);
      TallyNext(v, n - 1);
    } else {
      assert v.inodes[..0] == [];
    }
  }

  /** The verdict: with no file over the (wrapping) size limit the only error there can be is the block
      count, and it is reported exactly when blocks are stranded; a file over the limit is always an error. */
  lemma FsckExact(v: Vol)
    requires Inv(v)
    ensures Over(v, |v.inodes|) == 0 ==> Fsck(v) == if Stranded(v) == 0 then 0 else 1
    ensures Over(v, |v.inodes|) > 0 ==> Fsck(v) > 0
    ensures 0 <= Stranded(v)
  {
    InvAllSound(v);
    var n := |v.inodes|;
    WalkCounts(v, n);
    assert v.inodes[..n] == v.inodes;
    UnusedExists(v.inodes);
    Verdict(v, FsckWalk(v, n), Over(v, n), SumOwned(v.inodes, v.sb.blockSize));
  }

  lemma Verdict(v: Vol, w: Walk, over: nat, owned: nat)
    requires Shape(v) && w == FsckWalk(v, |v.inodes|) && owned + v.sb.freeBlocks <= v.sb.dataBlocks
    requires v.sb.freeInodes <= v.sb.maxInodes && Tally(w, v.sb.maxInodes, v.sb.freeInodes, over, owned)
    ensures over == 0 ==> Fsck(v) == if owned + v.sb.freeBlocks == v.sb.dataBlocks then 0 else 1
    ensures over > 0 ==> Fsck(v) > 0
  {
  }

  /** Below 2^28 bytes a block, no file is over the limit. */
  lemma NoneOversized(v: Vol, i: nat)
    requires Inv(v) && i < |v.inodes| && v.sb.blockSize < 0x1000_0000
    ensures !Oversized(v.sb, v.inodes[i])
  {
    if IsUsed(v.inodes[i]) {
      InvSound(v, i);
      CeilLeast(v.inodes[i].size, v.sb.blockSize, DIRECT);
      TimesIsProduct(DIRECT, v.sb.blockSize);
    }
  }

  lemma SizesInDir(v: Vol)
    requires Shape(v) && Distinct(v.inodes)
    ensures Over(v, |v.inodes|) == 0
            <==> forall n | n in Dir(v) :: |Dir(v)[n].contents| <= Wrap(DIRECT * v.sb.blockSize)
  {
    if Over(v, |v.inodes|) == 0 {
      forall n | n in Dir(v)
        ensures |Dir(v)[n].contents| <= Wrap(DIRECT * v.sb.blockSize)
      {
        DirFind(v, n);
        assert !Oversized(v.sb, v.inodes[Find(v.inodes, n).value]);
      }
    } else {
      var i :| 0 <= i < |v.inodes| && Oversized(v.sb, v.inodes[i]);
      FindOwn(v.inodes, i);
      DirFind(v, NameOf(v.inodes[i]));
    }
  }

  /** fs_fsck reports a clean volume exactly when the model says so. */
  lemma FsckRefines(v: Vol)
    requires Inv(v)
    ensures Fsck(v) == 0 <==> Clean(Abs(v))
  {
    FsckExact(v);
    InvDistinct(v);
    SizesInDir(v);
  }
}
