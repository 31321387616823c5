/** In every state of the invariant the set bits are the metadata, the owned blocks and the stranded
    blocks, without overlap, and the stranded ones are as many as the counters say. */
module Partition {
  import opened Types
  import opened FreeList
  import opened Volume
  import opened Refinement

  function SetOf(s: seq<int>): (r: set<int>)
    ensures forall b :: b in r <==> b in s
  {
    set b | b in s
  }

  lemma {:induction false} SetOfAscending(s: seq<int>)
    requires Ascending(s)
    ensures |SetOf(s)| == |s|
  {
    if s == [] {
      assert SetOf(s) == {};
    } else {
      var n := |s| - 1;
      SetOfAscending(s[..n]);
      assert SetOf(s) == SetOf(s[..n]) + {s[n]};
    }
  }

  /** Blocks owned by the first n slots. */
  function OwnedSet(inodes: seq<Inode>, bs: nat): set<int>
    requires 0 < bs
  {
    if inodes == [] then {} else
      var n := |inodes| - 1;
      OwnedSet(inodes[..n], bs) + SetOf(Own(inodes[n], bs))
  }

  /** A block of the set has an owner, and the other way round. */
  lemma {:induction false} Owner(inodes: seq<Inode>, bs: nat, b: int) returns (i: nat)
    requires 0 < bs && b in OwnedSet(inodes, bs)
    ensures i < |inodes| && b in Own(inodes[i], bs)
  {
    var n := |inodes| - 1;
    if b in OwnedSet(inodes[..n], bs) {
      i := Owner(inodes[..n], bs, b);
    } else {
      i := n;
    }
  }

  lemma {:induction false} Owned(inodes: seq<Inode>, bs: nat, i: nat, b: int)
    requires 0 < bs && i < |inodes| && b in Own(inodes[i], bs)
    ensures b in OwnedSet(inodes, bs)
  {
    if i < |inodes| - 1 {
      Owned(inodes[..|inodes| - 1], bs, i, b);
    }
  }

  /** No block has two owners, and each file's pointers ascend. */
  ghost predicate Exclusive(inodes: seq<Inode>, bs: nat)
    requires 0 < bs
  {
    && (forall i :: 0 <= i < |inodes| ==> Ascending(Own(inodes[i], bs)))
    && (forall i, j, b | 0 <= i < |inodes| && 0 <= j < |inodes| ::
         b in Own(inodes[i], bs) && b in Own(inodes[j], bs) ==> i == j)
  }

  lemma ExclusivePrefix(inodes: seq<Inode>, bs: nat)
    requires 0 < bs && inodes != [] && Exclusive(inodes, bs)
    ensures Exclusive(inodes[..|inodes| - 1], bs)
    ensures OwnedSet(inodes[..|inodes| - 1], bs) !! SetOf(Own(inodes[|inodes| - 1], bs))
  {
    var n := |inodes| - 1;
    var first := inodes[..n];
    forall b | b in OwnedSet(first, bs)
      ensures b !in Own(inodes[n], bs)
    {
      var i := Owner(first, bs, b);
      assert first[i] == inodes[i];
    }
  }

  lemma {:induction false} OwnedCount(inodes: seq<Inode>, bs: nat)
    requires 0 < bs && Exclusive(inodes, bs)
    ensures |OwnedSet(inodes, bs)| == SumOwned(inodes, bs)
  {
    if inodes != [] {
      ExclusivePrefix(inodes, bs);
      OwnedCount(inodes[..|inodes| - 1], bs);
      SetOfAscending(Own(inodes[|inodes| - 1], bs));
    }
  }

  lemma ClearCount(used: seq<bool>)
    ensures |SetOf(Clear(used))| == |Clear(used)|
    ensures forall b :: b in SetOf(Clear(used)) <==> 0 <= b < |used| && !used[b]
  {
    ClearExact(used);
    SetOfAscending(Clear(used));
    forall b | b in SetOf(Clear(used))
      ensures 0 <= b < |used| && !used[b]
    {
      var k :| 0 <= k < |Clear(used)| && Clear(used)[k] == b;
      assert Clear(used)[k] in Clear(used);
    }
  }

  /** Data blocks marked used that no file owns. */
  function StrandedSet(v: Vol): set<int>
    requires Shape(v)
  {
    Range(v.sb.dataStart, v.sb.totalBlocks) - SetOf(Clear(v.used)) - OwnedSet(v.inodes, v.sb.blockSize)
  }

  lemma OwnedInRegion(v: Vol)
    requires Inv(v)
    ensures Exclusive(v.inodes, v.sb.blockSize)
    ensures forall b :: b in OwnedSet(v.inodes, v.sb.blockSize)
                        ==> v.sb.dataStart <= b < v.sb.totalBlocks && v.used[b]
  {
    var bs := v.sb.blockSize;
    forall b | b in OwnedSet(v.inodes, bs)
      ensures v.sb.dataStart <= b < v.sb.totalBlocks && v.used[b]
    {
      var i := Owner(v.inodes, bs, b);
      var k :| 0 <= k < |Own(v.inodes[i], bs)| && Own(v.inodes[i], bs)[k] == b;
      assert PointersOk(v, Own(v.inodes[i], bs));
    }
  }

  /** The three kinds of set bits, from the sets of clear and of owned blocks. */
  lemma Parts(used: seq<bool>, start: nat, clear: set<int>, owned: set<int>)
    requires start <= |used| && forall b :: 0 <= b < start ==> used[b]
    requires forall b :: b in clear <==> 0 <= b < |used| && !used[b]
    requires forall b :: b in owned ==> start <= b < |used| && used[b]
    ensures var stranded := Range(start, |used|) - clear - owned;
            && (forall b :: 0 <= b < |used| ==> (used[b] <==> b in Range(0, start) + owned + stranded))
            && Range(0, start) !! owned && Range(0, start) !! stranded && owned !! stranded
            && |stranded| == |used| - start - |clear| - |owned|
  {
    RestSize(Range(start, |used|), clear, owned);
    forall b | 0 <= b < |used|
      ensures used[b] <==> b in Range(0, start) + owned + (Range(start, |used|) - clear - owned)
    {
    }
  }

  lemma RestSize(all: set<int>, a: set<int>, b: set<int>)
    requires a <= all && b <= all && a !! b
    ensures |all - a - b| == |all| - |a| - |b|
  {
    assert all - a - b == all - (a + b);
  }

  lemma ClearInRegion(v: Vol)
    requires Inv(v)
    ensures |v.used| == v.sb.totalBlocks && (forall b :: 0 <= b < v.sb.dataStart ==> v.used[b])
    ensures |Clear(v.used)| == v.sb.freeBlocks
  {
  }

  /** The partition: a set bit is metadata, or has exactly one owning file, or is stranded, and only one of
      the three; and the number of stranded blocks is what the superblock counter and the sizes leave over. */
  lemma UsedBlocks(v: Vol)
    requires Inv(v)
    ensures var meta := Range(0, v.sb.dataStart);
            var owned := OwnedSet(v.inodes, v.sb.blockSize);
            && (forall b :: 0 <= b < |v.used| ==> (v.used[b] <==> b in meta + owned + StrandedSet(v)))
            && meta !! owned && meta !! StrandedSet(v) && owned !! StrandedSet(v)
            && |owned| == SumOwned(v.inodes, v.sb.blockSize)
            && |StrandedSet(v)| == Stranded(v)
  {
    OwnedInRegion(v);
    OwnedCount(v.inodes, v.sb.blockSize);
    ClearCount(v.used);
    ClearInRegion(v);
    Parts(v.used, v.sb.dataStart, SetOf(Clear(v.used)), OwnedSet(v.inodes, v.sb.blockSize));
  }
}
