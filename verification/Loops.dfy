/** The volume between the iterations of the loops of src/fs.c. */
module Loops {
  import opened Types
  import opened Arith
  import opened Geometry
  import opened FreeList
  import opened Volume
  import opened Ownership

  /** One call of bitmap_allocate_block that picks b, and one of bitmap_free_block. */
  function BlockTaken(v: Vol, b: nat): Vol
    requires b < |v.used|
  {
    v.(used := v.used[b := true], sb := v.sb.(freeBlocks := Wrap(v.sb.freeBlocks - 1)))
  }

  function BlockFreed(v: Vol, b: nat): Vol
    requires b < |v.used|
  {
    v.(used := v.used[b := false], sb := v.sb.(freeBlocks := Wrap(v.sb.freeBlocks + 1)))
  }

  /** A block allocated and written. */
  function BlockFilled(v: Vol, b: nat, buf: Block): Vol
    requires b < |v.used|
  {
    BlockTaken(v, b).(data := v.data[b := buf])
  }

  // ---- freeing a list of blocks one by one ----

  function Freed(v: Vol, ptrs: seq<U32>): Vol {
    v.(used := Unmark(v.used, ptrs), sb := v.sb.(freeBlocks := Wrap(v.sb.freeBlocks + |ptrs|)))
  }

  lemma FreedNone(v: Vol)
    ensures Freed(v, []) == v
  {
    assert Unmark(v.used, []) == v.used;
  }

  lemma FreedOneMore(v: Vol, ptrs: seq<U32>, i: nat)
    requires Shape(v) && v.sb.freeBlocks == |Clear(v.used)| && AllSet(v.used, ptrs) && Ascending(ptrs) && i < |ptrs|
    ensures ptrs[i] < |v.used|
    ensures BlockFreed(Freed(v, ptrs[..i]), ptrs[i]) == Freed(v, ptrs[..i + 1])
  {
    FreeDistinct(v.used, ptrs[..i + 1]);
    ClearBound(Unmark(v.used, ptrs[..i + 1]));
    UnmarkOneMore(v.used, ptrs[..i], ptrs[i]);
    assert ptrs[..i + 1] == ptrs[..i] + [ptrs[i]];
  }

  // ---- allocating and writing the blocks of some content ----

  /** The first clear blocks of f, as many as there are pointers; all of them are data blocks. */
  predicate FirstClearBlocks(f: Vol, ptrs: seq<U32>) {
    && |ptrs| <= |Clear(f.used)| && ptrs == Clear(f.used)[..|ptrs|]
    && forall k :: 0 <= k < |ptrs| ==> ptrs[k] in f.data
  }

  /** The volume f after i iterations of the write loop: the first i pointers are marked, counted and filled. */
  function PartWritten(f: Vol, ptrs: seq<U32>, content: seq<Byte>, i: nat): Vol
    requires i <= |ptrs|
  {
    f.(used := Mark(f.used, ptrs[..i]), sb := f.sb.(freeBlocks := Wrap(f.sb.freeBlocks - i)),
       data := Place(f.data, ptrs, content, f.sb.blockSize, i))
  }

  /** The pointers of the inode by then. */
  function PartPointers(ptrs: seq<U32>, direct: seq<U32>, i: nat): (d: seq<U32>)
    requires i <= |ptrs| <= |direct|
    ensures |d| == |direct|
  {
    ptrs[..i] + direct[i..]
  }

  lemma PartStart(f: Vol, ptrs: seq<U32>, content: seq<Byte>, direct: seq<U32>)
    requires |ptrs| <= |direct|
    ensures PartWritten(f, ptrs, content, 0) == f && PartPointers(ptrs, direct, 0) == direct
  {
    assert ptrs[..0] == [];
    assert Mark(f.used, []) == f.used;
    assert direct[0..] == direct;
  }

  /** The i-th allocation of the loop cannot fail: of n blocks that are clear at its start, in order, it yields
      the i-th. */
  lemma NextTaken(used: seq<bool>, ptrs: seq<U32>, i: nat)
    requires i < |ptrs| <= |Clear(used)| && ptrs == Clear(used)[..|ptrs|]
    ensures Clear(Mark(used, ptrs[..i])) != [] && Clear(Mark(used, ptrs[..i]))[0] == ptrs[i]
    ensures ptrs[i] < |used|
  {
    TakeFirst(used, i);
    assert ptrs[..i] == Clear(used)[..i];
    ClearHolds(used, ptrs[i]);
    assert ptrs[i] == Clear(used)[i];
  }

  lemma PartOneMore(f: Vol, ptrs: seq<U32>, content: seq<Byte>, i: nat)
    requires i < |ptrs| && ptrs[i] < |f.used|
    ensures BlockFilled(PartWritten(f, ptrs, content, i), ptrs[i], Chunk(content, f.sb.blockSize, i))
            == PartWritten(f, ptrs, content, i + 1)
  {
    OneMoreMarked(f.used, ptrs, i);
    OneMoreCounted(f.sb.freeBlocks - i);
  }

  lemma OneMoreMarked(used: seq<bool>, ptrs: seq<U32>, i: nat)
    requires i < |ptrs| && ptrs[i] < |used|
    ensures Mark(used, ptrs[..i])[ptrs[i] := true] == Mark(used, ptrs[..i + 1])
  {
    MarkOneMore(used, ptrs[..i], ptrs[i]);
    assert ptrs[..i + 1] == ptrs[..i] + [ptrs[i]];
  }

  lemma OneMoreCounted(x: int)
    ensures Wrap(Wrap(x) - 1) == Wrap(x - 1)
  {
  }

  lemma PointerOneMore(ptrs: seq<U32>, direct: seq<U32>, i: nat)
    requires i < |ptrs| <= |direct|
    ensures PartPointers(ptrs, direct, i)[i := ptrs[i]] == PartPointers(ptrs, direct, i + 1)
  {
    assert (ptrs[..i] + direct[i..])[i := ptrs[i]] == ptrs[..i + 1] + direct[i + 1..];
  }

  lemma {:induction false} PlaceKeeps(data: map<int, Block>, ptrs: seq<U32>, content: seq<Byte>, bs: nat, n: nat, b: int)
    requires n <= |ptrs| && b in data
    ensures b in Place(data, ptrs, content, bs, n)
  {
    if n > 0 {
      PlaceKeeps(data, ptrs, content, bs, n - 1, b);
    }
  }

  /** The blocks _do_write takes are the first clear ones once the inode's own are free. */
  lemma TakenFromFreed(v: Vol, ino: Inode, n: nat, f: Vol)
    requires Ready(v, ino) && n <= v.sb.freeBlocks && f == Freed(v, Own(ino, v.sb.blockSize))
    ensures FirstClearBlocks(f, Taken(v, ino, n))
  {
    FreeDistinct(v.used, Own(ino, v.sb.blockSize));
    TakenBlocks(v, ino, n);
    var ptrs := Taken(v, ino, n);
    assert forall k :: 0 <= k < |ptrs| ==> ptrs[k] in ptrs;
  }

  lemma WrapMinus(x: int, n: int)
    ensures Wrap(Wrap(x) - n) == Wrap(x - n)
  {
  }

  /** src/fs.c:311-312 */
  function Tallied(sb: Superblock, len: nat): Superblock {
    sb.(totalWrites := Wrap64(sb.totalWrites + 1), bytesWritten := Wrap64(sb.bytesWritten + len))
  }

  /** _do_write, past its checks, with the blocks it takes. */
  lemma DoWriteInode(v: Vol, ino: Inode, content: seq<Byte>, n: nat, now: U64, ptrs: seq<U32>)
    requires Ready(v, ino) && |content| < TWO32 && n == BlocksNeeded(|content|, v.sb.blockSize)
    requires n <= DIRECT && n <= v.sb.freeBlocks && ptrs == Taken(v, ino, n)
    ensures DoWrite(v, ino, content, now).2
    ensures DoWrite(v, ino, content, now).1
            == ino.(direct := ptrs + ino.direct[n..], size := |content|, modifiedAt := now)
  {
  }

  /** The volume of a write that gives back the held blocks and takes these, field by field. */
  predicate Written(v: Vol, w: Vol, held: seq<U32>, ptrs: seq<U32>, content: seq<Byte>, n: nat)
    requires n <= |ptrs|
  {
    && w.sb == Charged(v.sb, |held|, n, |content|)
    && w.dsb == v.dsb && w.inodes == v.inodes
    && w.used == Mark(Unmark(v.used, held), ptrs)
    && w.data == Place(v.data, ptrs, content, v.sb.blockSize, n)
  }

  lemma DoWriteVolume(v: Vol, ino: Inode, content: seq<Byte>, n: nat, now: U64, ptrs: seq<U32>, held: seq<U32>)
    requires Ready(v, ino) && |content| < TWO32 && n == BlocksNeeded(|content|, v.sb.blockSize)
    requires n <= DIRECT && n <= v.sb.freeBlocks && ptrs == Taken(v, ino, n) && held == Own(ino, v.sb.blockSize)
    ensures Written(v, DoWrite(v, ino, content, now).0, held, ptrs, content, n)
  {
  }

  /** Freeing, the loop and the updates that follow it are _do_write. */
  lemma PartDone(v: Vol, ino: Inode, content: seq<Byte>, n: nat, now: U64, p: Vol, counters: Superblock)
    requires Ready(v, ino) && |content| < TWO32 && n == BlocksNeeded(|content|, v.sb.blockSize)
    requires n <= DIRECT && n <= v.sb.freeBlocks
    requires p == PartWritten(Freed(v, Own(ino, v.sb.blockSize)), Taken(v, ino, n), content, n)
    requires counters == Tallied(p.sb, |content|)
    ensures DoWrite(v, ino, content, now)
            == (WithCounters(p, counters),
                ino.(direct := PartPointers(Taken(v, ino, n), ino.direct, n), size := |content|, modifiedAt := now),
                true)
  {
    var ptrs := Taken(v, ino, n);
    AllPointers(ptrs, ino.direct, n);
    DoWriteInode(v, ino, content, n, now, ptrs);
    DoWriteVolume(v, ino, content, n, now, ptrs, Own(ino, v.sb.blockSize));
    WrittenIs(v, Own(ino, v.sb.blockSize), ptrs, content, n, p, counters);
    WrittenOnce(v, DoWrite(v, ino, content, now).0, WithCounters(p, counters), Own(ino, v.sb.blockSize), ptrs,
                content, n);
  }

  lemma AllPointers(ptrs: seq<U32>, direct: seq<U32>, n: nat)
    requires |direct| == DIRECT && n == |ptrs| <= DIRECT
    ensures PartPointers(ptrs, direct, n) == ptrs + direct[n..]
  {
    assert ptrs[..n] == ptrs;
  }

  lemma WrittenIs(v: Vol, held: seq<U32>, ptrs: seq<U32>, content: seq<Byte>, n: nat, p: Vol, counters: Superblock)
    requires n == |ptrs| && p == PartWritten(Freed(v, held), ptrs, content, n)
    requires counters == Tallied(p.sb, |content|)
    ensures Written(v, WithCounters(p, counters), held, ptrs, content, n)
  {
    assert ptrs[..n] == ptrs;
    WrapMinus(v.sb.freeBlocks + |held|, n);
  }

  lemma WrittenOnce(v: Vol, w: Vol, x: Vol, held: seq<U32>, ptrs: seq<U32>, content: seq<Byte>, n: nat)
    requires n <= |ptrs| && Written(v, w, held, ptrs, content, n) && Written(v, x, held, ptrs, content, n)
    ensures w == x
  {
  }

  /** calloc, then memcpy of the next piece of the content. */
  lemma ChunkIs(content: seq<Byte>, bs: nat, i: nat, at: nat, len: nat)
    requires at == Min(Times(i, bs), |content|) && len == Min(|content| - at, bs)
    ensures content[at..at + len] + Zeros(bs - len) == Chunk(content, bs, i)
    ensures at + len == Min(Times(i + 1, bs), |content|)
  {
  }

  // ---- reading a file block by block ----

  /** What the next block of a read loop contributes. */
  lemma NextPiece(data: map<int, Block>, ino: Inode, bs: nat, i: nat, at: nat, len: nat)
    requires 0 < bs && i < DIRECT
    requires ino.direct[i] in data && |data[ino.direct[i]]| == bs
    requires at == Times(i, bs) && at <= ino.size && len == Min(ino.size - at, bs)
    ensures Contents(data, ino, bs)[at..at + len] == data[ino.direct[i]][..len]
  {
    var c := Contents(data, ino, bs);
    forall j | 0 <= j < len
      ensures c[at + j] == data[ino.direct[i]][j]
    {
      QuotOfSum(i, j, bs);
    }
  }

  /** The contents up to the end of the first i blocks. */
  function Gathered(data: map<int, Block>, ino: Inode, bs: nat, i: nat): seq<Byte>
    requires 0 < bs
  {
    Contents(data, ino, bs)[..Min(Times(i, bs), ino.size)]
  }

  lemma GatherNext(data: map<int, Block>, ino: Inode, bs: nat, i: nat)
    requires 0 < bs && i < Ceil(ino.size, bs) <= DIRECT
    requires ino.direct[i] in data && |data[ino.direct[i]]| == bs
    ensures var at := |Gathered(data, ino, bs, i)|;
            && at <= ino.size
            && Gathered(data, ino, bs, i) + data[ino.direct[i]][..Min(ino.size - at, bs)]
               == Gathered(data, ino, bs, i + 1)
  {
    CeilBounds(ino.size, bs);
    TimesMono(i + 1, Ceil(ino.size, bs), bs);
    var at := Times(i, bs);
    var len := Min(ino.size - at, bs);
    NextPiece(data, ino, bs, i, at, len);
    var c := Contents(data, ino, bs);
    assert c[..at + len] == c[..at] + c[at..at + len];
  }

  lemma GatherAll(data: map<int, Block>, ino: Inode, bs: nat)
    requires 0 < bs
    ensures Gathered(data, ino, bs, 0) == []
    ensures Gathered(data, ino, bs, Ceil(ino.size, bs)) == Contents(data, ino, bs)
  {
    CeilBounds(ino.size, bs);
  }

  /** The stored pointers of a file lead to blocks of the data region. */
  lemma PointerReads(v: Vol, ino: Inode, i: nat)
    requires Ready(v, ino) && i < Ceil(ino.size, v.sb.blockSize)
    ensures ino.direct[i] in v.data && |v.data[ino.direct[i]]| == v.sb.blockSize
    ensures ino.direct[i] < v.sb.totalBlocks
  {
    assert Own(ino, v.sb.blockSize)[i] == ino.direct[i];
  }

  /** The 32-bit block count of a stored size, and of any smaller one. */
  lemma BlockCount(v: Vol, ino: Inode, size: U32)
    requires Ready(v, ino) && size <= ino.size
    ensures (if size > 0 then Quot(Wrap(size + v.sb.blockSize - 1), v.sb.blockSize) else 0) == Ceil(size, v.sb.blockSize)
    ensures Ceil(size, v.sb.blockSize) <= Ceil(ino.size, v.sb.blockSize)
  {
    StoredSizeExact(v, ino);
    CeilBounds(size, v.sb.blockSize);
    CeilMono(size, ino.size, v.sb.blockSize);
  }

  lemma ExcessBlocks(v: Vol, ino: Inode, n: nat)
    requires Ready(v, ino) && n <= |Own(ino, v.sb.blockSize)|
    ensures AllSet(v.used, Own(ino, v.sb.blockSize)[n..]) && Ascending(Own(ino, v.sb.blockSize)[n..])
    ensures Own(ino, v.sb.blockSize)[n..] == ino.direct[n..Ceil(ino.size, v.sb.blockSize)]
  {
    var own := Own(ino, v.sb.blockSize);
    assert forall k :: 0 <= k < |own| - n ==> own[n..][k] == own[n + k];
  }

  // ---- operations as the sequence of their calls ----

  /** inode_write */
  function WithInode(v: Vol, i: nat, ino: Inode): Vol
    requires i < |v.inodes|
  {
    v.(inodes := v.inodes[i := ino])
  }

  /** A change of the in-memory counters. */
  function WithCounters(v: Vol, sb: Superblock): Vol { v.(sb := sb) }

  /** inode_free */
  function SlotFreed(v: Vol, i: nat): Vol
    requires i < |v.inodes|
  {
    WithInode(WithCounters(v, v.sb.(freeInodes := Wrap(v.sb.freeInodes + 1))), i, v.inodes[i].(isUsed := 0))
  }

  lemma CreateIsCalls(v: Vol, name: CString, now: U64, i: nat)
    requires Shape(v) && Create(v, name, now).ok && FreeSlot(v.inodes) == Some(i)
    ensures Create(v, name, now)
            == Done(Flushed(WithInode(Allocated(v, i), i, NewInode(i, name, REGULAR_FILE_MODE, now))))
  {
  }

  lemma DeleteIsCalls(v: Vol, i: nat)
    requires Shape(v) && i < |v.inodes|
    ensures DeleteSlot(v, i) == Flushed(SlotFreed(Freed(v, Own(v.inodes[i], v.sb.blockSize)), i))
  {
  }

  lemma ReadIsCalls(v: Vol, i: nat, now: U64, ino: Inode, tally: Superblock)
    requires Shape(v) && i < |v.inodes| && ino == v.inodes[i].(accessedAt := now)
    requires tally == v.sb.(totalReads := Wrap64(v.sb.totalReads + 1), bytesRead := Wrap64(v.sb.bytesRead + ino.size))
    ensures ino.size == 0 ==> tally == v.sb.(totalReads := Wrap64(v.sb.totalReads + 1))
    ensures ReadSlotOutcome(v, i, now).vol == Flushed(WithCounters(WithInode(v, i, ino), tally))
    ensures ReadSlotOutcome(v, i, now).output == Contents(v.data, ino, v.sb.blockSize)
  {
  }

  lemma CopyIsInto(v: Vol, src: CString, dst: CString, now: U64, s: nat, i: nat)
    requires Inv(v) && Find(v.inodes, src) == Some(s) && Find(v.inodes, dst).None?
    requires v.sb.freeInodes != 0 && FreeSlot(v.inodes) == Some(i)
    ensures Copy(v, src, dst, now) == CopyInto(v, s, i, dst, now)
    ensures Shape(v) && MetadataMarked(v) && v.sb.freeBlocks == |Clear(v.used)|
  {
  }

  lemma CopyIsCalls(v: Vol, s: nat, i: nat, dst: CString, now: U64, ino: Inode)
    requires Shape(v) && MetadataMarked(v) && v.sb.freeBlocks == |Clear(v.used)|
    requires s < |v.inodes| && i < |v.inodes| && ino == NewInode(i, dst, v.inodes[s].mode, now)
    ensures v.inodes[s].size == 0 ==>
              CopyInto(v, s, i, dst, now) == Done(Flushed(WithInode(Allocated(v, i), i, ino)))
    ensures v.inodes[s].size > 0 ==>
              && Ready(Allocated(v, i), ino)
              && var (w, ino', ok) := DoWrite(Allocated(v, i), ino, FileContents(v, s), now);
                 && |w.inodes| == |v.inodes|
                 && (if ok then CopyInto(v, s, i, dst, now) == Done(Flushed(WithInode(w, i, ino')))
                     else w == Allocated(v, i) && CopyInto(v, s, i, dst, now) == Fail(SlotFreed(w, i)))
  {
    AllocatedReady(v, i, ino);
  }

  /** fs_truncate_file as freeing the excess, then the inode, then the superblock. */
  lemma TruncateIsCalls(v: Vol, i: nat, newSize: U32, now: U64)
    requires Shape(v) && i < |v.inodes| && newSize <= v.inodes[i].size
    ensures TruncateSlot(v, i, newSize, now)
            == Flushed(WithInode(Freed(v, Excess(v.inodes[i], newSize, v.sb.blockSize)), i,
                                 v.inodes[i].(size := newSize, modifiedAt := now)))
  {
  }
}
