/** Each operation of the volume as a step that replaces one inode slot. */
module Steps {
  import opened Types
  import opened Arith
  import opened Geometry
  import opened FreeList
  import opened Volume
  import opened Ownership

  /** What the invariant says around slot i. */
  ghost predicate Local(v: Vol, i: nat) {
    && Shape(v) && MetadataMarked(v) && v.dsb == v.sb
    && v.sb.freeBlocks == |Clear(v.used)|
    && i < |v.inodes| && SlotOk(v.inodes[i], i)
    && (IsUsed(v.inodes[i]) ==>
         Ready(v, v.inodes[i]) && NameFree(v.inodes, i, NameOf(v.inodes[i])) && v.sb.freeInodes < v.sb.maxInodes)
    && (!IsUsed(v.inodes[i]) ==> v.sb.freeInodes > 0)
  }

  lemma {:induction false} UnusedCounted(inodes: seq<Inode>, i: nat)
    requires i < |inodes|
    ensures inodes[i].isUsed == 0 ==> CountUnused(inodes) > 0
    ensures inodes[i].isUsed != 0 ==> CountUnused(inodes) < |inodes|
  {
    var n := |inodes| - 1;
    UnusedExists(inodes[..n]);
    if i < n {
      UnusedCounted(inodes[..n], i);
    }
  }

  lemma InvLocal(v: Vol, i: nat)
    requires Inv(v) && i < |v.inodes|
    ensures Local(v, i)
  {
    UnusedCounted(v.inodes, i);
    assert SlotOk(v.inodes[i], i);
  }

  /** The slot search of inode_allocate cannot fail once free_inodes is nonzero. */
  lemma SlotAvailable(v: Vol)
    requires Inv(v) && v.sb.freeInodes != 0
    ensures FreeSlot(v.inodes).Some?
  {
    UnusedExists(v.inodes);
  }

  lemma NoBlocks(bs: nat, ino: Inode)
    requires 0 < bs && (ino.size == 0 || !IsUsed(ino))
    ensures Own(ino, bs) == []
    ensures ino.size == 0 ==> Ceil(ino.size, bs) == 0
  {
    CeilBounds(0, bs);
  }

  /** A step that changes no block at all and leaves slot i the same pointers. */
  lemma SameBlocks(v: Vol, w: Vol, i: nat)
    requires Local(v, i) && Shape(w) && SameGeo(v.sb, w.sb) && w.dsb == w.sb
    requires w.used == v.used && w.data == v.data && w.sb.freeBlocks == v.sb.freeBlocks
    requires w.inodes == v.inodes[i := w.inodes[i]] && SlotOk(w.inodes[i], i)
    requires w.sb.freeInodes == v.sb.freeInodes - Unused(v.inodes[i]) + Unused(w.inodes[i])
    requires IsUsed(w.inodes[i]) && NameFree(v.inodes, i, NameOf(w.inodes[i]))
    requires Own(w.inodes[i], v.sb.blockSize) == Own(v.inodes[i], v.sb.blockSize)
    requires Ceil(w.inodes[i].size, v.sb.blockSize) <= DIRECT
    ensures SlotStep(v, w, i, [])
  {
  }

  lemma CreateStep(v: Vol, name: CString, now: U64)
    requires Shape(v) && Create(v, name, now).ok && Local(v, FreeSlot(v.inodes).value)
    ensures |name| < NAME_LEN
    ensures SlotStep(v, Create(v, name, now).vol, FreeSlot(v.inodes).value, [])
    ensures NameOf(NewInode(FreeSlot(v.inodes).value, name, REGULAR_FILE_MODE, now)) == name
  {
    var i := FreeSlot(v.inodes).value;
    CopyNameHolds(ZeroInode().name, name);
    NoBlocks(v.sb.blockSize, v.inodes[i]);
    NoBlocks(v.sb.blockSize, NewInode(i, name, REGULAR_FILE_MODE, now));
    SameBlocks(v, Create(v, name, now).vol, i);
  }

  lemma FreeingStep(v: Vol, ino: Inode, ptrs: seq<U32>, kept: seq<U32>)
    requires Ready(v, ino) && Own(ino, v.sb.blockSize) == kept + ptrs
    ensures |Clear(Unmark(v.used, ptrs))| == v.sb.freeBlocks + |ptrs| < TWO32
    ensures forall b | b in kept :: b !in ptrs
    ensures forall b | b in ptrs :: b >= v.sb.dataStart
  {
    var own := Own(ino, v.sb.blockSize);
    forall k | 0 <= k < |ptrs|
      ensures ptrs[k] == own[|kept| + k]
    {
    }
    forall k | 0 <= k < |kept|
      ensures kept[k] == own[k]
    {
    }
    FreeDistinct(v.used, ptrs);
    ClearBound(Unmark(v.used, ptrs));
  }

  /** A step that gives some of slot i's blocks back and keeps the rest. */
  lemma GivesBack(v: Vol, w: Vol, i: nat, kept: seq<U32>, ptrs: seq<U32>)
    requires Local(v, i) && Shape(w) && SameGeo(v.sb, w.sb) && w.dsb == w.sb
    requires IsUsed(v.inodes[i]) && Own(v.inodes[i], v.sb.blockSize) == kept + ptrs
    requires w.used == Unmark(v.used, ptrs) && w.data == v.data
    requires w.sb.freeBlocks == Wrap(v.sb.freeBlocks + |ptrs|)
    requires w.inodes == v.inodes[i := w.inodes[i]] && SlotOk(w.inodes[i], i)
    requires w.sb.freeInodes == v.sb.freeInodes + Unused(w.inodes[i])
    requires NameOf(w.inodes[i]) == NameOf(v.inodes[i])
    requires Own(w.inodes[i], v.sb.blockSize) == kept
    requires IsUsed(w.inodes[i]) ==> Ceil(w.inodes[i].size, v.sb.blockSize) <= DIRECT
    ensures SlotStep(v, w, i, [])
  {
    FreeingStep(v, v.inodes[i], ptrs, kept);
    var own := Own(v.inodes[i], v.sb.blockSize);
    assert forall k :: 0 <= k < |kept| ==> kept[k] == own[k];
    assert forall k :: 0 <= k < |kept| ==> kept[k] in kept;
  }

  lemma DeleteStep(v: Vol, name: CString)
    requires Shape(v) && Delete(v, name).ok && Local(v, Find(v.inodes, name).value)
    ensures SlotStep(v, Delete(v, name).vol, Find(v.inodes, name).value, [])
  {
    var i := Find(v.inodes, name).value;
    var ptrs := Own(v.inodes[i], v.sb.blockSize);
    assert ptrs == [] + ptrs;
    GivesBack(v, Delete(v, name).vol, i, [], ptrs);
  }

  lemma TruncatedOwn(ino: Inode, newSize: U32, now: U64, bs: nat)
    requires 0 < bs && IsUsed(ino) && newSize <= ino.size && Ceil(ino.size, bs) <= DIRECT
    ensures Ceil(newSize, bs) <= Ceil(ino.size, bs)
    ensures var n := Ceil(newSize, bs);
            && Own(ino.(size := newSize, modifiedAt := now), bs) == Own(ino, bs)[..n]
            && Own(ino, bs) == Own(ino, bs)[..n] + Own(ino, bs)[n..]
  {
    CeilMono(newSize, ino.size, bs);
  }

  lemma TruncateStep(v: Vol, name: CString, newSize: U32, now: U64)
    requires Shape(v) && Truncate(v, name, newSize, now).ok && Local(v, Find(v.inodes, name).value)
    ensures SlotStep(v, Truncate(v, name, newSize, now).vol, Find(v.inodes, name).value, [])
  {
    var i := Find(v.inodes, name).value;
    var n := Ceil(newSize, v.sb.blockSize);
    var own := Own(v.inodes[i], v.sb.blockSize);
    TruncatedOwn(v.inodes[i], newSize, now, v.sb.blockSize);
    GivesBack(v, Truncate(v, name, newSize, now).vol, i, own[..n], own[n..]);
  }

  lemma ReadStep(v: Vol, name: CString, now: U64)
    requires Shape(v) && Read(v, name, now).ok && Local(v, Find(v.inodes, name).value)
    ensures SlotStep(v, Read(v, name, now).vol, Find(v.inodes, name).value, [])
  {
    SameBlocks(v, Read(v, name, now).vol, Find(v.inodes, name).value);
  }

  lemma RenameStep(v: Vol, oldName: CString, newName: CString, now: U64)
    requires Shape(v) && Rename(v, oldName, newName, now).ok && Local(v, Find(v.inodes, oldName).value)
    ensures var i := Find(v.inodes, oldName).value;
            && SlotStep(v, Rename(v, oldName, newName, now).vol, i, [])
            && NameOf(Rename(v, oldName, newName, now).vol.inodes[i]) == newName
  {
    var i := Find(v.inodes, oldName).value;
    CopyNameHolds(v.inodes[i].name, newName);
    SameBlocks(v, Rename(v, oldName, newName, now).vol, i);
  }

  lemma ChmodStep(v: Vol, name: CString, mode: bv16, now: U64)
    requires Shape(v) && Chmod(v, name, mode, now).ok && Local(v, Find(v.inodes, name).value)
    ensures SlotStep(v, Chmod(v, name, mode, now).vol, Find(v.inodes, name).value, [])
  {
    SameBlocks(v, Chmod(v, name, mode, now).vol, Find(v.inodes, name).value);
  }

  /** No 32-bit sum of _do_write wraps for content of this length. */
  predicate NoWrap(v: Vol, len: nat)
    requires Shape(v)
  {
    len + v.sb.blockSize <= TWO32
  }

  /** Data long enough to wrap a sum could never fit: the whole disk is smaller than 2^32 bytes. */
  lemma WrapNeverFits(v: Vol, len: nat)
    requires Shape(v) && v.sb.freeBlocks <= v.sb.dataBlocks && !NoWrap(v, len)
    ensures Ceil(len, v.sb.blockSize) > v.sb.freeBlocks
  {
    var bs := v.sb.blockSize;
    CeilLeast(len, bs, v.sb.freeBlocks);
    TimesMono(v.sb.freeBlocks + 1, v.sb.totalBlocks, bs);
  }

  /** The pointers the written inode owns: all of those taken, or none when the content is empty. */
  lemma WrittenOwn(v: Vol, ino: Inode, content: seq<Byte>, now: U64)
    requires Ready(v, ino) && NoWrap(v, |content|) && |content| < TWO32 && WriteFits(v, ino, |content|)
    ensures var need := BlocksNeeded(|content|, v.sb.blockSize);
            var ino' := DoWrite(v, ino, content, now).1;
            && Ceil(|content|, v.sb.blockSize) <= need == Max(1, Ceil(|content|, v.sb.blockSize))
            && ino'.direct[..need] == Taken(v, ino, need)
            && Own(ino', v.sb.blockSize) == Taken(v, ino, need)[..Ceil(|content|, v.sb.blockSize)]
  {
    NeededExact(|content|, v.sb.blockSize);
  }

  /** The blocks an accepted write takes beyond those its content fills: one for empty content, else none. */
  function LostTo(v: Vol, ino: Inode, content: seq<Byte>): (lost: seq<U32>)
    requires Ready(v, ino) && NoWrap(v, |content|) && |content| < TWO32 && WriteFits(v, ino, |content|)
    ensures |lost| == if content == [] then 1 else 0
  {
    CeilBounds(|content|, v.sb.blockSize);
    NeededExact(|content|, v.sb.blockSize);
    Taken(v, ino, BlocksNeeded(|content|, v.sb.blockSize))[Ceil(|content|, v.sb.blockSize)..]
  }

  /** The blocks a write takes split into those its content fills and the rest. */
  lemma SplitTaken(a: Vol, x: Vol, v: Vol, w: Vol, before: seq<U32>, ptrs: seq<U32>, n: nat)
    requires Shape(a) && Shape(x) && SameGeo(a.sb, x.sb) && BlocksStep(a, x, before, ptrs, [])
    requires PointersOk(x, ptrs) && n <= |ptrs|
    requires Shape(v) && Shape(w) && SameGeo(v.sb, w.sb)
    requires v.used == a.used && v.data == a.data && v.sb.freeBlocks == a.sb.freeBlocks
    requires w.used == x.used && w.data == x.data && w.sb.freeBlocks == x.sb.freeBlocks
    requires w.sb.dataStart == x.sb.dataStart && w.sb.totalBlocks == x.sb.totalBlocks
    ensures BlocksStep(v, w, before, ptrs[..n], ptrs[n..])
    ensures PointersOk(w, ptrs[..n])
  {
    assert ptrs == ptrs[..n] + ptrs[n..];
    assert forall b :: b in ptrs <==> b in ptrs[..n] || b in ptrs[n..];
  }

  /** A step whose blocks are those of _do_write, run on the volume a that differs from v
      in slot i and in the inode counter only. */
  lemma TakesBlocks(v: Vol, a: Vol, w: Vol, i: nat, ino: Inode, content: seq<Byte>, now: U64)
    requires Local(v, i) && |w.inodes| == |v.inodes| && Ready(a, ino)
    requires a.used == v.used && a.data == v.data && a.dsb == v.dsb
    requires a.sb == v.sb.(freeInodes := a.sb.freeInodes)
    requires Own(ino, v.sb.blockSize) == Own(v.inodes[i], v.sb.blockSize)
    requires |content| < TWO32 && NoWrap(a, |content|) && WriteFits(a, ino, |content|)
    requires w.inodes == v.inodes[i := w.inodes[i]] && w.inodes[i] == DoWrite(a, ino, content, now).1
    requires w == Flushed(DoWrite(a, ino, content, now).0.(inodes := w.inodes))
    requires ino.id == i && ino.name[NAME_LEN - 1] == 0 && NameFree(v.inodes, i, NameOf(ino))
    requires a.sb.freeInodes == v.sb.freeInodes - Unused(v.inodes[i])
    ensures SlotStep(v, w, i, LostTo(a, ino, content))
    ensures w.sb.freeBlocks == v.sb.freeBlocks + |Own(v.inodes[i], v.sb.blockSize)|
                               - BlocksNeeded(|content|, v.sb.blockSize)
  {
    DoWriteShape(a, ino, content, now);
    DoWriteBlocks(a, ino, content, now);
    WrittenOwn(a, ino, content, now);
    SplitTaken(a, DoWrite(a, ino, content, now).0, v, w, Own(ino, v.sb.blockSize),
               Taken(a, ino, BlocksNeeded(|content|, v.sb.blockSize)), Ceil(|content|, v.sb.blockSize));
  }

  lemma RewriteStep(v: Vol, i: nat, content: seq<Byte>, now: U64)
    requires Local(v, i) && IsUsed(v.inodes[i])
    requires NoWrap(v, |content|) && |content| < TWO32
    requires Rewrite(v, i, content, now).ok
    ensures SlotStep(v, Rewrite(v, i, content, now).vol, i, LostTo(v, v.inodes[i], content))
  {
    TakesBlocks(v, v, Rewrite(v, i, content, now).vol, i, v.inodes[i], content, now);
  }

  /** The inode fs_copy fills in, before any data. */
  lemma CopiedInode(v: Vol, i: U32, dst: CString, mode: bv16, now: U64)
    requires Local(v, i) && !IsUsed(v.inodes[i])
    ensures var ino := NewInode(i, dst, mode, now);
            && NameOf(ino) == Clip(dst) && SlotOk(ino, i) && Ready(Allocated(v, i), ino)
            && Own(ino, v.sb.blockSize) == Own(v.inodes[i], v.sb.blockSize) == []
  {
    CopyNameHolds(ZeroInode().name, dst);
    NoBlocks(v.sb.blockSize, v.inodes[i]);
    NoBlocks(v.sb.blockSize, NewInode(i, dst, mode, now));
    AllocatedReady(v, i, NewInode(i, dst, mode, now));
  }

  /** A copied file's size was stored before, so writing it again cannot wrap. */
  lemma StoredNoWrap(v: Vol, s: nat)
    requires Local(v, s) && IsUsed(v.inodes[s])
    ensures NoWrap(v, v.inodes[s].size)
  {
    StoredSizeExact(v, v.inodes[s]);
  }

  lemma CopyEmptyStep(v: Vol, s: nat, i: nat, dst: CString, now: U64)
    requires Local(v, i) && !IsUsed(v.inodes[i]) && s < |v.inodes| && v.inodes[s].size == 0
    requires NameFree(v.inodes, i, Clip(dst))
    ensures CopyInto(v, s, i, dst, now).ok && SlotStep(v, CopyInto(v, s, i, dst, now).vol, i, [])
  {
    CopiedInode(v, i, dst, v.inodes[s].mode, now);
    SameBlocks(v, CopyInto(v, s, i, dst, now).vol, i);
  }

  lemma CopyDataStep(v: Vol, s: nat, i: nat, dst: CString, now: U64)
    requires Local(v, i) && !IsUsed(v.inodes[i]) && s < |v.inodes| && v.inodes[s].size > 0
    requires NoWrap(v, v.inodes[s].size)
    requires NameFree(v.inodes, i, Clip(dst))
    requires CopyInto(v, s, i, dst, now).ok
    ensures SlotStep(v, CopyInto(v, s, i, dst, now).vol, i, [])
  {
    var ino := NewInode(i, dst, v.inodes[s].mode, now);
    CopiedInode(v, i, dst, v.inodes[s].mode, now);
    var w := CopyInto(v, s, i, dst, now).vol;
    CopyDataIs(v, s, i, dst, now, ino, w);
    TakesBlocks(v, Allocated(v, i), w, i, ino, FileContents(v, s), now);
  }

  lemma CopyDataIs(v: Vol, s: nat, i: nat, dst: CString, now: U64, ino: Inode, w: Vol)
    requires Shape(v) && MetadataMarked(v) && v.sb.freeBlocks == |Clear(v.used)|
    requires s < |v.inodes| && i < |v.inodes| && v.inodes[s].size > 0
    requires ino == NewInode(i, dst, v.inodes[s].mode, now) && Ready(Allocated(v, i), ino)
    requires CopyInto(v, s, i, dst, now).ok && w == CopyInto(v, s, i, dst, now).vol
    ensures var (x, ino', ok) := DoWrite(Allocated(v, i), ino, FileContents(v, s), now);
            && ok && |w.inodes| == |v.inodes| && w.inodes == v.inodes[i := ino'] && w == Flushed(x.(inodes := w.inodes))
  {
    assert Allocated(v, i).inodes[i := w.inodes[i]] == v.inodes[i := w.inodes[i]];
  }

  lemma CopyStep(v: Vol, s: nat, i: nat, dst: CString, now: U64)
    requires Local(v, i) && !IsUsed(v.inodes[i]) && Local(v, s) && IsUsed(v.inodes[s])
    requires NameFree(v.inodes, i, Clip(dst))
    requires CopyInto(v, s, i, dst, now).ok
    ensures SlotStep(v, CopyInto(v, s, i, dst, now).vol, i, [])
  {
    if v.inodes[s].size == 0 {
      CopyEmptyStep(v, s, i, dst, now);
    } else {
      StoredNoWrap(v, s);
      CopyDataStep(v, s, i, dst, now);
    }
  }

  /** A copy whose write fails gives its slot back. */
  lemma CopyRollback(v: Vol, s: nat, i: nat, dst: CString, now: U64)
    requires Local(v, i) && v.inodes[i].isUsed == 0 && s < |v.inodes|
    requires !CopyInto(v, s, i, dst, now).ok
    ensures var w := CopyInto(v, s, i, dst, now).vol;
            && SlotStep(v, w, i, [])
            && w == v.(inodes := v.inodes[i := BlankInode(i).(isUsed := 0)])
  {
    NoBlocks(v.sb.blockSize, v.inodes[i]);
    NoBlocks(v.sb.blockSize, BlankInode(i).(isUsed := 0));
  }
}
