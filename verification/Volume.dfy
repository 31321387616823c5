/** The mounted file system with its bytes decoded, and what each call of src/fs.c does to it. */
module Volume {
  import opened Types
  import opened Arith
  import opened Geometry
  import opened FreeList

  datatype Vol = Vol(
    sb: Superblock,          // the in-memory superblock
    dsb: Superblock,         // the copy in block 0
    used: seq<bool>,         // the bitmap, one entry per block
    inodes: seq<Inode>,      // the inode table, one entry per slot
    data: map<int, Block>)   // the blocks of the data region

  // ---- strings ----

  /** The C string a buffer holds. */
  function CStr(buf: seq<Byte>): (s: CString)
    ensures |s| <= |buf| && s == buf[..|s|]
    ensures |s| < |buf| ==> buf[|s|] == 0
  {
    if buf == [] || buf[0] == 0 then [] else [buf[0]] + CStr(buf[1..])
  }

  /** strncpy(dst, src, MAX_FILENAME_LEN - 1): the last byte is left alone. */
  function CopyName(dst: seq<Byte>, src: CString): (r: seq<Byte>)
    requires |dst| == NAME_LEN
    ensures |r| == NAME_LEN && r[NAME_LEN - 1] == dst[NAME_LEN - 1]
  {
    var n := NAME_LEN - 1;
    (if |src| >= n then src[..n] else src + Zeros(n - |src|)) + dst[n..]
  }

  /** The part of a name that fits an inode. */
  function Clip(s: CString): CString {
    if |s| < NAME_LEN then s else s[..NAME_LEN - 1]
  }

  function NameOf(ino: Inode): CString { CStr(ino.name) }

  lemma {:induction false} CStrUnique(buf: seq<Byte>, s: CString)
    requires |s| < |buf| && s == buf[..|s|] && buf[|s|] == 0
    ensures CStr(buf) == s
  {
  }

  lemma CopyNameHolds(dst: seq<Byte>, src: CString)
    requires |dst| == NAME_LEN && dst[NAME_LEN - 1] == 0
    ensures CStr(CopyName(dst, src)) == Clip(src) == if |src| < 32 then src else src[..31]
  {
    CStrUnique(CopyName(dst, src), Clip(src));
  }

  // ---- lookups ----

  predicate IsUsed(ino: Inode) { ino.isUsed == 1 }

  /** inode_find_by_name: the first used slot with that name. */
  function Find(inodes: seq<Inode>, name: CString): (r: Option<nat>)
    ensures r.Some? ==> r.value < |inodes| && IsUsed(inodes[r.value]) && NameOf(inodes[r.value]) == name
    ensures r.None? ==> forall i :: 0 <= i < |inodes| && IsUsed(inodes[i]) ==> NameOf(inodes[i]) != name
    ensures r.Some? ==> forall i :: 0 <= i < r.value && IsUsed(inodes[i]) ==> NameOf(inodes[i]) != name
  {
    if inodes == [] then None else
      var n := |inodes| - 1;
      var r := Find(inodes[..n], name);
      if r.Some? then r
      else if IsUsed(inodes[n]) && NameOf(inodes[n]) == name then Some(n)
      else None
  }

  /** The slot inode_allocate takes: the first with is_used zero. */
  function FreeSlot(inodes: seq<Inode>): (r: Option<nat>)
    ensures r.Some? ==> r.value < |inodes| && inodes[r.value].isUsed == 0
    ensures r.Some? ==> forall i :: 0 <= i < r.value ==> inodes[i].isUsed != 0
    ensures r.None? ==> forall i :: 0 <= i < |inodes| ==> inodes[i].isUsed != 0
  {
    if inodes == [] then None else
      var n := |inodes| - 1;
      var r := FreeSlot(inodes[..n]);
      if r.Some? then r else if inodes[n].isUsed == 0 then Some(n) else None
  }

  lemma FirstFreeSlot(inodes: seq<Inode>, r: Option<nat>)
    requires r.Some? ==> r.value < |inodes| && inodes[r.value].isUsed == 0
    requires forall k :: 0 <= k < (if r.Some? then r.value else |inodes|) ==> inodes[k].isUsed != 0
    ensures FreeSlot(inodes) == r
  {
  }

  lemma FirstNamed(inodes: seq<Inode>, name: CString, r: Option<nat>)
    requires r.Some? ==> r.value < |inodes| && IsUsed(inodes[r.value]) && NameOf(inodes[r.value]) == name
    requires forall k :: 0 <= k < (if r.Some? then r.value else |inodes|) && IsUsed(inodes[k])
                         ==> NameOf(inodes[k]) != name
    ensures Find(inodes, name) == r
  {
  }

  // ---- file contents ----

  /** The blocks a file of that size owns, by the rule every reader uses: ceil(size / block_size). */
  function Own(ino: Inode, bs: nat): (p: seq<U32>)
    requires 0 < bs
  {
    if IsUsed(ino) && Ceil(ino.size, bs) <= DIRECT then ino.direct[..Ceil(ino.size, bs)] else []
  }

  /** Byte j of a file: at offset j mod bs of the block its pointer j div bs names. */
  function ByteAt(data: map<int, Block>, direct: seq<U32>, bs: nat, j: nat): Byte
    requires 0 < bs
  {
    var k := Quot(j, bs);
    if k < |direct| && direct[k] in data && Rem(j, bs) < |data[direct[k]]|
    then data[direct[k]][Rem(j, bs)] else 0
  }

  function Contents(data: map<int, Block>, ino: Inode, bs: nat): (c: seq<Byte>)
    requires 0 < bs
    ensures |c| == ino.size
  {
    seq(ino.size, j requires 0 <= j < ino.size => ByteAt(data, ino.direct, bs, j))
  }

  /** The zero-padded k-th block of some content. */
  function Chunk(content: seq<Byte>, bs: nat, k: nat): (b: Block)
    ensures |b| == bs
  {
    seq(bs, o requires 0 <= o < bs =>
      if Times(k, bs) + o < |content| then content[Times(k, bs) + o] else 0)
  }

  /** The data region after the first n pointers have received their chunks. */
  function Place(data: map<int, Block>, ptrs: seq<U32>, content: seq<Byte>, bs: nat, n: nat): map<int, Block>
    requires n <= |ptrs|
  {
    if n == 0 then data
    else Place(data, ptrs, content, bs, n - 1)[ptrs[n - 1] := Chunk(content, bs, n - 1)]
  }

  // ---- the invariant ----

  ghost predicate Shape(v: Vol) {
    && Geo(v.sb)
    && |v.used| == v.sb.totalBlocks
    && |v.inodes| == v.sb.maxInodes
    && (forall b :: b in v.data <==> v.sb.dataStart <= b < v.sb.totalBlocks)
    && (forall b :: b in v.data ==> |v.data[b]| == v.sb.blockSize)
  }

  /** Pointers of one file: distinct, in ascending order, in the data region, marked in the bitmap. */
  ghost predicate PointersOk(v: Vol, ptrs: seq<U32>)
    requires Shape(v)
  {
    && Ascending(ptrs)
    && (forall k :: 0 <= k < |ptrs| ==> v.sb.dataStart <= ptrs[k] < v.sb.totalBlocks && v.used[ptrs[k]])
  }

  ghost predicate MetadataMarked(v: Vol)
    requires Shape(v)
  {
    forall b :: 0 <= b < v.sb.dataStart ==> v.used[b]
  }

  /** What _do_write needs of the volume and of the inode it is given. */
  ghost predicate Ready(v: Vol, ino: Inode) {
    && Shape(v)
    && MetadataMarked(v)
    && v.sb.freeBlocks == |Clear(v.used)|
    && IsUsed(ino) && Ceil(ino.size, v.sb.blockSize) <= DIRECT
    && PointersOk(v, Own(ino, v.sb.blockSize))
  }

  ghost predicate Owners(v: Vol)
    requires Shape(v)
  {
    var bs := v.sb.blockSize;
    && (forall i :: 0 <= i < |v.inodes| && IsUsed(v.inodes[i]) ==>
         Ceil(v.inodes[i].size, bs) <= DIRECT && PointersOk(v, Own(v.inodes[i], bs)))
    && (forall i, j, b | 0 <= i < |v.inodes| && 0 <= j < |v.inodes| ::
         b in Own(v.inodes[i], bs) && b in Own(v.inodes[j], bs) ==> i == j)
  }

  ghost predicate Directory(v: Vol) {
    && (forall i :: 0 <= i < |v.inodes| ==> SlotOk(v.inodes[i], i))
    && (forall i, j | 0 <= i < |v.inodes| && 0 <= j < |v.inodes| ::
         IsUsed(v.inodes[i]) && IsUsed(v.inodes[j]) && NameOf(v.inodes[i]) == NameOf(v.inodes[j]) ==> i == j)
  }

  predicate SlotOk(ino: Inode, i: nat) {
    && (ino.isUsed == 0 || ino.isUsed == 1)
    && (IsUsed(ino) ==> ino.id == i && ino.name[NAME_LEN - 1] == 0)
  }

  function CountUnused(inodes: seq<Inode>): nat {
    if inodes == [] then 0 else
      var n := |inodes| - 1;
      CountUnused(inodes[..n]) + if inodes[n].isUsed == 0 then 1 else 0
  }

  /** Blocks owned by all files together. */
  function SumOwned(inodes: seq<Inode>, bs: nat): nat
    requires 0 < bs
  {
    if inodes == [] then 0 else
      var n := |inodes| - 1;
      SumOwned(inodes[..n], bs) + |Own(inodes[n], bs)|
  }

  ghost predicate Counters(v: Vol)
    requires Shape(v)
  {
    && v.sb.freeBlocks == |Clear(v.used)|
    && v.sb.freeInodes == CountUnused(v.inodes)
    && SumOwned(v.inodes, v.sb.blockSize) + v.sb.freeBlocks <= v.sb.dataBlocks
  }

  /** The volume fs_format has written before it marks the metadata blocks. */
  ghost predicate Blank(v: Vol) {
    && Shape(v) && v.sb == v.dsb
    && (forall b :: 0 <= b < |v.used| ==> !v.used[b])
    && (forall i :: 0 <= i < |v.inodes| ==> v.inodes[i] == ZeroInode())
    && (forall b | b in v.data :: v.data[b] == Zeros(v.sb.blockSize))
  }

  ghost predicate Inv(v: Vol) {
    && Shape(v) && MetadataMarked(v) && Owners(v) && Directory(v) && Counters(v)
    && v.dsb == v.sb
  }

  // ---- the operations ----

  datatype Outcome = Outcome(vol: Vol, ok: bool, output: seq<Byte>)

  function Fail(v: Vol): Outcome { Outcome(v, false, []) }
  function Done(v: Vol): Outcome { Outcome(v, true, []) }

  /** disk_write(0, &sb) */
  function Flushed(v: Vol): Vol { v.(dsb := v.sb) }

  /** The slot inode_allocate leaves on disk. */
  function BlankInode(i: U32): Inode { ZeroInode().(id := i, isUsed := 1) }

  function NewInode(i: U32, name: CString, mode: bv16, now: U64): Inode {
    BlankInode(i).(name := CopyName(ZeroInode().name, name), mode := mode, linkCount := 1,
                   createdAt := now, modifiedAt := now, accessedAt := now)
  }

  function Create(v: Vol, name: CString, now: U64): Outcome
    requires Shape(v)
  {
    if |name| >= NAME_LEN || Find(v.inodes, name).Some? || v.sb.freeInodes == 0 || FreeSlot(v.inodes).None?
    then Fail(v)
    else
      var i := FreeSlot(v.inodes).value;
      Done(Flushed(v.(sb := v.sb.(freeInodes := Wrap(v.sb.freeInodes - 1)),
                      inodes := v.inodes[i := NewInode(i, name, REGULAR_FILE_MODE, now)])))
  }

  /** fs_delete of the file in slot i. */
  function DeleteSlot(v: Vol, i: nat): Vol
    requires Shape(v) && i < |v.inodes|
  {
    var ptrs := Own(v.inodes[i], v.sb.blockSize);
    Flushed(v.(sb := v.sb.(freeBlocks := Wrap(v.sb.freeBlocks + |ptrs|), freeInodes := Wrap(v.sb.freeInodes + 1)),
               used := Unmark(v.used, ptrs),
               inodes := v.inodes[i := v.inodes[i].(isUsed := 0)]))
  }

  function Delete(v: Vol, name: CString): Outcome
    requires Shape(v)
  {
    match Find(v.inodes, name)
    case None => Fail(v)
    case Some(i) => Done(DeleteSlot(v, i))
  }

  /** blocks_needed of _do_write, with its 32-bit sum and its rounding up to one. */
  function BlocksNeeded(len: U32, bs: U32): (n: nat)
    requires 0 < bs
    ensures 1 <= n
  {
    Max(1, Quot(Wrap(len + bs - 1), bs))
  }

  /** The n smallest clear blocks. */
  function FirstFit(used: seq<bool>, n: nat): (p: seq<U32>)
    requires |used| <= TWO32 && n <= |Clear(used)|
    ensures p == Clear(used)[..n]
  {
    ClearExact(used);
    assert forall k :: 0 <= k < n ==> Clear(used)[k] in Clear(used);
    Clear(used)[..n]
  }

  /** The blocks _do_write takes: the n smallest clear ones once the inode's own are given back. */
  function Taken(v: Vol, ino: Inode, n: nat): (p: seq<U32>)
    requires Ready(v, ino) && n <= v.sb.freeBlocks
    ensures |p| == n
  {
    FreeDistinct(v.used, Own(ino, v.sb.blockSize));
    FirstFit(Unmark(v.used, Own(ino, v.sb.blockSize)), n)
  }

  /** The counters after a write of len bytes that gives back held blocks and takes need. */
  function Charged(sb: Superblock, held: nat, need: nat, len: nat): Superblock {
    sb.(freeBlocks := Wrap(sb.freeBlocks + held - need),
        totalWrites := Wrap64(sb.totalWrites + 1),
        bytesWritten := Wrap64(sb.bytesWritten + len))
  }

  /** _do_write: the volume, the inode (not yet written back) and the success flag. */
  function DoWrite(v: Vol, ino: Inode, content: seq<Byte>, now: U64): (r: (Vol, Inode, bool))
    requires Ready(v, ino) && |content| < TWO32
  {
    var bs := v.sb.blockSize;
    var need := BlocksNeeded(|content|, bs);
    if need > DIRECT || need > v.sb.freeBlocks then (v, ino, false) else
    var held := Own(ino, bs);
    var ptrs := Taken(v, ino, need);
    (v.(sb := Charged(v.sb, |held|, need, |content|),
        used := Mark(Unmark(v.used, held), ptrs),
        data := Place(v.data, ptrs, content, bs, need)),
     ino.(direct := ptrs + ino.direct[need..], size := |content|, modifiedAt := now),
     true)
  }

  /** Write content to slot i: the tail shared by fs_write and fs_append. */
  function Rewrite(v: Vol, i: nat, content: seq<Byte>, now: U64): Outcome
    requires i < |v.inodes| && Ready(v, v.inodes[i]) && |content| < TWO32
  {
    var (w, ino, ok) := DoWrite(v, v.inodes[i], content, now);
    if ok then Done(Flushed(w.(inodes := w.inodes[i := ino]))) else Fail(v)
  }

  /** The part of a string that (uint32_t)strlen counts. */
  function Counted(s: seq<Byte>): (r: seq<Byte>)
    ensures |r| == Wrap(|s|) && (|s| < TWO32 ==> r == s)
  {
    s[..Wrap(|s|)]
  }

  function Write(v: Vol, name: CString, content: seq<Byte>, now: U64): Outcome
    requires Inv(v)
  {
    match Find(v.inodes, name)
    case None => Fail(v)
    case Some(i) => Rewrite(v, i, Counted(content), now)
  }

  function FileContents(v: Vol, i: nat): seq<Byte>
    requires Shape(v) && i < |v.inodes|
  {
    Contents(v.data, v.inodes[i], v.sb.blockSize)
  }

  /** new_len + 1, the size of fs_append's buffer, does not wrap. app_len is (uint32_t)strlen. */
  predicate BufferHolds(oldLen: U32, len: nat) { oldLen + Wrap(len) + 1 < TWO32 }

  /** That is exactly when old contents, new data and terminator stay inside the buffer, src/fs.c:379-389. */
  lemma BufferHoldsExactly(oldLen: U32, len: nat)
    ensures var newLen := Wrap(oldLen + Wrap(len));
            BufferHolds(oldLen, len) <==> oldLen + Wrap(len) + 1 <= Wrap(newLen + 1)
  {
  }

  /** fs_append does not write past its buffer; where it does, it has no defined result. */
  predicate AppendDefined(v: Vol, name: CString, content: seq<Byte>)
    requires Shape(v)
  {
    var r := Find(v.inodes, name);
    r.Some? ==> BufferHolds(v.inodes[r.value].size, |content|)
  }

  function Append(v: Vol, name: CString, content: seq<Byte>, now: U64): Outcome
    requires Inv(v) && AppendDefined(v, name, content)
  {
    match Find(v.inodes, name)
    case None => Fail(v)
    case Some(i) =>
      Rewrite(v, i, FileContents(v, i) + Counted(content), now)
  }

  /** fs_read of the file in slot i. */
  function ReadSlotOutcome(v: Vol, i: nat, now: U64): Outcome
    requires Shape(v) && i < |v.inodes|
  {
    var ino := v.inodes[i];
    Outcome(Flushed(v.(sb := v.sb.(totalReads := Wrap64(v.sb.totalReads + 1),
                                   bytesRead := Wrap64(v.sb.bytesRead + ino.size)),
                       inodes := v.inodes[i := ino.(accessedAt := now)])),
            true, FileContents(v, i))
  }

  function Read(v: Vol, name: CString, now: U64): Outcome
    requires Shape(v)
  {
    match Find(v.inodes, name)
    case None => Fail(v)
    case Some(i) => ReadSlotOutcome(v, i, now)
  }

  function Rename(v: Vol, oldName: CString, newName: CString, now: U64): Outcome
    requires Shape(v)
  {
    if |newName| >= NAME_LEN then Fail(v) else
    match Find(v.inodes, oldName)
    case None => Fail(v)
    case Some(i) =>
      if Find(v.inodes, newName).Some? then Fail(v) else
      var ino := v.inodes[i];
      Done(v.(inodes := v.inodes[i := ino.(name := CopyName(ino.name, newName), modifiedAt := now)]))
  }

  /** The volume after inode_allocate has taken slot i. */
  function Allocated(v: Vol, i: nat): Vol
    requires Shape(v) && i < |v.inodes|
  {
    v.(sb := v.sb.(freeInodes := Wrap(v.sb.freeInodes - 1)), inodes := v.inodes[i := BlankInode(i)])
  }

  lemma AllocatedReady(v: Vol, i: nat, ino: Inode)
    requires Shape(v) && MetadataMarked(v) && v.sb.freeBlocks == |Clear(v.used)|
    requires i < |v.inodes| && IsUsed(ino) && ino.size == 0
    ensures Ready(Allocated(v, i), ino)
  {
    CeilBounds(0, v.sb.blockSize);
  }

  function Copy(v: Vol, src: CString, dst: CString, now: U64): Outcome
    requires Inv(v)
  {
    match Find(v.inodes, src)
    case None => Fail(v)
    case Some(s) =>
      if Find(v.inodes, dst).Some? || v.sb.freeInodes == 0 || FreeSlot(v.inodes).None? then Fail(v)
      else CopyInto(v, s, FreeSlot(v.inodes).value, dst, now)
  }

  /** src/fs.c:522-562: copy slot s to the free slot i. */
  function CopyInto(v: Vol, s: nat, i: nat, dst: CString, now: U64): Outcome
    requires Shape(v) && MetadataMarked(v) && v.sb.freeBlocks == |Clear(v.used)|
    requires s < |v.inodes| && i < |v.inodes|
  {
    var a := Allocated(v, i);
    var ino := NewInode(i, dst, v.inodes[s].mode, now);
    if v.inodes[s].size == 0 then Done(Flushed(a.(inodes := a.inodes[i := ino]))) else
    AllocatedReady(v, i, ino);
    var (w, ino', ok) := DoWrite(a, ino, FileContents(v, s), now);
    if ok then Done(Flushed(w.(inodes := w.inodes[i := ino'])))
    else Fail(a.(sb := a.sb.(freeInodes := Wrap(a.sb.freeInodes + 1)),
                 inodes := a.inodes[i := BlankInode(i).(isUsed := 0)]))
  }

  /** The blocks of a file past those a smaller size needs. */
  function Excess(ino: Inode, newSize: U32, bs: nat): (p: seq<U32>)
    requires 0 < bs && newSize <= ino.size
    ensures Ceil(newSize, bs) <= |Own(ino, bs)| ==> p == Own(ino, bs)[Ceil(newSize, bs)..]
  {
    CeilMono(newSize, ino.size, bs);
    if Own(ino, bs) == [] then [] else Own(ino, bs)[Ceil(newSize, bs)..]
  }

  /** fs_truncate_file of slot i, to a size not above the present one. */
  function TruncateSlot(v: Vol, i: nat, newSize: U32, now: U64): Vol
    requires Shape(v) && i < |v.inodes| && newSize <= v.inodes[i].size
  {
    var ino := v.inodes[i];
    var excess := Excess(ino, newSize, v.sb.blockSize);
    Flushed(v.(sb := v.sb.(freeBlocks := Wrap(v.sb.freeBlocks + |excess|)),
               used := Unmark(v.used, excess),
               inodes := v.inodes[i := ino.(size := newSize, modifiedAt := now)]))
  }

  function Truncate(v: Vol, name: CString, newSize: U32, now: U64): Outcome
    requires Shape(v)
  {
    match Find(v.inodes, name)
    case None => Fail(v)
    case Some(i) =>
      if newSize > v.inodes[i].size then Fail(v) else Done(TruncateSlot(v, i, newSize, now))
  }

  function Chmod(v: Vol, name: CString, mode: bv16, now: U64): Outcome
    requires Shape(v)
  {
    match Find(v.inodes, name)
    case None => Fail(v)
    case Some(i) =>
      var ino := v.inodes[i];
      Done(v.(inodes := v.inodes[i := ino.(mode := (ino.mode & 0xF000) | (mode & 0x0FFF), modifiedAt := now)]))
  }

  // ---- fsck ----

  /** What the inode walk of fs_fsck has found after n slots. */
  datatype Walk = Walk(errors: nat, usedInodes: nat, usedBlocks: nat)

  predicate FsckSkips(sb: Superblock, ino: Inode) {
    ino.id >= sb.maxInodes || ino.isUsed > 1 || ino.size > Wrap(DIRECT * sb.blockSize)
  }

  /** Pointers outside the data region among the first n. */
  function StrayPointers(sb: Superblock, direct: seq<U32>, n: nat): nat
    requires n <= |direct|
  {
    if n == 0 then 0 else
      StrayPointers(sb, direct, n - 1)
      + if direct[n - 1] < sb.dataStart || direct[n - 1] >= sb.totalBlocks then 1 else 0
  }

  function FsckWalk(v: Vol, n: nat): Walk
    requires Shape(v) && n <= |v.inodes|
  {
    if n == 0 then Walk(0, 0, 0) else
      var w := FsckWalk(v, n - 1);
      var ino := v.inodes[n - 1];
      if ino.isUsed == 0 || FsckSkips(v.sb, ino) then w else
      var errors := w.errors + if ino.id != n - 1 then 1 else 0;
      var blocks := Quot(Wrap(ino.size + v.sb.blockSize - 1), v.sb.blockSize);
      var expected := if ino.size > 0 then blocks else 0;
      if expected > DIRECT then Walk(errors + 1, w.usedInodes + 1, w.usedBlocks)
      else Walk(errors + StrayPointers(v.sb, ino.direct, expected), w.usedInodes + 1,
                Wrap(w.usedBlocks + expected))
  }

  /** The number of errors fs_fsck reports. */
  function Fsck(v: Vol): nat
    requires Shape(v)
  {
    var w := FsckWalk(v, |v.inodes|);
    (if v.sb.magic != FS_MAGIC then 1 else 0) + w.errors
    + (if w.usedInodes != Wrap(v.sb.maxInodes - v.sb.freeInodes) then 1 else 0)
    + (if w.usedBlocks != Wrap(v.sb.dataBlocks - v.sb.freeBlocks) then 1 else 0)
  }
}
