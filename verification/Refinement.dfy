/** The volume refines the model: one command, then whole runs. */
module Refinement {
  import opened Types
  import opened Arith
  import opened Geometry
  import opened Volume
  import opened Ownership
  import opened UserView

  // ---- the abstraction ----

  function Names(inodes: seq<Inode>): set<CString> {
    set i | 0 <= i < |inodes| && IsUsed(inodes[i]) :: NameOf(inodes[i])
  }

  function FileOf(v: Vol, ino: Inode): File
    requires Shape(v)
  {
    File(Contents(v.data, ino, v.sb.blockSize), ino.mode)
  }

  function Dir(v: Vol): map<CString, File>
    requires Shape(v)
  {
    map n | n in Names(v.inodes) && Find(v.inodes, n).Some? :: FileOf(v, v.inodes[Find(v.inodes, n).value])
  }

  function Stranded(v: Vol): int
    requires Shape(v)
  {
    v.sb.dataBlocks - v.sb.freeBlocks - SumOwned(v.inodes, v.sb.blockSize)
  }

  function Abs(v: Vol): Model
    requires Shape(v)
  {
    Model(v.sb.blockSize, Dir(v), v.sb.freeBlocks, v.sb.freeInodes, Stranded(v))
  }

  lemma NameListed(inodes: seq<Inode>, n: CString)
    ensures n in Names(inodes) <==> Find(inodes, n).Some?
  {
    if Find(inodes, n).Some? {
      var i := Find(inodes, n).value;
      assert NameOf(inodes[i]) in Names(inodes);
    }
  }

  /** Looking a name up in the abstract directory is inode_find_by_name. */
  lemma DirFind(v: Vol, n: CString)
    requires Shape(v)
    ensures n in Dir(v) <==> Find(v.inodes, n).Some?
    ensures n in Dir(v) ==> Dir(v)[n] == FileOf(v, v.inodes[Find(v.inodes, n).value])
  {
    NameListed(v.inodes, n);
  }

  ghost predicate Distinct(inodes: seq<Inode>) {
    forall i, j | 0 <= i < |inodes| && 0 <= j < |inodes| ::
      IsUsed(inodes[i]) && IsUsed(inodes[j]) && NameOf(inodes[i]) == NameOf(inodes[j]) ==> i == j
  }

  /** With distinct names, a slot is found by its own name. */
  lemma FindOwn(inodes: seq<Inode>, i: nat)
    requires Distinct(inodes) && i < |inodes| && IsUsed(inodes[i])
    ensures Find(inodes, NameOf(inodes[i])) == Some(i)
  {
  }

  // ---- the frame: other files read back unchanged ----

  /** A file whose blocks keep their bytes reads as before. */
  lemma SameBytes(v: Vol, w: Vol, ino: Inode)
    requires Shape(v) && Shape(w) && SameGeo(v.sb, w.sb)
    requires IsUsed(ino) && Ceil(ino.size, v.sb.blockSize) <= DIRECT && PointersOk(v, Own(ino, v.sb.blockSize))
    requires forall b | b in Own(ino, v.sb.blockSize) :: b in v.data ==> w.data[b] == v.data[b]
    ensures FileOf(w, ino) == FileOf(v, ino)
  {
    var bs := v.sb.blockSize;
    forall x | 0 <= x < ino.size
      ensures ByteAt(w.data, ino.direct, bs, x) == ByteAt(v.data, ino.direct, bs, x)
    {
      ByteInBlocks(x, ino.size, bs);
      var k := Quot(x, bs);
      assert Own(ino, bs)[k] == ino.direct[k];
      assert ino.direct[k] in Own(ino, bs);
    }
  }

  lemma OtherContents(v: Vol, w: Vol, i: nat, lost: seq<U32>, j: nat)
    requires SlotStep(v, w, i, lost) && j < |v.inodes| && j != i && IsUsed(v.inodes[j])
    requires Ceil(v.inodes[j].size, v.sb.blockSize) <= DIRECT
    requires PointersOk(v, Own(v.inodes[j], v.sb.blockSize))
    requires forall b | b in Own(v.inodes[j], v.sb.blockSize) :: b !in Own(v.inodes[i], v.sb.blockSize)
    ensures FileOf(w, v.inodes[j]) == FileOf(v, v.inodes[j])
  {
    var own := Own(v.inodes[j], v.sb.blockSize);
    forall b | b in own
      ensures b in v.data && w.data[b] == v.data[b]
    {
      var k :| 0 <= k < |own| && own[k] == b;
    }
    SameBytes(v, w, v.inodes[j]);
  }

  ghost predicate OthersKept(v: Vol, w: Vol, i: nat)
    requires Shape(v) && Shape(w)
  {
    forall j | 0 <= j < |v.inodes| :: j != i && IsUsed(v.inodes[j]) ==> FileOf(w, v.inodes[j]) == FileOf(v, v.inodes[j])
  }

  /** Just-freed blocks are reused at once, yet no other file loses a byte. */
  lemma OthersReadBack(v: Vol, w: Vol, i: nat, lost: seq<U32>)
    requires Inv(v) && SlotStep(v, w, i, lost)
    ensures OthersKept(v, w, i)
  {
    forall j | 0 <= j < |v.inodes| && j != i && IsUsed(v.inodes[j])
      ensures FileOf(w, v.inodes[j]) == FileOf(v, v.inodes[j])
    {
      OtherContents(v, w, i, lost, j);
    }
  }

  /** Directory d after slot i has gone from v's inode to w's. */
  function DirAfter(v: Vol, w: Vol, i: nat, d: map<CString, File>): map<CString, File>
    requires Shape(w) && i < |v.inodes| && i < |w.inodes|
  {
    var rest := if IsUsed(v.inodes[i]) then d - {NameOf(v.inodes[i])} else d;
    if IsUsed(w.inodes[i]) then rest[NameOf(w.inodes[i]) := FileOf(w, w.inodes[i])] else rest
  }

  /** What Find returns, without its recursion. */
  ghost predicate Found(inodes: seq<Inode>, n: CString, r: Option<nat>) {
    match r
    case None => forall j :: 0 <= j < |inodes| && IsUsed(inodes[j]) ==> NameOf(inodes[j]) != n
    case Some(j) => j < |inodes| && IsUsed(inodes[j]) && NameOf(inodes[j]) == n
  }

  lemma FindFinds(inodes: seq<Inode>, n: CString)
    ensures Found(inodes, n, Find(inodes, n))
  {
  }

  /** Names other than slot i's are found where they were. */
  lemma FoundElsewhere(before: seq<Inode>, after: seq<Inode>, i: nat, n: CString, r: Option<nat>, s: Option<nat>)
    requires |after| == |before| && i < |before| && forall j :: 0 <= j < |before| && j != i ==> after[j] == before[j]
    requires Distinct(before) && Found(before, n, r) && Found(after, n, s)
    requires IsUsed(after[i]) ==> n != NameOf(after[i])
    ensures s == if IsUsed(before[i]) && n == NameOf(before[i]) then None else r
  {
    if r.Some? && r.value != i {
      assert after[r.value] == before[r.value];
    }
    if s.Some? {
      assert after[s.value] == before[s.value];
    }
  }

  ghost predicate EntryIs(v: Vol, d: map<CString, File>, n: CString, r: Option<nat>)
    requires Shape(v)
  {
    && Found(v.inodes, n, r)
    && (n in d <==> r.Some?)
    && (r.Some? ==> d[n] == FileOf(v, v.inodes[r.value]))
  }

  lemma DirEntry(v: Vol, n: CString)
    requires Shape(v)
    ensures EntryIs(v, Dir(v), n, Find(v.inodes, n))
  {
    DirFind(v, n);
    FindFinds(v.inodes, n);
  }

  lemma EntryUpdated(v: Vol, w: Vol, i: nat, n: CString, dv: map<CString, File>, dw: map<CString, File>,
                     r: Option<nat>, s: Option<nat>)
    requires Shape(v) && Shape(w) && OthersKept(v, w, i) && Distinct(v.inodes) && Distinct(w.inodes)
    requires |w.inodes| == |v.inodes| && i < |v.inodes|
    requires forall j :: 0 <= j < |v.inodes| && j != i ==> w.inodes[j] == v.inodes[j]
    requires EntryIs(v, dv, n, r) && EntryIs(w, dw, n, s)
    ensures n in dw <==> n in DirAfter(v, w, i, dv)
    ensures n in dw ==> dw[n] == DirAfter(v, w, i, dv)[n]
  {
    if IsUsed(w.inodes[i]) && n == NameOf(w.inodes[i]) {
      assert s == Some(i);
    } else {
      FoundElsewhere(v.inodes, w.inodes, i, n, r, s);
    }
  }

  lemma DirUpdated(v: Vol, w: Vol, i: nat)
    requires Shape(v) && Shape(w) && OthersKept(v, w, i)
    requires |w.inodes| == |v.inodes| && i < |v.inodes| && w.inodes == v.inodes[i := w.inodes[i]]
    requires Distinct(v.inodes) && Distinct(w.inodes)
    ensures Dir(w) == DirAfter(v, w, i, Dir(v))
  {
    forall n: CString
      ensures n in Dir(w) <==> n in DirAfter(v, w, i, Dir(v))
      ensures n in Dir(w) ==> Dir(w)[n] == DirAfter(v, w, i, Dir(v))[n]
    {
      DirEntry(v, n);
      DirEntry(w, n);
      EntryUpdated(v, w, i, n, Dir(v), Dir(w), Find(v.inodes, n), Find(w.inodes, n));
    }
  }

  lemma InvDistinct(v: Vol)
    requires Inv(v)
    ensures Shape(v) && Distinct(v.inodes)
  {
  }

  lemma StrandedStep(v: Vol, w: Vol, i: nat, lost: seq<U32>)
    requires Inv(v) && SlotStep(v, w, i, lost)
    ensures Stranded(w) == Stranded(v) + |lost|
  {
    SlotStepInv(v, w, i, lost);
  }

  /** A slot step is an update of the abstract directory at the slot's name, and nowhere else. */
  lemma SlotStepDir(v: Vol, w: Vol, i: nat, lost: seq<U32>)
    requires Inv(v) && SlotStep(v, w, i, lost)
    ensures Inv(w)
    ensures Dir(w) == DirAfter(v, w, i, Dir(v))
    ensures Stranded(w) == Stranded(v) + |lost|
  {
    SlotStepInv(v, w, i, lost);
    StrandedStep(v, w, i, lost);
    OthersReadBack(v, w, i, lost);
    InvDistinct(v);
    InvDistinct(w);
    DirUpdated(v, w, i);
  }
}
