/** Each command of the volume computes what the model says: state, success flag and output. */
module Commands {
  import opened Types
  import opened Arith
  import opened Geometry
  import opened FreeList
  import opened Volume
  import opened Ownership
  import opened Steps
  import opened UserView
  import opened Refinement

  /** The outcome of a concrete operation is the model's answer. */
  ghost predicate Matches(r: Outcome, a: (Model, Reply)) {
    Shape(r.vol) && a == (Abs(r.vol), Reply(r.ok, r.output))
  }

  /** And it leaves a good volume. */
  ghost predicate Refines(r: Outcome, a: (Model, Reply)) { Inv(r.vol) && Matches(r, a) }

  /** What the directory entry of n shows of the file. */
  ghost predicate EntryOk(v: Vol, n: CString) {
    && Shape(v)
    && (n in Dir(v) <==> Find(v.inodes, n).Some?)
    && (Find(v.inodes, n).Some? ==>
          var i := Find(v.inodes, n).value;
          && Dir(v)[n] == FileOf(v, v.inodes[i])
          && |Own(v.inodes[i], v.sb.blockSize)| == Ceil(v.inodes[i].size, v.sb.blockSize))
  }

  lemma Entry(v: Vol, n: CString)
    requires Inv(v)
    ensures EntryOk(v, n)
    ensures Find(v.inodes, n).Some? ==> Local(v, Find(v.inodes, n).value)
  {
    DirFind(v, n);
    if Find(v.inodes, n).Some? {
      InvLocal(v, Find(v.inodes, n).value);
    }
  }

  /** The abstract side of a slot step. */
  ghost predicate AbsStep(v: Vol, w: Vol, i: nat, lost: nat) {
    && Shape(v) && Shape(w) && SameGeo(v.sb, w.sb)
    && i < |v.inodes| && w.inodes == v.inodes[i := w.inodes[i]]
    && Dir(w) == DirAfter(v, w, i, Dir(v))
    && Stranded(w) == Stranded(v) + lost
  }

  lemma AbsStepOf(v: Vol, w: Vol, i: nat, lost: seq<U32>)
    requires Inv(v) && SlotStep(v, w, i, lost)
    ensures Inv(w) && AbsStep(v, w, i, |lost|)
  {
    SlotStepDir(v, w, i, lost);
  }

  // ---- create, delete, rename, chmod, truncate, read ----

  lemma CreateModel(v: Vol, name: CString, now: U64)
    requires EntryOk(v, name)
    requires v.sb.freeInodes != 0 ==> FreeSlot(v.inodes).Some?
    requires var r := Create(v, name, now);
             r.ok ==> AbsStep(v, r.vol, FreeSlot(v.inodes).value, 0)
                      && NameOf(r.vol.inodes[FreeSlot(v.inodes).value]) == name
    ensures Matches(Create(v, name, now), MakeFile(Abs(v), name))
  {
    var r := Create(v, name, now);
    if r.ok {
      var i := FreeSlot(v.inodes).value;
      NewFile(v, r.vol, r.vol.inodes[i]);
      CreateIs(v, name, now, i, r);
      assert Abs(r.vol) == MakeFile(Abs(v), name).0;
    }
  }

  /** A new inode shows an empty regular file. */
  lemma NewFile(v: Vol, w: Vol, ino: Inode)
    requires Shape(w)
    ensures ino.size == 0 && ino.mode == REGULAR_FILE_MODE ==> FileOf(w, ino) == File([], REGULAR_FILE_MODE)
  {
  }

  lemma CreateIs(v: Vol, name: CString, now: U64, i: nat, r: Outcome)
    requires Shape(v) && r == Create(v, name, now) && r.ok && FreeSlot(v.inodes) == Some(i)
    ensures |r.vol.inodes| == |v.inodes| && r.vol.inodes[i] == NewInode(i, name, REGULAR_FILE_MODE, now)
    ensures r.vol.sb == v.sb.(freeInodes := Wrap(v.sb.freeInodes - 1)) && r.output == []
  {
  }

  lemma CreateRefines(v: Vol, name: CString, now: U64)
    requires Inv(v)
    ensures Inv(Create(v, name, now).vol)
    ensures Matches(Create(v, name, now), MakeFile(Abs(v), name))
  {
    Entry(v, name);
    if v.sb.freeInodes != 0 {
      SlotAvailable(v);
    }
    if Create(v, name, now).ok {
      InvLocal(v, FreeSlot(v.inodes).value);
      CreateStep(v, name, now);
      AbsStepOf(v, Create(v, name, now).vol, FreeSlot(v.inodes).value, []);
    }
    CreateModel(v, name, now);
  }

  ghost predicate CountersFit(v: Vol, i: nat)
    requires Shape(v) && i < |v.inodes|
  {
    var n := v.sb.freeBlocks + |Own(v.inodes[i], v.sb.blockSize)|;
    n < TWO32 && Wrap(n) == n && Wrap(v.sb.freeInodes + 1) == v.sb.freeInodes + 1
  }

  lemma FreedBlocksFit(v: Vol, ino: Inode)
    requires Ready(v, ino)
    ensures v.sb.freeBlocks + |Own(ino, v.sb.blockSize)| <= |v.used|
  {
    var own := Own(ino, v.sb.blockSize);
    FreeDistinct(v.used, own);
    ClearBound(Unmark(v.used, own));
  }

  /** Giving blocks of a file back cannot wrap the counters. */
  lemma FreedCounter(v: Vol, i: nat)
    requires Local(v, i) && IsUsed(v.inodes[i])
    ensures CountersFit(v, i)
  {
    FreedBlocksFit(v, v.inodes[i]);
  }

  lemma DeleteModel(v: Vol, w: Vol, name: CString, i: nat)
    requires EntryOk(v, name) && Find(v.inodes, name) == Some(i)
    requires AbsStep(v, w, i, 0) && !IsUsed(w.inodes[i])
    requires w.sb.freeBlocks == v.sb.freeBlocks + |Own(v.inodes[i], v.sb.blockSize)|
    requires w.sb.freeInodes == v.sb.freeInodes + 1
    ensures RemoveFile(Abs(v), name) == Accepted(Abs(w))
  {
    var m := Abs(v);
    assert Blocks(m, m.dir[name].contents) == |Own(v.inodes[i], v.sb.blockSize)|;
    var x := RemoveFile(m, name);
    assert x.0.dir == Dir(w);
    assert x.0.freeBlocks == w.sb.freeBlocks;
    assert x.0 == Abs(w);
  }

  lemma DeleteRefines(v: Vol, name: CString)
    requires Inv(v)
    ensures Inv(Delete(v, name).vol)
    ensures Matches(Delete(v, name), RemoveFile(Abs(v), name))
  {
    Entry(v, name);
    if Delete(v, name).ok {
      var i := Find(v.inodes, name).value;
      var w := Delete(v, name).vol;
      DeleteStep(v, name);
      FreedCounter(v, i);
      AbsStepOf(v, w, i, []);
      DeleteModel(v, w, name, i);
    }
  }

  /** The directory when slot i keeps its name. */
  lemma SameName(v: Vol, w: Vol, i: nat, lost: nat, name: CString)
    requires AbsStep(v, w, i, lost) && IsUsed(v.inodes[i]) && IsUsed(w.inodes[i])
    requires NameOf(v.inodes[i]) == NameOf(w.inodes[i]) == name && name in Dir(v)
    ensures Dir(w) == Dir(v)[name := FileOf(w, w.inodes[i])]
  {
  }

  lemma ReadModel(v: Vol, name: CString, now: U64)
    requires EntryOk(v, name)
    requires Read(v, name, now).ok ==> AbsStep(v, Read(v, name, now).vol, Find(v.inodes, name).value, 0)
    ensures var a := Abs(v);
            Matches(Read(v, name, now),
                    if name in a.dir then (a, Reply(true, a.dir[name].contents)) else Refused(a))
  {
    var r := Read(v, name, now);
    if r.ok {
      var i := Find(v.inodes, name).value;
      SameName(v, r.vol, i, 0, name);
      assert FileOf(r.vol, r.vol.inodes[i]) == FileOf(v, v.inodes[i]);
      assert Dir(r.vol) == Dir(v);
    }
  }

  lemma ReadRefines(v: Vol, name: CString, now: U64)
    requires Inv(v)
    ensures Inv(Read(v, name, now).vol)
    ensures var a := Abs(v);
            Matches(Read(v, name, now),
                    if name in a.dir then (a, Reply(true, a.dir[name].contents)) else Refused(a))
  {
    Entry(v, name);
    if Read(v, name, now).ok {
      ReadStep(v, name, now);
      AbsStepOf(v, Read(v, name, now).vol, Find(v.inodes, name).value, []);
    }
    ReadModel(v, name, now);
  }

  lemma RenameModel(v: Vol, name: CString, to: CString, now: U64)
    requires EntryOk(v, name) && EntryOk(v, to)
    requires var r := Rename(v, name, to, now);
             r.ok ==> AbsStep(v, r.vol, Find(v.inodes, name).value, 0)
                      && NameOf(r.vol.inodes[Find(v.inodes, name).value]) == to
    ensures Matches(Rename(v, name, to, now), MoveFile(Abs(v), name, to))
  {
    var r := Rename(v, name, to, now);
    if r.ok {
      var i := Find(v.inodes, name).value;
      assert FileOf(r.vol, r.vol.inodes[i]) == FileOf(v, v.inodes[i]);
    }
  }

  lemma RenameRefines(v: Vol, name: CString, to: CString, now: U64)
    requires Inv(v)
    ensures Inv(Rename(v, name, to, now).vol)
    ensures Matches(Rename(v, name, to, now), MoveFile(Abs(v), name, to))
  {
    Entry(v, name);
    Entry(v, to);
    if Rename(v, name, to, now).ok {
      RenameStep(v, name, to, now);
      AbsStepOf(v, Rename(v, name, to, now).vol, Find(v.inodes, name).value, []);
    }
    RenameModel(v, name, to, now);
  }

  lemma ChmodModel(v: Vol, name: CString, mode: bv16, now: U64)
    requires EntryOk(v, name)
    requires Chmod(v, name, mode, now).ok
             ==> AbsStep(v, Chmod(v, name, mode, now).vol, Find(v.inodes, name).value, 0)
    ensures Matches(Chmod(v, name, mode, now), SetMode(Abs(v), name, mode))
  {
    var r := Chmod(v, name, mode, now);
    if r.ok {
      var i := Find(v.inodes, name).value;
      SameName(v, r.vol, i, 0, name);
      assert FileOf(r.vol, r.vol.inodes[i]).contents == FileOf(v, v.inodes[i]).contents;
    }
  }

  lemma ChmodRefines(v: Vol, name: CString, mode: bv16, now: U64)
    requires Inv(v)
    ensures Inv(Chmod(v, name, mode, now).vol)
    ensures Matches(Chmod(v, name, mode, now), SetMode(Abs(v), name, mode))
  {
    Entry(v, name);
    if Chmod(v, name, mode, now).ok {
      ChmodStep(v, name, mode, now);
      AbsStepOf(v, Chmod(v, name, mode, now).vol, Find(v.inodes, name).value, []);
    }
    ChmodModel(v, name, mode, now);
  }

  /** A shorter size shows a prefix: no byte past it reappears. */
  lemma TruncatedContents(v: Vol, w: Vol, before: Inode, after: Inode)
    requires Shape(v) && Shape(w) && SameGeo(v.sb, w.sb) && w.data == v.data
    requires after.size <= before.size && after.direct == before.direct && after.mode == before.mode
    ensures FileOf(w, after) == File(FileOf(v, before).contents[..after.size], before.mode)
  {
  }

  lemma TruncateModel(v: Vol, w: Vol, name: CString, i: nat, size: U32)
    requires EntryOk(v, name) && Find(v.inodes, name) == Some(i)
    requires AbsStep(v, w, i, 0) && IsUsed(w.inodes[i]) && NameOf(w.inodes[i]) == name
    requires size <= v.inodes[i].size
    requires FileOf(w, w.inodes[i]) == File(FileOf(v, v.inodes[i]).contents[..size], v.inodes[i].mode)
    requires w.sb.freeBlocks == v.sb.freeBlocks + |Own(v.inodes[i], v.sb.blockSize)| - Ceil(size, v.sb.blockSize)
    requires w.sb.freeInodes == v.sb.freeInodes
    ensures CutFile(Abs(v), name, size) == Accepted(Abs(w))
  {
    SameName(v, w, i, 0, name);
    var m := Abs(v);
    assert Blocks(m, m.dir[name].contents) == |Own(v.inodes[i], v.sb.blockSize)|;
    assert Blocks(m, m.dir[name].contents[..size]) == Ceil(size, v.sb.blockSize);
    var x := CutFile(m, name, size);
    assert x.0.dir == Dir(w);
    assert x.0.freeBlocks == w.sb.freeBlocks;
    assert x.0 == Abs(w);
  }

  lemma TruncateRefines(v: Vol, name: CString, size: U32, now: U64)
    requires Inv(v)
    ensures Inv(Truncate(v, name, size, now).vol)
    ensures Matches(Truncate(v, name, size, now), CutFile(Abs(v), name, size))
  {
    Entry(v, name);
    if Truncate(v, name, size, now).ok {
      var i := Find(v.inodes, name).value;
      var w := Truncate(v, name, size, now).vol;
      TruncateStep(v, name, size, now);
      FreedCounter(v, i);
      TruncatedOwn(v.inodes[i], size, now, v.sb.blockSize);
      TruncatedContents(v, w, v.inodes[i], w.inodes[i]);
      AbsStepOf(v, w, i, []);
      TruncateModel(v, w, name, i, size);
    }
  }

  // ---- write and append ----

  /** The written inode reads back as exactly the content. */
  lemma WrittenContents(a: Vol, ino: Inode, content: seq<Byte>, now: U64)
    requires Ready(a, ino) && NoWrap(a, |content|) && |content| < TWO32 && WriteFits(a, ino, |content|)
    ensures Contents(DoWrite(a, ino, content, now).0.data, DoWrite(a, ino, content, now).1, a.sb.blockSize)
            == content
  {
    var bs := a.sb.blockSize;
    var need := BlocksNeeded(|content|, bs);
    WrittenOwn(a, ino, content, now);
    TakenBlocks(a, ino, need);
    ReadBack(a.data, Taken(a, ino, need), DoWrite(a, ino, content, now).1, content, bs);
  }

  lemma RewriteCounter(v: Vol, i: nat, content: seq<Byte>, now: U64)
    requires Local(v, i) && IsUsed(v.inodes[i])
    requires NoWrap(v, |content|) && |content| < TWO32
    requires Rewrite(v, i, content, now).ok
    ensures Rewrite(v, i, content, now).vol.sb.freeBlocks
            == v.sb.freeBlocks + |Own(v.inodes[i], v.sb.blockSize)| - BlocksNeeded(|content|, v.sb.blockSize)
  {
    DoWriteShape(v, v.inodes[i], content, now);
    DoWriteBlocks(v, v.inodes[i], content, now);
  }

  lemma RewriteModel(v: Vol, w: Vol, name: CString, i: nat, content: seq<Byte>)
    requires EntryOk(v, name) && Find(v.inodes, name) == Some(i)
    requires AbsStep(v, w, i, if content == [] then 1 else 0)
    requires w.sb.freeInodes == v.sb.freeInodes
    requires IsUsed(w.inodes[i]) && NameOf(w.inodes[i]) == name
    requires FileOf(w, w.inodes[i]) == File(content, v.inodes[i].mode)
    requires var need := Max(1, Ceil(|content|, v.sb.blockSize));
             && need <= DIRECT && need <= v.sb.freeBlocks
             && w.sb.freeBlocks == v.sb.freeBlocks + |Own(v.inodes[i], v.sb.blockSize)| - need
    ensures Replace(Abs(v), name, content) == Accepted(Abs(w))
  {
    SameName(v, w, i, if content == [] then 1 else 0, name);
    var m := Abs(v);
    assert Blocks(m, m.dir[name].contents) == |Own(v.inodes[i], v.sb.blockSize)|;
    assert Blocks(m, content) == Ceil(|content|, v.sb.blockSize);
    var x := Replace(m, name, content);
    assert x.1 == Reply(true, []);
    assert x.0.dir == Dir(w);
    assert x.0.freeBlocks == w.sb.freeBlocks;
    assert x.0.freeInodes == w.sb.freeInodes;
    assert x.0.stranded == Stranded(w);
    assert x.0 == Abs(w);
  }

  lemma RewriteRefines(v: Vol, name: CString, i: nat, content: seq<Byte>, now: U64)
    requires Inv(v) && EntryOk(v, name) && Find(v.inodes, name) == Some(i) && Local(v, i)
    requires NoWrap(v, |content|) && |content| < TWO32
    ensures Inv(Rewrite(v, i, content, now).vol)
    ensures Matches(Rewrite(v, i, content, now), Replace(Abs(v), name, content))
  {
    NeededExact(|content|, v.sb.blockSize);
    if Rewrite(v, i, content, now).ok {
      RewriteStep(v, i, content, now);
      AbsStepOf(v, Rewrite(v, i, content, now).vol, i, LostTo(v, v.inodes[i], content));
      RewriteCounter(v, i, content, now);
      WrittenContents(v, v.inodes[i], content, now);
      RewriteModel(v, Rewrite(v, i, content, now).vol, name, i, content);
    }
  }

  lemma RefinesWhen(r: Outcome, a: (Model, Reply))
    requires Inv(r.vol) && r.output == [] && a == if r.ok then Accepted(Abs(r.vol)) else Refused(Abs(r.vol))
    ensures Refines(r, a)
  {
  }

  lemma FailRefines(v: Vol, r: Outcome, a: (Model, Reply))
    requires Inv(v) && r == Fail(v) && a == Refused(Abs(v))
    ensures Refines(r, a)
  {
  }

  lemma FreeBounded(v: Vol)
    requires Inv(v)
    ensures Shape(v) && v.sb.freeBlocks <= v.sb.dataBlocks
  {
  }

  lemma ReplaceTooLong(v: Vol, name: CString, content: seq<Byte>)
    requires Shape(v) && name in Dir(v) && Ceil(|content|, v.sb.blockSize) > v.sb.freeBlocks
    ensures Replace(Abs(v), name, content) == Refused(Abs(v))
  {
  }

  lemma RewriteAccepts(v: Vol, i: nat, stored: seq<Byte>, now: U64)
    requires i < |v.inodes| && Ready(v, v.inodes[i]) && |stored| < TWO32
    ensures Rewrite(v, i, stored, now).ok <==> Passes(Abs(v), |stored|)
    ensures !Rewrite(v, i, stored, now).ok ==> Rewrite(v, i, stored, now) == Fail(v)
  {
  }

  lemma SoundIs(m: Model, oldLen: U32, len: nat, stored: U32, meant: nat)
    requires 0 < m.blockSize && stored == oldLen + Wrap(len) && meant == oldLen + len
    ensures Sound(m, oldLen, len) <==> (Passes(m, stored) ==> Short(m, meant))
  {
  }

  /** What the user is refused is refined exactly by doing nothing. */
  lemma TooLong(v: Vol, r: Outcome, a: (Model, Reply))
    requires Inv(v) && a == Refused(Abs(v)) && (!r.ok ==> r == Fail(v))
    ensures Refines(r, a) <==> !r.ok
  {
  }

  /** The code writes `stored` where `content` was meant, the same unless a 32-bit length or sum wraps.
      It does what it should exactly when such data does not pass its checks. */
  lemma RewriteExact(v: Vol, name: CString, i: nat, content: seq<Byte>, stored: seq<Byte>, now: U64,
                     r: Outcome, a: (Model, Reply), oldLen: U32, len: nat)
    requires Inv(v) && EntryOk(v, name) && Find(v.inodes, name) == Some(i) && Local(v, i)
    requires |stored| == oldLen + Wrap(len) < TWO32 && |content| == oldLen + len
    requires len < TWO32 ==> stored == content
    requires r == Rewrite(v, i, stored, now) && a == Replace(Abs(v), name, content)
    ensures Refines(r, a) <==> Sound(Abs(v), oldLen, len)
  {
    RewriteAccepts(v, i, stored, now);
    SoundIs(Abs(v), oldLen, len, |stored|, |content|);
    if NoWrap(v, |content|) {
      RewriteRefines(v, name, i, content, now);
    } else {
      FreeBounded(v);
      WrapNeverFits(v, |content|);
      ReplaceTooLong(v, name, content);
      TooLong(v, r, a);
    }
  }

  /** Allowed, in terms of the volume. */
  lemma WriteAllowed(v: Vol, name: CString, content: seq<Byte>)
    requires EntryOk(v, name)
    ensures Allowed(Abs(v), WriteFile(name, content))
            <==> (Find(v.inodes, name).Some? ==> Sound(Abs(v), 0, |content|))
  {
  }

  lemma AppendAllowed(v: Vol, name: CString, content: seq<Byte>)
    requires EntryOk(v, name)
    ensures AppendDefined(v, name, content) <==> Defined(Abs(v), AppendFile(name, content))
    ensures Defined(Abs(v), AppendFile(name, content)) ==>
              (Allowed(Abs(v), AppendFile(name, content))
               <==> (Find(v.inodes, name).Some?
                     ==> Sound(Abs(v), v.inodes[Find(v.inodes, name).value].size, |content|)))
  {
  }

  lemma WriteIsRewrite(v: Vol, name: CString, i: nat, content: seq<Byte>, now: U64)
    requires Inv(v) && Find(v.inodes, name) == Some(i) && Ready(v, v.inodes[i])
    ensures Write(v, name, content, now) == Rewrite(v, i, Counted(content), now)
  {
  }

  /** What fs_append writes, and what the user meant. */
  lemma AppendStores(v: Vol, name: CString, i: nat, content: seq<Byte>, now: U64)
    returns (stored: seq<Byte>, meant: seq<Byte>)
    requires Inv(v) && EntryOk(v, name) && Find(v.inodes, name) == Some(i) && Ready(v, v.inodes[i])
    requires AppendDefined(v, name, content)
    ensures |stored| == v.inodes[i].size + Wrap(|content|) < TWO32 && |meant| == v.inodes[i].size + |content|
    ensures meant == Dir(v)[name].contents + content && (|content| < TWO32 ==> stored == meant)
    ensures Append(v, name, content, now) == Rewrite(v, i, stored, now)
    ensures Apply(Abs(v), AppendFile(name, content)) == Replace(Abs(v), name, meant)
  {
    ReplaceApplied(v, name, content);
    stored, meant := FileContents(v, i) + Counted(content), FileContents(v, i) + content;
  }

  lemma WritesReplace(m: Model, name: CString, content: seq<Byte>)
    requires 0 < m.blockSize && name in m.dir
    ensures Apply(m, WriteFile(name, content)) == Replace(m, name, content)
    ensures Apply(m, AppendFile(name, content)) == Replace(m, name, m.dir[name].contents + content)
  {
  }

  lemma ReplaceApplied(v: Vol, name: CString, content: seq<Byte>)
    requires EntryOk(v, name) && name in Dir(v)
    ensures Apply(Abs(v), WriteFile(name, content)) == Replace(Abs(v), name, content)
    ensures Dir(v)[name].contents == FileContents(v, Find(v.inodes, name).value)
    ensures Apply(Abs(v), AppendFile(name, content)) == Replace(Abs(v), name, Dir(v)[name].contents + content)
  {
    WritesReplace(Abs(v), name, content);
  }

  /** fs_write is the user's write exactly when Allowed says so. */
  lemma WriteRefines(v: Vol, name: CString, content: seq<Byte>, now: U64)
    requires Inv(v)
    ensures Refines(Write(v, name, content, now), Apply(Abs(v), WriteFile(name, content)))
            <==> Allowed(Abs(v), WriteFile(name, content))
  {
    Entry(v, name);
    WriteAllowed(v, name, content);
    var r, a := Write(v, name, content, now), Apply(Abs(v), WriteFile(name, content));
    if name in Dir(v) {
      var i := Find(v.inodes, name).value;
      var stored := Counted(content);
      WriteIsRewrite(v, name, i, content, now);
      ReplaceApplied(v, name, content);
      RewriteExact(v, name, i, content, stored, now, r, a, 0, |content|);
    } else {
      FailRefines(v, r, a);
    }
  }

  /** fs_append, where it has a result, is the user's append exactly when Allowed says so. */
  lemma AppendRefines(v: Vol, name: CString, content: seq<Byte>, now: U64)
    requires Inv(v) && Defined(Abs(v), AppendFile(name, content))
    ensures AppendDefined(v, name, content)
    ensures Refines(Append(v, name, content, now), Apply(Abs(v), AppendFile(name, content)))
            <==> Allowed(Abs(v), AppendFile(name, content))
  {
    Entry(v, name);
    AppendAllowed(v, name, content);
    var r, a := Append(v, name, content, now), Apply(Abs(v), AppendFile(name, content));
    if name in Dir(v) {
      AppendPresent(v, name, content, now, r, a);
    } else {
      FailRefines(v, r, a);
    }
  }

  lemma AppendPresent(v: Vol, name: CString, content: seq<Byte>, now: U64, r: Outcome, a: (Model, Reply))
    requires Inv(v) && EntryOk(v, name) && name in Dir(v) && Local(v, Find(v.inodes, name).value)
    requires AppendDefined(v, name, content)
    requires r == Append(v, name, content, now) && a == Apply(Abs(v), AppendFile(name, content))
    ensures var size := v.inodes[Find(v.inodes, name).value].size;
            Refines(r, a) <==> Sound(Abs(v), size, |content|)
  {
    var i := Find(v.inodes, name).value;
    var stored, meant := AppendStores(v, name, i, content, now);
    RewriteExact(v, name, i, meant, stored, now, r, a, v.inodes[i].size, |content|);
  }

  // ---- copy ----

  lemma CopyModel(v: Vol, w: Vol, src: CString, dst: CString, s: nat, i: nat)
    requires EntryOk(v, src) && EntryOk(v, dst) && Find(v.inodes, src) == Some(s) && Find(v.inodes, dst).None?
    requires AbsStep(v, w, i, 0) && !IsUsed(v.inodes[i]) && v.sb.freeInodes != 0
    requires IsUsed(w.inodes[i]) && NameOf(w.inodes[i]) == Clip(dst)
    requires FileOf(w, w.inodes[i]) == FileOf(v, v.inodes[s])
    requires Ceil(v.inodes[s].size, v.sb.blockSize) <= v.sb.freeBlocks
    requires w.sb.freeBlocks == v.sb.freeBlocks - Ceil(v.inodes[s].size, v.sb.blockSize)
    requires w.sb.freeInodes == v.sb.freeInodes - 1
    ensures DuplicateFile(Abs(v), src, dst) == Accepted(Abs(w))
  {
    var m := Abs(v);
    assert Blocks(m, m.dir[src].contents) == Ceil(v.inodes[s].size, v.sb.blockSize);
    var x := DuplicateFile(m, src, dst);
    assert x.0.dir == Dir(w);
    assert x.0.freeBlocks == w.sb.freeBlocks;
    assert x.0 == Abs(w);
  }

  /** The copy's inode reads back as the source file. */
  lemma CopyInodeReads(v: Vol, s: nat, i: nat, dst: CString, now: U64)
    requires Local(v, i) && !IsUsed(v.inodes[i]) && Local(v, s) && IsUsed(v.inodes[s])
    requires CopyInto(v, s, i, dst, now).ok
    ensures var w := CopyInto(v, s, i, dst, now).vol;
            && NameOf(w.inodes[i]) == Clip(dst) && IsUsed(w.inodes[i])
            && w.inodes[i].mode == v.inodes[s].mode
            && Contents(w.data, w.inodes[i], v.sb.blockSize) == FileContents(v, s)
            && w.sb.freeInodes == v.sb.freeInodes - 1
            && w.sb.freeBlocks == v.sb.freeBlocks - Ceil(v.inodes[s].size, v.sb.blockSize)
  {
    var ino := NewInode(i, dst, v.inodes[s].mode, now);
    CopiedInode(v, i, dst, v.inodes[s].mode, now);
    CeilBounds(v.inodes[s].size, v.sb.blockSize);
    if v.inodes[s].size > 0 {
      var a := Allocated(v, i);
      StoredNoWrap(v, s);
      NeededExact(v.inodes[s].size, v.sb.blockSize);
      WrittenContents(a, ino, FileContents(v, s), now);
      DoWriteShape(a, ino, FileContents(v, s), now);
      DoWriteBlocks(a, ino, FileContents(v, s), now);
    }
  }

  /** A copy succeeds exactly when the source's blocks fit in the free ones. */
  lemma CopyFits(v: Vol, s: nat, i: nat, dst: CString, now: U64)
    requires Local(v, i) && !IsUsed(v.inodes[i]) && Local(v, s) && IsUsed(v.inodes[s])
    ensures CopyInto(v, s, i, dst, now).ok <==> Ceil(v.inodes[s].size, v.sb.blockSize) <= v.sb.freeBlocks
  {
    CopiedInode(v, i, dst, v.inodes[s].mode, now);
    CeilBounds(v.inodes[s].size, v.sb.blockSize);
    if v.inodes[s].size > 0 {
      StoredNoWrap(v, s);
      NeededExact(v.inodes[s].size, v.sb.blockSize);
    }
  }

  lemma CopyDone(v: Vol, src: CString, dst: CString, s: nat, i: nat, now: U64, w: Vol)
    requires Inv(v) && EntryOk(v, src) && EntryOk(v, dst)
    requires Find(v.inodes, src) == Some(s) && Find(v.inodes, dst).None? && v.sb.freeInodes != 0
    requires Local(v, i) && !IsUsed(v.inodes[i]) && Local(v, s)
    requires NameFree(v.inodes, i, Clip(dst))
    requires CopyInto(v, s, i, dst, now).ok
    requires w == CopyInto(v, s, i, dst, now).vol
    ensures Inv(w) && DuplicateFile(Abs(v), src, dst) == Accepted(Abs(w))
  {
    CopyStep(v, s, i, dst, now);
    AbsStepOf(v, w, i, []);
    CopyShown(v, src, dst, s, i, now, w);
  }

  lemma CopyShown(v: Vol, src: CString, dst: CString, s: nat, i: nat, now: U64, w: Vol)
    requires EntryOk(v, src) && EntryOk(v, dst) && Find(v.inodes, src) == Some(s) && Find(v.inodes, dst).None?
    requires v.sb.freeInodes != 0 && Local(v, i) && !IsUsed(v.inodes[i]) && Local(v, s)
    requires CopyInto(v, s, i, dst, now).ok && w == CopyInto(v, s, i, dst, now).vol && AbsStep(v, w, i, 0)
    ensures DuplicateFile(Abs(v), src, dst) == Accepted(Abs(w))
  {
    CopyFits(v, s, i, dst, now);
    CopyInodeReads(v, s, i, dst, now);
    CopyModel(v, w, src, dst, s, i);
  }

  lemma SameModel(v: Vol, w: Vol, i: nat)
    requires AbsStep(v, w, i, 0) && !IsUsed(v.inodes[i]) && !IsUsed(w.inodes[i])
    requires w.sb.freeBlocks == v.sb.freeBlocks && w.sb.freeInodes == v.sb.freeInodes
    ensures Abs(w) == Abs(v)
  {
  }

  lemma CopyTooLarge(v: Vol, src: CString, dst: CString, s: nat)
    requires EntryOk(v, src) && Find(v.inodes, src) == Some(s)
    requires Ceil(v.inodes[s].size, v.sb.blockSize) > v.sb.freeBlocks
    ensures DuplicateFile(Abs(v), src, dst) == Refused(Abs(v))
  {
    var m := Abs(v);
    assert Blocks(m, m.dir[src].contents) == Ceil(v.inodes[s].size, v.sb.blockSize);
  }

  lemma CopyRolledBack(v: Vol, src: CString, dst: CString, s: nat, i: nat, now: U64, w: Vol)
    requires Inv(v) && EntryOk(v, src) && Find(v.inodes, src) == Some(s)
    requires Local(v, i) && v.inodes[i].isUsed == 0 && Local(v, s)
    requires !CopyInto(v, s, i, dst, now).ok && w == CopyInto(v, s, i, dst, now).vol
    ensures Inv(w) && Abs(w) == Abs(v)
    ensures DuplicateFile(Abs(v), src, dst) == Refused(Abs(v))
  {
    CopyRollback(v, s, i, dst, now);
    AbsStepOf(v, w, i, []);
    SameModel(v, w, i);
    CopyFits(v, s, i, dst, now);
    CopyTooLarge(v, src, dst, s);
  }

  lemma CopyRefused(v: Vol, src: CString, dst: CString)
    requires EntryOk(v, src) && EntryOk(v, dst)
    requires Find(v.inodes, src).None? || Find(v.inodes, dst).Some? || v.sb.freeInodes == 0
    ensures DuplicateFile(Abs(v), src, dst) == Refused(Abs(v))
  {
  }

  lemma CopyQuiet(v: Vol, s: nat, i: nat, dst: CString, now: U64)
    requires Shape(v) && MetadataMarked(v) && v.sb.freeBlocks == |Clear(v.used)|
    requires s < |v.inodes| && i < |v.inodes|
    ensures CopyInto(v, s, i, dst, now).output == []
  {
  }

  lemma CopyMade(v: Vol, src: CString, dst: CString, s: nat, i: nat, now: U64, r: Outcome, a: (Model, Reply))
    requires Inv(v) && EntryOk(v, src) && EntryOk(v, dst)
    requires Find(v.inodes, src) == Some(s) && Find(v.inodes, dst).None? && v.sb.freeInodes != 0
    requires Local(v, i) && !IsUsed(v.inodes[i]) && Local(v, s) && Find(v.inodes, Clip(dst)).None?
    requires r == CopyInto(v, s, i, dst, now) && r.ok && a == DuplicateFile(Abs(v), src, dst)
    ensures Refines(r, a)
  {
    CopyDone(v, src, dst, s, i, now, r.vol);
    CopyQuiet(v, s, i, dst, now);
    RefinesWhen(r, a);
  }

  lemma CopyGivenUp(v: Vol, src: CString, dst: CString, s: nat, i: nat, now: U64, r: Outcome, a: (Model, Reply))
    requires Inv(v) && EntryOk(v, src) && Find(v.inodes, src) == Some(s)
    requires Local(v, i) && v.inodes[i].isUsed == 0 && Local(v, s)
    requires r == CopyInto(v, s, i, dst, now) && !r.ok && a == DuplicateFile(Abs(v), src, dst)
    ensures Refines(r, a)
  {
    CopyRolledBack(v, src, dst, s, i, now, r.vol);
    CopyQuiet(v, s, i, dst, now);
    RefinesWhen(r, a);
  }

  /** fs_copy past its checks: right if it fails, or if the clipped name is not taken. */
  lemma CopyProceeds(v: Vol, src: CString, dst: CString, now: U64, r: Outcome)
    requires Inv(v) && EntryOk(v, src) && EntryOk(v, dst)
    requires Find(v.inodes, src).Some? && Local(v, Find(v.inodes, src).value)
    requires Find(v.inodes, dst).None? && v.sb.freeInodes != 0
    requires r == Copy(v, src, dst, now)
    ensures Refines(r, DuplicateFile(Abs(v), src, dst)) <==> (r.ok ==> Find(v.inodes, Clip(dst)).None?)
  {
    SlotAvailable(v);
    var s := Find(v.inodes, src).value;
    var i := FreeSlot(v.inodes).value;
    InvLocal(v, i);
    assert r == CopyInto(v, s, i, dst, now);
    if !r.ok {
      CopyGivenUp(v, src, dst, s, i, now, r, DuplicateFile(Abs(v), src, dst));
    } else if Find(v.inodes, Clip(dst)).None? {
      CopyMade(v, src, dst, s, i, now, r, DuplicateFile(Abs(v), src, dst));
    } else {
      CopyNameTaken(v, dst, s, i, Find(v.inodes, Clip(dst)).value, now);
    }
  }

  lemma TwoOfOneName(w: Vol, i: nat, j: nat)
    requires i < |w.inodes| && j < |w.inodes| && i != j
    requires IsUsed(w.inodes[i]) && IsUsed(w.inodes[j]) && NameOf(w.inodes[i]) == NameOf(w.inodes[j])
    ensures !Inv(w)
  {
  }

  lemma CopyOtherSlots(v: Vol, s: nat, i: nat, dst: CString, now: U64, j: nat)
    requires Shape(v) && MetadataMarked(v) && v.sb.freeBlocks == |Clear(v.used)|
    requires s < |v.inodes| && i < |v.inodes| && j < |v.inodes| && j != i
    ensures var w := CopyInto(v, s, i, dst, now).vol;
            |w.inodes| == |v.inodes| && w.inodes[j] == v.inodes[j]
  {
  }

  lemma CopyNameTaken(v: Vol, dst: CString, s: nat, i: nat, j: nat, now: U64)
    requires Local(v, i) && v.inodes[i].isUsed == 0 && Local(v, s) && IsUsed(v.inodes[s])
    requires CopyInto(v, s, i, dst, now).ok && Find(v.inodes, Clip(dst)) == Some(j)
    ensures !Inv(CopyInto(v, s, i, dst, now).vol)
  {
    CopyInodeReads(v, s, i, dst, now);
    CopyOtherSlots(v, s, i, dst, now, j);
    TwoOfOneName(CopyInto(v, s, i, dst, now).vol, i, j);
  }

  /** A copy is made exactly when the user's is. */
  lemma CopyAgrees(v: Vol, src: CString, dst: CString, now: U64)
    requires Inv(v) && EntryOk(v, src) && EntryOk(v, dst)
    requires Find(v.inodes, src).Some? ==> Local(v, Find(v.inodes, src).value)
    ensures Copy(v, src, dst, now).ok == DuplicateFile(Abs(v), src, dst).1.ok
  {
    if Find(v.inodes, src).Some? && v.sb.freeInodes != 0 {
      SlotAvailable(v);
      InvLocal(v, FreeSlot(v.inodes).value);
      CopyFits(v, Find(v.inodes, src).value, FreeSlot(v.inodes).value, dst, now);
      assert Blocks(Abs(v), Dir(v)[src].contents) == Ceil(v.inodes[Find(v.inodes, src).value].size, v.sb.blockSize);
    }
  }

  lemma CopyAllowedIs(m: Model, src: CString, dst: CString)
    requires 0 < m.blockSize
    ensures Allowed(m, CopyFile(src, dst)) <==> (DuplicateFile(m, src, dst).1.ok ==> Clip(dst) !in m.dir)
  {
  }

  lemma CopyAllowed(v: Vol, src: CString, dst: CString)
    requires Shape(v)
    ensures Allowed(Abs(v), CopyFile(src, dst))
            <==> (DuplicateFile(Abs(v), src, dst).1.ok ==> Find(v.inodes, Clip(dst)).None?)
  {
    CopyAllowedIs(Abs(v), src, dst);
    DirFind(v, Clip(dst));
    assert Abs(v).dir == Dir(v);
  }

  /** fs_copy is the user's copy exactly when Allowed says so. */
  lemma CopyRefines(v: Vol, src: CString, dst: CString, now: U64)
    requires Inv(v)
    ensures Copy(v, src, dst, now).ok == DuplicateFile(Abs(v), src, dst).1.ok
    ensures Refines(Copy(v, src, dst, now), DuplicateFile(Abs(v), src, dst))
            <==> Allowed(Abs(v), CopyFile(src, dst))
  {
    Entry(v, src);
    Entry(v, dst);
    CopyAgrees(v, src, dst, now);
    CopyAllowed(v, src, dst);
    var r, a := Copy(v, src, dst, now), DuplicateFile(Abs(v), src, dst);
    if Find(v.inodes, src).None? || Find(v.inodes, dst).Some? || v.sb.freeInodes == 0 {
      CopyRefused(v, src, dst);
      FailRefines(v, r, a);
    } else {
      CopyProceeds(v, src, dst, now, r);
    }
  }
}
