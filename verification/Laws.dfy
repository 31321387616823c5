/** What a user may rely on, over single calls and whole runs, and exactly where the code falls short. */
module Laws {
  import opened Types
  import opened Arith
  import opened Geometry
  import opened FreeList
  import opened Volume
  import opened Ownership
  import opened Steps
  import opened UserView
  import opened Refinement
  import opened Commands
  import opened Runs
  import UiSim

  // ---- creation ----

  lemma ModeBits(mode: bv16)
    requires mode == 0x81A4
    ensures mode & 0xF000 == 0x8000 && mode & 0x0FFF == 0x01A4
  {
  }

  /** fs_create makes a file exactly when the name has at most 31 bytes and is not taken and an inode is free: an
      empty regular file, readable by all and writable by its owner. */
  lemma CreatedFile(v: Vol, name: CString, now: U64, r: Outcome)
    requires Inv(v) && r == Create(v, name, now)
    ensures r.ok <==> |name| <= 31 && name !in Dir(v) && v.sb.freeInodes > 0
    ensures r.ok ==>
      && Inv(r.vol) && name in Dir(r.vol) && Dir(r.vol)[name].contents == []
      && Dir(r.vol)[name].mode & 0xF000 == 0x8000 && Dir(r.vol)[name].mode & 0x0FFF == 0x01A4
  {
    CreateRefines(v, name, now);
    if r.ok {
      ModeBits(Dir(r.vol)[name].mode);
    }
  }

  /** The simulator gives a new file the same mode and no content either. */
  lemma CreatedAlike(v: Vol, name: CString, now: U64, r: Outcome, u: UiSim.Ui, n: string, s: UiSim.Outcome)
    requires Inv(v) && r == Create(v, name, now) && r.ok && s == UiSim.Create(u, n) && s.ok
    ensures Shape(r.vol) && name in Dir(r.vol)
    ensures |s.ui.files| == |u.files| + 1
    ensures Dir(r.vol)[name].mode == s.ui.files[|u.files|].mode
    ensures Dir(r.vol)[name].contents == [] && s.ui.files[|u.files|].content == ""
  {
    CreateRefines(v, name, now);
  }

  // ---- frames ----

  /** The names whose files a command may create, change or remove. */
  function Changes(c: Command): set<CString> {
    match c
    case CreateFile(n) => {n}
    case DeleteFile(n) => {n}
    case WriteFile(n, _) => {n}
    case AppendFile(n, _) => {n}
    case ReadFile(_) => {}
    case RenameFile(n, to) => {n, to}
    case CopyFile(_, dst) => {Clip(dst)}
    case TruncateFile(n, _) => {n}
    case ChangeMode(n, _) => {n}
    case Check => {}
    case Remount => {}
  }

  ghost predicate SameFile(a: Model, b: Model, n: CString) {
    (n in a.dir <==> n in b.dir) && (n in a.dir ==> a.dir[n] == b.dir[n])
  }

  lemma ApplyFrame(m: Model, c: Command, n: CString)
    requires 0 < m.blockSize && n !in Changes(c)
    ensures SameFile(m, Apply(m, c).0, n)
  {
  }

  ghost predicate RunSpares(calls: seq<Call>, n: CString) {
    forall i :: 0 <= i < |calls| ==> n !in Changes(calls[i].cmd)
  }

  lemma {:induction false} ModelRunFrame(m: Model, calls: seq<Call>, n: CString)
    requires 0 < m.blockSize && RunSpares(calls, n)
    ensures SameFile(m, ModelRun(m, calls).0, n)
    decreases |calls|
  {
    if calls != [] {
      ApplyFrame(m, calls[0].cmd, n);
      ModelRunFrame(Apply(m, calls[0].cmd).0, calls[1..], n);
    }
  }

  /** However many blocks are freed, reused and overwritten by a run, a file that no command of the
      run names keeps its bytes and mode. */
  lemma RunFrame(v: Vol, calls: seq<Call>, n: CString)
    requires Inv(v) && RunAllowed(Abs(v), calls) && RunSpares(calls, n)
    ensures Inv(Run(v, calls).0)
    ensures SameFile(Abs(v), Abs(Run(v, calls).0), n)
  {
    RunRefines(v, calls);
    ModelRunFrame(Abs(v), calls, n);
  }

  // ---- the other files of a write ----

  lemma OwnApart(v: Vol, i: nat, j: nat)
    requires Inv(v) && i < |v.inodes| && j < |v.inodes| && i != j
    ensures forall b | b in Own(v.inodes[j], v.sb.blockSize) :: b !in Own(v.inodes[i], v.sb.blockSize)
  {
  }

  /** _do_write leaves the bytes of every file that shares no block with the one written. */
  lemma DoWriteSpares(a: Vol, ino: Inode, content: seq<Byte>, now: U64, other: Inode)
    requires Ready(a, ino) && Ready(a, other) && |content| < TWO32 && WriteFits(a, ino, |content|)
    requires forall b | b in Own(other, a.sb.blockSize) :: b !in Own(ino, a.sb.blockSize)
    ensures var w := DoWrite(a, ino, content, now).0;
            Shape(w) && SameGeo(a.sb, w.sb) && FileOf(w, other) == FileOf(a, other)
    ensures forall b | b in Own(other, a.sb.blockSize) :: b !in Taken(a, ino, BlocksNeeded(|content|, a.sb.blockSize))
  {
    var need := BlocksNeeded(|content|, a.sb.blockSize);
    var ptrs := Taken(a, ino, need);
    var own := Own(other, a.sb.blockSize);
    DoWriteShape(a, ino, content, now);
    TakenBlocks(a, ino, need);
    PlaceAt(a.data, ptrs, content, a.sb.blockSize, need);
    forall b | b in own
      ensures b in a.data && b !in ptrs
    {
      var k :| 0 <= k < |own| && own[k] == b;
    }
    SameBytes(a, DoWrite(a, ino, content, now).0, other);
  }

  /** Another name finds the same file with the same bytes and mode. */
  ghost predicate SpareName(v: Vol, w: Vol, n: CString) {
    && Shape(v) && Shape(w) && Find(w.inodes, n) == Find(v.inodes, n)
    && (Find(v.inodes, n).Some? ==>
          && Find(v.inodes, n).value < |w.inodes|
          && FileOf(w, w.inodes[Find(v.inodes, n).value]) == FileOf(v, v.inodes[Find(v.inodes, n).value]))
  }

  lemma FoundApart(v: Vol, w: Vol, i: nat, n: CString)
    requires Shape(v) && Distinct(v.inodes) && i < |v.inodes| && IsUsed(v.inodes[i]) && n != NameOf(v.inodes[i])
    requires |w.inodes| == |v.inodes| && NameOf(w.inodes[i]) == NameOf(v.inodes[i])
    requires forall j :: 0 <= j < |v.inodes| && j != i ==> w.inodes[j] == v.inodes[j]
    ensures Find(w.inodes, n) == Find(v.inodes, n) != Some(i)
  {
    FindFinds(v.inodes, n);
    FindFinds(w.inodes, n);
    FoundElsewhere(v.inodes, w.inodes, i, n, Find(v.inodes, n), Find(w.inodes, n));
  }

  lemma RewriteShape(v: Vol, i: nat, content: seq<Byte>, now: U64, w: Vol)
    requires i < |v.inodes| && Ready(v, v.inodes[i]) && |content| < TWO32
    requires Rewrite(v, i, content, now).ok && w == Rewrite(v, i, content, now).vol
    ensures Shape(w)
  {
    DoWriteShape(v, v.inodes[i], content, now);
  }

  lemma RewriteSpares(v: Vol, i: nat, content: seq<Byte>, now: U64, n: CString, w: Vol)
    requires Inv(v) && Local(v, i) && IsUsed(v.inodes[i]) && NameOf(v.inodes[i]) != n
    requires |content| < TWO32 && Rewrite(v, i, content, now).ok && w == Rewrite(v, i, content, now).vol
    ensures SpareName(v, w, n)
  {
    RewriteShape(v, i, content, now, w);
    InvDistinct(v);
    FoundApart(v, w, i, n);
    if Find(v.inodes, n).Some? {
      var j := Find(v.inodes, n).value;
      InvLocal(v, j);
      OwnApart(v, i, j);
      DoWriteSpares(v, v.inodes[i], content, now, v.inodes[j]);
      assert w.data == DoWrite(v, v.inodes[i], content, now).0.data;
    }
  }

  // ---- write, append, truncate, copy ----

  lemma Presence(v: Vol, n: CString)
    requires Inv(v)
    ensures EntryOk(v, n)
    ensures Find(v.inodes, n).Some? ==>
              && Local(v, Find(v.inodes, n).value) && Ready(v, v.inodes[Find(v.inodes, n).value])
              && NameOf(v.inodes[Find(v.inodes, n).value]) == n
  {
    Entry(v, n);
  }

  lemma ReplaceShows(m: Model, name: CString, content: seq<Byte>)
    requires 0 < m.blockSize && name in m.dir && Replace(m, name, content).1.ok
    ensures var d := Replace(m, name, content).0.dir;
            name in d && d[name] == File(content, m.dir[name].mode)
  {
  }

  /** A rewrite that keeps the invariant stored a content of unwrapped length, under the same name. */
  lemma RewriteStored(v: Vol, name: CString, i: nat, stored: seq<Byte>, now: U64)
    requires i < |v.inodes| && Ready(v, v.inodes[i]) && NameOf(v.inodes[i]) == name && |stored| < TWO32
    requires Rewrite(v, i, stored, now).ok && Inv(Rewrite(v, i, stored, now).vol)
    ensures NoWrap(v, |stored|)
    ensures var w := Rewrite(v, i, stored, now).vol;
            name in Abs(w).dir && |Abs(w).dir[name].contents| == |stored|
  {
    var w := Rewrite(v, i, stored, now).vol;
    InvLocal(w, i);
    StoredSizeExact(w, w.inodes[i]);
    InvDistinct(w);
    FindOwn(w.inodes, i);
    DirFind(w, name);
  }

  /** The volume is good and the name shows exactly that content. */
  ghost predicate Shows(w: Vol, name: CString, content: seq<Byte>) {
    Inv(w) && name in Abs(w).dir && Abs(w).dir[name].contents == content
  }

  lemma RewriteRight(v: Vol, name: CString, i: nat, meant: seq<Byte>, now: U64)
    requires Inv(v) && EntryOk(v, name) && Find(v.inodes, name) == Some(i) && Local(v, i)
    requires NoWrap(v, |meant|) && |meant| < TWO32 && Rewrite(v, i, meant, now).ok
    ensures Shows(Rewrite(v, i, meant, now).vol, name, meant)
  {
    RewriteRefines(v, name, i, meant, now);
    ReplaceShows(Abs(v), name, meant);
  }

  /** An accepted rewrite shows the content that was meant exactly when no 32-bit length or sum has wrapped. */
  lemma RewriteShows(v: Vol, name: CString, i: nat, meant: seq<Byte>, stored: seq<Byte>, now: U64, r: Outcome)
    requires Inv(v) && EntryOk(v, name) && Find(v.inodes, name) == Some(i) && Local(v, i)
    requires |stored| < TWO32 && (NoWrap(v, |meant|) ==> stored == meant)
    requires r == Rewrite(v, i, stored, now) && r.ok
    ensures Inv(r.vol) <==> NoWrap(v, |stored|)
    ensures Shows(r.vol, name, meant) <==> NoWrap(v, |meant|)
  {
    if NoWrap(v, |stored|) {
      RewriteRight(v, name, i, stored, now);
    }
    if Inv(Rewrite(v, i, stored, now).vol) {
      RewriteStored(v, name, i, stored, now);
    }
  }

  lemma ReadSpares(v: Vol, w: Vol, n: CString, now: U64)
    requires SpareName(v, w, n)
    ensures Read(w, n, now).ok == Read(v, n, now).ok && Read(w, n, now).output == Read(v, n, now).output
  {
  }

  lemma ShownRead(w: Vol, name: CString, content: seq<Byte>, now: U64)
    requires Shape(w)
    ensures (Inv(w) && Read(w, name, now).ok && Read(w, name, now).output == content) == Shows(w, name, content)
  {
    DirFind(w, name);
  }

  /** An accepted fs_write shows exactly the content, on a good volume, if and only if length plus block size
      stay within 2^32. */
  lemma WriteShows(v: Vol, name: CString, content: seq<Byte>, now: U64)
    requires Inv(v)
    ensures var r := Write(v, name, content, now);
            && (r.ok ==> (Shows(r.vol, name, content) <==> Short(Abs(v), |content|)))
            && (!r.ok ==> r.vol == v)
  {
    Presence(v, name);
    var r := Write(v, name, content, now);
    if r.ok {
      var i := Find(v.inodes, name).value;
      WriteIsRewrite(v, name, i, content, now);
      RewriteShows(v, name, i, content, Counted(content), now, r);
    }
  }

  lemma WriteSpares(v: Vol, name: CString, content: seq<Byte>, now: U64, n: CString, w: Vol)
    requires Inv(v) && w == Write(v, name, content, now).vol
    ensures Shape(w)
    ensures n != name ==> SpareName(v, w, n)
  {
    Presence(v, name);
    if w != v {
      var i := Find(v.inodes, name).value;
      WriteIsRewrite(v, name, i, content, now);
      RewriteShape(v, i, Counted(content), now, w);
      if n != name {
        RewriteSpares(v, i, Counted(content), now, n, w);
      }
    }
  }

  /** fs_write, then fs_read. An accepted write reads back as exactly the content, on a good volume, if and only if
      length plus block size stay within 2^32; a refused one changes nothing; and every other file reads as
      before, whatever the length. */
  lemma WriteThenRead(v: Vol, name: CString, content: seq<Byte>, now: U64, n: CString)
    requires Inv(v)
    ensures var r := Write(v, name, content, now);
            && Shape(r.vol)
            && (r.ok ==>
                  (Inv(r.vol) && Read(r.vol, name, now).ok && Read(r.vol, name, now).output == content)
                  == Short(Abs(v), |content|))
            && (!r.ok ==> r.vol == v)
            && (n != name ==> Read(r.vol, n, now).ok == Read(v, n, now).ok
                              && Read(r.vol, n, now).output == Read(v, n, now).output)
  {
    WriteShows(v, name, content, now);
    var w := Write(v, name, content, now).vol;
    WriteSpares(v, name, content, now, n, w);
    ShownRead(w, name, content, now);
    if n != name {
      ReadSpares(v, w, n, now);
    }
  }

  /** fs_append. An accepted one shows old and new contents concatenated, on a good volume, if and only if their
      length plus the block size stays within 2^32, although the old blocks are freed and reused while it
      writes; a refused one changes nothing. */
  lemma AppendConcatenates(v: Vol, name: CString, content: seq<Byte>, now: U64)
    requires Inv(v) && AppendDefined(v, name, content)
    ensures var r := Append(v, name, content, now);
            && (r.ok ==>
                  && name in Abs(v).dir
                  && var whole := Abs(v).dir[name].contents + content;
                     Shows(r.vol, name, whole) == Short(Abs(v), |whole|))
            && (!r.ok ==> r.vol == v)
  {
    Presence(v, name);
    var r := Append(v, name, content, now);
    if r.ok {
      var i := Find(v.inodes, name).value;
      var stored, meant := AppendStores(v, name, i, content, now);
      RewriteShows(v, name, i, meant, stored, now, r);
    }
  }

  /** fs_truncate_file keeps the prefix. */
  lemma TruncateCuts(v: Vol, name: CString, size: U32, now: U64)
    requires Inv(v) && name in Abs(v).dir && size <= |Abs(v).dir[name].contents|
    ensures var t := Truncate(v, name, size, now);
            && t.ok && Shows(t.vol, name, Abs(v).dir[name].contents[..size])
            && t.vol.sb.blockSize == v.sb.blockSize
  {
    TruncateRefines(v, name, size, now);
  }

  /** fs_truncate_file(n) then fs_append(d) shows old[..n] + d, if it is accepted and short enough: no cut byte
      and no freed block comes back. */
  lemma TruncateThenAppend(v: Vol, name: CString, size: U32, content: seq<Byte>, now: U64)
    requires Inv(v) && name in Abs(v).dir && size <= |Abs(v).dir[name].contents|
    ensures var t := Truncate(v, name, size, now);
            var kept := Abs(v).dir[name].contents[..size];
            && t.ok && Shows(t.vol, name, kept)
            && (AppendDefined(t.vol, name, content) ==>
                  var r := Append(t.vol, name, content, now);
                  && (r.ok ==> Shows(r.vol, name, kept + content) == Short(Abs(v), |kept + content|))
                  && (!r.ok ==> Shows(r.vol, name, kept)))
  {
    TruncateCuts(v, name, size, now);
    var t := Truncate(v, name, size, now).vol;
    if AppendDefined(t, name, content) {
      AppendConcatenates(t, name, content, now);
    }
  }

  lemma DuplicateShows(m: Model, src: CString, dst: CString)
    requires 0 < m.blockSize && Allowed(m, CopyFile(src, dst)) && DuplicateFile(m, src, dst).1.ok
    ensures var d := DuplicateFile(m, src, dst).0.dir;
            var to := Clip(dst);
            src in m.dir && src in d && to in d && src != to && d[to] == d[src] == m.dir[src]
  {
  }

  /** The slot a copy fills and the slot it copies: equal files on disjoint blocks, the source untouched. */
  ghost predicate Twins(v: Vol, w: Vol, s: nat, i: nat) {
    && Shape(v) && Shape(w) && SameGeo(v.sb, w.sb)
    && s < |v.inodes| == |w.inodes| && i < |v.inodes| && w.inodes[s] == v.inodes[s]
    && FileOf(w, w.inodes[i]) == FileOf(w, w.inodes[s]) == FileOf(v, v.inodes[s])
    && forall b | b in Own(w.inodes[i], w.sb.blockSize) :: b !in Own(w.inodes[s], w.sb.blockSize)
  }

  lemma CopyEmptyTwins(v: Vol, s: nat, i: nat, dst: CString, now: U64, w: Vol)
    requires Local(v, i) && !IsUsed(v.inodes[i]) && Local(v, s) && IsUsed(v.inodes[s]) && v.inodes[s].size == 0
    requires w == CopyInto(v, s, i, dst, now).vol
    ensures Twins(v, w, s, i)
  {
    NoBlocks(v.sb.blockSize, v.inodes[s]);
  }

  /** What the blocks of the copy have to do with those of the source. */
  lemma CopyDataBlocks(v: Vol, s: nat, i: nat, dst: CString, now: U64, w: Vol)
    requires Local(v, i) && !IsUsed(v.inodes[i]) && Local(v, s) && IsUsed(v.inodes[s]) && v.inodes[s].size > 0
    requires CopyInto(v, s, i, dst, now).ok && w == CopyInto(v, s, i, dst, now).vol
    ensures Shape(w) && SameGeo(v.sb, w.sb) && FileOf(w, v.inodes[s]) == FileOf(v, v.inodes[s])
    ensures forall b | b in Own(w.inodes[i], v.sb.blockSize) :: b !in Own(v.inodes[s], v.sb.blockSize)
  {
    var a, ino := Allocated(v, i), NewInode(i, dst, v.inodes[s].mode, now);
    var content := FileContents(v, s);
    CopiedInode(v, i, dst, v.inodes[s].mode, now);
    StoredNoWrap(v, s);
    DoWriteShape(a, ino, content, now);
    DoWriteSpares(a, ino, content, now, v.inodes[s]);
    WrittenOwn(a, ino, content, now);
    var ptrs := Taken(a, ino, BlocksNeeded(|content|, v.sb.blockSize));
    assert forall b | b in Own(w.inodes[i], v.sb.blockSize) :: b in ptrs;
  }

  lemma CopyTwins(v: Vol, s: nat, i: nat, dst: CString, now: U64, w: Vol)
    requires Local(v, i) && !IsUsed(v.inodes[i]) && Local(v, s) && IsUsed(v.inodes[s])
    requires CopyInto(v, s, i, dst, now).ok && w == CopyInto(v, s, i, dst, now).vol
    ensures Twins(v, w, s, i) && NameOf(w.inodes[i]) == Clip(dst)
  {
    CopyInodeReads(v, s, i, dst, now);
    CopyOtherSlots(v, s, i, dst, now, s);
    if v.inodes[s].size == 0 {
      CopyEmptyTwins(v, s, i, dst, now, w);
    } else {
      CopyDataBlocks(v, s, i, dst, now, w);
    }
  }

  /** A successful copy, whatever its name: the new slot bears the first 31 bytes of the name and holds the
      source's contents and mode on blocks of its own; the source is untouched. By name, the two files are
      equal on a good volume if and only if those 31 bytes were not taken. */
  lemma CopyEqual(v: Vol, src: CString, dst: CString, now: U64)
    requires Inv(v)
    ensures var r := Copy(v, src, dst, now);
            r.ok ==>
              && Find(v.inodes, src).Some? && FreeSlot(v.inodes).Some?
              && Twins(v, r.vol, Find(v.inodes, src).value, FreeSlot(v.inodes).value)
              && NameOf(r.vol.inodes[FreeSlot(v.inodes).value]) == Clip(dst)
              && (EqualByName(v, r.vol, src, Clip(dst)) <==> Clip(dst) !in Abs(v).dir)
  {
    var r := Copy(v, src, dst, now);
    Presence(v, src);
    if r.ok {
      var s, i := Find(v.inodes, src).value, FreeSlot(v.inodes).value;
      InvLocal(v, i);
      CopyTwins(v, s, i, dst, now, r.vol);
      CopyByName(v, src, dst, now, r);
    }
  }

  ghost predicate EqualByName(v: Vol, w: Vol, src: CString, to: CString) {
    && Inv(v) && Inv(w) && src in Abs(v).dir && src in Abs(w).dir && to in Abs(w).dir && src != to
    && Abs(w).dir[to] == Abs(w).dir[src] == Abs(v).dir[src]
  }

  lemma CopyByName(v: Vol, src: CString, dst: CString, now: U64, r: Outcome)
    requires Inv(v) && r == Copy(v, src, dst, now) && r.ok
    ensures EqualByName(v, r.vol, src, Clip(dst)) <==> Clip(dst) !in Abs(v).dir
    ensures Inv(r.vol) <==> Clip(dst) !in Abs(v).dir
  {
    CopyRefines(v, src, dst, now);
    if Clip(dst) !in Abs(v).dir {
      DuplicateShows(Abs(v), src, dst);
    } else {
      var s, i := Find(v.inodes, src).value, FreeSlot(v.inodes).value;
      DirFind(v, Clip(dst));
      InvLocal(v, i);
      InvLocal(v, s);
      CopyNameTaken(v, dst, s, i, Find(v.inodes, Clip(dst)).value, now);
    }
  }

  /** Two files never share a block, after any allowed run. */
  lemma FilesApart(v: Vol, calls: seq<Call>, a: CString, b: CString)
    requires Inv(v) && RunAllowed(Abs(v), calls) && a != b
    ensures var w := Run(v, calls).0;
            && Shape(w)
            && (Find(w.inodes, a).Some? && Find(w.inodes, b).Some? ==>
                  forall x :: x in Own(w.inodes[Find(w.inodes, a).value], w.sb.blockSize)
                              ==> x !in Own(w.inodes[Find(w.inodes, b).value], w.sb.blockSize))
  {
    RunRefines(v, calls);
    var w := Run(v, calls).0;
    if Find(w.inodes, a).Some? && Find(w.inodes, b).Some? {
      OwnApart(w, Find(w.inodes, b).value, Find(w.inodes, a).value);
    }
  }

  /** Later commands on the source never change the copy, nor the other way round. */
  lemma CopyIndependent(v: Vol, src: CString, dst: CString, now: U64, w: Vol, calls: seq<Call>)
    requires Inv(v) && Allowed(Abs(v), CopyFile(src, dst))
    requires Copy(v, src, dst, now).ok && w == Copy(v, src, dst, now).vol
    requires Inv(w) && RunAllowed(Abs(w), calls)
    ensures Inv(Run(w, calls).0) && src in Abs(v).dir
    ensures var d := Abs(Run(w, calls).0).dir;
            && (RunSpares(calls, Clip(dst)) ==> Clip(dst) in d && d[Clip(dst)] == Abs(v).dir[src])
            && (RunSpares(calls, src) ==> src in d && d[src] == Abs(v).dir[src])
  {
    CopyByName(v, src, dst, now, Copy(v, src, dst, now));
    RunRefines(w, calls);
    if RunSpares(calls, Clip(dst)) {
      ModelRunFrame(Abs(w), calls, Clip(dst));
    }
    if RunSpares(calls, src) {
      ModelRunFrame(Abs(w), calls, src);
    }
  }

  /** Volumes that differ in unused slots only. */
  ghost predicate SameButUnused(v: Vol, w: Vol) {
    && w.(inodes := v.inodes) == v && |w.inodes| == |v.inodes|
    && (forall i :: 0 <= i < |v.inodes| && IsUsed(v.inodes[i]) ==> w.inodes[i] == v.inodes[i])
  }

  lemma Blanked(v: Vol, w: Vol, i: nat)
    requires i < |v.inodes| < TWO32 && v.inodes[i].isUsed == 0
    requires w == v.(inodes := v.inodes[i := BlankInode(i).(isUsed := 0)])
    ensures SameButUnused(v, w)
  {
  }

  lemma RolledBack(v: Vol, src: CString, dst: CString, s: nat, i: nat, now: U64, w: Vol)
    requires Inv(v) && Find(v.inodes, src) == Some(s) && i < |v.inodes| && v.inodes[i].isUsed == 0
    requires !CopyInto(v, s, i, dst, now).ok && w == CopyInto(v, s, i, dst, now).vol
    ensures Inv(w) && SameButUnused(v, w) && Abs(w) == Abs(v)
  {
    InvLocal(v, i);
    InvLocal(v, s);
    Entry(v, src);
    CopyRollback(v, s, i, dst, now);
    Blanked(v, w, i);
    CopyRolledBack(v, src, dst, s, i, now, w);
  }

  /** A copy that fails leaves files, bitmap, counters and data exactly as they were: only a free inode
      slot may have been blanked. */
  lemma CopyFailureRestores(v: Vol, src: CString, dst: CString, now: U64)
    requires Inv(v) && !Copy(v, src, dst, now).ok
    ensures Inv(Copy(v, src, dst, now).vol) && SameButUnused(v, Copy(v, src, dst, now).vol)
    ensures Abs(Copy(v, src, dst, now).vol) == Abs(v)
  {
    if Copy(v, src, dst, now) != Fail(v) {
      RolledBack(v, src, dst, Find(v.inodes, src).value, FreeSlot(v.inodes).value, now, Copy(v, src, dst, now).vol);
    }
  }

  // ---- all or nothing ----

  /** The free blocks are data blocks. */
  lemma ReadyFree(v: Vol, ino: Inode)
    requires Ready(v, ino)
    ensures v.sb.freeBlocks <= v.sb.dataBlocks
  {
    var free := FirstFit(v.used, |Clear(v.used)|);
    FirstEntries(v.used, |free|);
    forall k | 0 <= k < |free|
      ensures v.sb.dataStart <= free[k] < v.sb.totalBlocks
    {
      assert free[k] in free;
    }
    AscendingSpan(free, v.sb.dataStart, v.sb.totalBlocks);
  }

  /** When its sum wraps, _do_write counts one block. */
  lemma WrappedNeed(len: U32, bs: U32)
    requires 0 < bs && len + bs > TWO32
    ensures BlocksNeeded(len, bs) == 1
  {
    assert Wrap(len + bs - 1) == len + bs - 1 - TWO32;
  }

  /** The exact block count, at least one, fits both the pointers and the blocks free beforehand. The file's
      own blocks do not count as free. */
  predicate FitsExactly(v: Vol, len: nat)
    requires 0 < v.sb.blockSize
  {
    Max(1, Ceil(len, v.sb.blockSize)) <= Min(16, v.sb.freeBlocks)
  }

  /** _do_write, for every 32-bit length. Refused, it changes nothing. It accepts exactly what fits if and only
      if no sum wraps or no block is free; where no sum wraps the written inode reads back as the content. */
  lemma DoWriteAllOrNothing(v: Vol, ino: Inode, content: seq<Byte>, now: U64)
    requires Ready(v, ino) && |content| < TWO32
    ensures var (w, ino', ok) := DoWrite(v, ino, content, now);
            && (!ok ==> w == v && ino' == ino)
            && ((ok <==> FitsExactly(v, |content|)) <==> NoWrap(v, |content|) || v.sb.freeBlocks == 0)
            && (ok && NoWrap(v, |content|) ==> Contents(w.data, ino', v.sb.blockSize) == content)
  {
    if NoWrap(v, |content|) {
      NeededExact(|content|, v.sb.blockSize);
      if DoWrite(v, ino, content, now).2 {
        WrittenContents(v, ino, content, now);
      }
    } else {
      ReadyFree(v, ino);
      WrapNeverFits(v, |content|);
      WrappedNeed(|content|, v.sb.blockSize);
    }
  }

  /** First fit, for every 32-bit length: the pointers a write assigns ascend, and no clear or given-back block
      below one of them is left out. Where no sum wraps and there is content they are the blocks the file owns. */
  lemma FirstFitShape(v: Vol, i: nat, content: seq<Byte>, now: U64, b: nat, c: nat)
    requires Local(v, i) && IsUsed(v.inodes[i]) && |content| < TWO32
    requires Rewrite(v, i, content, now).ok
    ensures var need := BlocksNeeded(|content|, v.sb.blockSize);
            var ino := Rewrite(v, i, content, now).vol.inodes[i];
            && need <= 16 && Ascending(ino.direct[..need])
            && ((b in ino.direct[..need] && c < b && c < |v.used|
                 && (!v.used[c] || c in Own(v.inodes[i], v.sb.blockSize))) ==> c in ino.direct[..need])
            && (NoWrap(v, |content|) && content != [] ==> Own(ino, v.sb.blockSize) == ino.direct[..need])
  {
    var ino := v.inodes[i];
    var need := BlocksNeeded(|content|, v.sb.blockSize);
    TakenBlocks(v, ino, need);
    var ptrs := Rewrite(v, i, content, now).vol.inodes[i].direct[..need];
    assert ptrs == Taken(v, ino, need);
    if b in ptrs && c < b && c < |v.used| && (!v.used[c] || c in Own(ino, v.sb.blockSize)) {
      TakenLeast(v, ino, need, b, c);
    }
    if NoWrap(v, |content|) {
      WrittenOwn(v, ino, content, now);
      CeilBounds(|content|, v.sb.blockSize);
    }
  }
}
