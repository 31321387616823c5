/** The user's view of the web simulator: a map from names to files. Its commands, ui/app.js:120-287, refine it. */
module UiUser {
  import opened Types
  import opened Arith
  import opened UiSim

  /** What the simulator shows of a file; of its blocks, how many there are. */
  datatype Seen = Seen(content: string, mode: bv16, inode: nat, blocks: nat)

  datatype View = View(blockSize: nat, dir: map<string, Seen>, freeBlocks: int, freeInodes: int, nextInode: nat)

  type Answer = (View, bool)

  // ---- the machine ----

  function Refused(m: View): Answer { (m, false) }

  /** New content for a present file, whose own blocks count as free. */
  function Store(m: View, n: string, content: string): Answer
    requires 0 < m.blockSize && n in m.dir
  {
    var f := m.dir[n];
    var need := if content == "" then 1 else Ceil(|content|, m.blockSize);
    if need > 16 || need > m.freeBlocks + f.blocks then Refused(m)
    else (m.(dir := m.dir[n := Seen(content, f.mode, f.inode, need)], freeBlocks := m.freeBlocks + f.blocks - need),
          true)
  }

  function Make(m: View, n: string): Answer {
    if |n| > 31 || n in m.dir || m.freeInodes <= 0 then Refused(m)
    else (m.(dir := m.dir[n := Seen("", 0x81A4, m.nextInode, 0)], freeInodes := m.freeInodes - 1,
             nextInode := m.nextInode + 1), true)
  }

  function Remove(m: View, n: string): Answer {
    if n !in m.dir then Refused(m)
    else (m.(dir := m.dir - {n}, freeBlocks := m.freeBlocks + m.dir[n].blocks, freeInodes := m.freeInodes + 1), true)
  }

  function Move(m: View, n: string, to: string): Answer {
    if n !in m.dir || to in m.dir || |to| > 31 then Refused(m)
    else (m.(dir := (m.dir - {n})[to := m.dir[n]]), true)
  }

  /** A copy has the content and mode, the next inode number and blocks of its own. One that does not fit is
      taken back, its inode number is not. */
  function Duplicate(m: View, n: string, dst: string): Answer
    requires 0 < m.blockSize
  {
    if n !in m.dir || dst in m.dir || m.freeInodes <= 0 then Refused(m) else
    var need := Ceil(|m.dir[n].content|, m.blockSize);
    if need > 16 || need > m.freeBlocks then Refused(m.(nextInode := m.nextInode + 1))
    else (m.(dir := m.dir[dst := Seen(m.dir[n].content, m.dir[n].mode, m.nextInode, need)],
             freeBlocks := m.freeBlocks - need, freeInodes := m.freeInodes - 1, nextInode := m.nextInode + 1), true)
  }

  /** The length to which a file of len characters is cut: a negative size counts from the end. */
  function CutTo(len: nat, size: int): nat
    requires size <= len
  {
    if size >= 0 then size else Max(0, len + size)
  }

  function Cut(m: View, n: string, size: int): Answer
    requires 0 < m.blockSize
  {
    if n !in m.dir || size > |m.dir[n].content| then Refused(m)
    else Store(m, n, m.dir[n].content[..CutTo(|m.dir[n].content|, size)])
  }

  /** The type bits stay, the permission bits are the new ones. */
  function NewMode(before: bv16, mode: bv16): bv16 { (before & 0xF000) | (mode & 0x0FFF) }

  function SetMode(m: View, n: string, mode: bv16): Answer {
    if n !in m.dir then Refused(m)
    else (m.(dir := m.dir[n := m.dir[n].(mode := NewMode(m.dir[n].mode, mode))]), true)
  }

  function Apply(m: View, c: Command): Answer
    requires 0 < m.blockSize
  {
    match c
    case CreateFile(n) => Make(m, n)
    case DeleteFile(n) => Remove(m, n)
    case WriteFile(n, content) => if n in m.dir then Store(m, n, content) else Refused(m)
    case AppendFile(n, data) => if n in m.dir then Store(m, n, m.dir[n].content + data) else Refused(m)
    case RenameFile(n, to) => Move(m, n, to)
    case CopyFile(n, dst) => Duplicate(m, n, dst)
    case TruncateFile(n, size) => Cut(m, n, size)
    case ChangeMode(n, mode) => SetMode(m, n, mode)
  }

  // ---- what is shown of a state ----

  function SeenOf(f: UiFile): Seen { Seen(f.content, f.mode, f.inode, |f.blocks|) }

  function Names(files: seq<UiFile>): set<string> { set i | 0 <= i < |files| :: files[i].name }

  function Listing(files: seq<UiFile>): map<string, Seen> {
    map n | n in Names(files) && FindFile(files, n).Some? :: SeenOf(files[FindFile(files, n).value])
  }

  function Shown(u: Ui): View { View(u.blockSize, Listing(u.files), u.freeBlocks, u.freeInodes, u.nextInode) }

  ghost predicate Distinct(files: seq<UiFile>) {
    forall i, j | 0 <= i < |files| && 0 <= j < |files| :: files[i].name == files[j].name ==> i == j
  }

  predicate Bears(files: seq<UiFile>, i: nat, n: string) { i < |files| && files[i].name == n }

  /** The listing, without its lookups. */
  ghost predicate Lists(files: seq<UiFile>, dir: map<string, Seen>) {
    && (forall i: nat, n | Bears(files, i, n) :: n in dir && dir[n] == SeenOf(files[i]))
    && (forall n | n in dir :: exists i: nat :: Bears(files, i, n))
  }

  lemma ListingFind(files: seq<UiFile>, n: string)
    ensures n in Listing(files) <==> FindFile(files, n).Some?
    ensures n in Listing(files) ==> Listing(files)[n] == SeenOf(files[FindFile(files, n).value])
  {
    var r := FindFile(files, n);
    if r.Some? {
      assert files[r.value].name in Names(files);
    }
  }

  lemma ListingLists(files: seq<UiFile>)
    requires Distinct(files)
    ensures Lists(files, Listing(files))
  {
    forall i: nat, n | Bears(files, i, n)
      ensures n in Listing(files) && Listing(files)[n] == SeenOf(files[i])
    {
      ListingFind(files, n);
    }
    forall n | n in Listing(files)
      ensures exists i: nat :: Bears(files, i, n)
    {
      ListingFind(files, n);
      assert Bears(files, FindFile(files, n).value, n);
    }
  }

  lemma ListsIsListing(files: seq<UiFile>, dir: map<string, Seen>)
    requires Lists(files, dir)
    ensures Listing(files) == dir
  {
    forall n
      ensures n in Listing(files) <==> n in dir
      ensures n in dir ==> Listing(files)[n] == dir[n]
    {
      ListingFind(files, n);
      if n in dir {
        var i: nat :| Bears(files, i, n);
        assert FindFile(files, n).Some?;
      }
      if FindFile(files, n).Some? {
        assert Bears(files, FindFile(files, n).value, n);
      }
    }
  }

  // ---- what the changes of the list show ----

  lemma ReplaceLists(files: seq<UiFile>, dir: map<string, Seen>, i: nat, f: UiFile)
    requires Distinct(files) && Lists(files, dir) && i < |files| && f.name == files[i].name
    ensures Distinct(files[i := f]) && Lists(files[i := f], dir[f.name := SeenOf(f)])
  {
    var (gs, d) := (files[i := f], dir[f.name := SeenOf(f)]);
    assert Bears(gs, i, f.name) && Bears(files, i, f.name);
    forall j: nat, n | Bears(gs, j, n)
      ensures n in d && d[n] == SeenOf(gs[j])
    {
      if j != i {
        assert Bears(files, j, n);
      }
    }
    forall n | n in d
      ensures exists j: nat :: Bears(gs, j, n)
    {
      if n != f.name {
        var j: nat :| Bears(files, j, n);
        assert Bears(gs, j, n);
      }
    }
  }

  lemma RenameLists(files: seq<UiFile>, dir: map<string, Seen>, i: nat, to: string)
    requires Distinct(files) && Lists(files, dir) && i < |files| && to !in dir
    ensures var gs := files[i := files[i].(name := to)];
            Distinct(gs) && Lists(gs, (dir - {files[i].name})[to := SeenOf(files[i])])
  {
    var was := files[i].name;
    var gs := files[i := files[i].(name := to)];
    var d := (dir - {was})[to := SeenOf(files[i])];
    assert Bears(files, i, was) && Bears(gs, i, to);
    forall j: nat, n | Bears(gs, j, n)
      ensures n in d && d[n] == SeenOf(gs[j]) && (n == to ==> j == i)
    {
      if j != i {
        assert Bears(files, j, n);
      }
    }
    forall j, k | 0 <= j < |gs| && 0 <= k < |gs|
      ensures gs[j].name == gs[k].name ==> j == k
    {
      assert Bears(gs, j, gs[j].name) && Bears(gs, k, gs[k].name);
    }
    forall n | n in d
      ensures exists j: nat :: Bears(gs, j, n)
    {
      if n != to {
        var j: nat :| Bears(files, j, n);
        assert Bears(gs, j, n);
      }
    }
  }

  lemma PushLists(files: seq<UiFile>, dir: map<string, Seen>, f: UiFile)
    requires Distinct(files) && Lists(files, dir) && f.name !in dir
    ensures Distinct(files + [f]) && Lists(files + [f], dir[f.name := SeenOf(f)])
  {
    var (gs, d) := (files + [f], dir[f.name := SeenOf(f)]);
    assert Bears(gs, |files|, f.name);
    forall j: nat, n | Bears(gs, j, n)
      ensures n in d && d[n] == SeenOf(gs[j]) && (n == f.name ==> j == |files|)
    {
      if j < |files| {
        assert Bears(files, j, n);
      }
    }
    forall j, k | 0 <= j < |gs| && 0 <= k < |gs|
      ensures gs[j].name == gs[k].name ==> j == k
    {
      assert Bears(gs, j, gs[j].name) && Bears(gs, k, gs[k].name);
    }
    forall n | n in d
      ensures exists j: nat :: Bears(gs, j, n)
    {
      if n != f.name {
        var j: nat :| Bears(files, j, n);
        assert Bears(gs, j, n);
      }
    }
  }

  lemma RemoveLists(files: seq<UiFile>, dir: map<string, Seen>, i: nat)
    requires Distinct(files) && Lists(files, dir) && i < |files|
    ensures var gs := files[..i] + files[i + 1..];
            Distinct(gs) && Lists(gs, dir - {files[i].name})
  {
    var gs := files[..i] + files[i + 1..];
    var d := dir - {files[i].name};
    assert forall j :: 0 <= j < |gs| ==> gs[j] == files[if j < i then j else j + 1];
    forall j: nat, n | Bears(gs, j, n)
      ensures n in d && d[n] == SeenOf(gs[j])
    {
      assert Bears(files, if j < i then j else j + 1, n);
    }
    forall n | n in d
      ensures exists j: nat :: Bears(gs, j, n)
    {
      var j: nat :| Bears(files, j, n);
      assert Bears(files, i, files[i].name);
      assert Bears(gs, if j < i then j else j - 1, n);
    }
  }

  // ---- refinement ----

  /** A good state with one file per name. */
  ghost predicate Good(u: Ui) { Inv(u) && Distinct(u.files) }

  /** The outcome shows the machine's answer. */
  ghost predicate Refines(r: Outcome, a: Answer) { Distinct(r.ui.files) && (Shown(r.ui), r.ok) == a }

  /** A lookup, and what is shown under the name. */
  lemma Look(u: Ui, n: string)
    requires Good(u)
    ensures Lists(u.files, Shown(u).dir)
    ensures n in Shown(u).dir <==> FindFile(u.files, n).Some?
    ensures n in Shown(u).dir ==> Shown(u).dir[n] == SeenOf(u.files[FindFile(u.files, n).value])
  {
    ListingLists(u.files);
    ListingFind(u.files, n);
  }

  lemma NeedIs(len: nat, bs: nat)
    requires 0 < bs
    ensures Needed(len, bs) == if len == 0 then 1 else Ceil(len, bs)
  {
    CeilBounds(len, bs);
  }

  lemma StoreShown(u: Ui, i: nat, n: string, content: string)
    requires Good(u) && Bears(u.files, i, n) && n in Shown(u).dir && Lists(u.files, Shown(u).dir)
    ensures Refines(DoWrite(u, i, content), Store(Shown(u), n, content))
  {
    NeedIs(|content|, u.blockSize);
    var r := DoWrite(u, i, content);
    assert Shown(u).dir[n] == SeenOf(u.files[i]);
    if r.ok {
      ReplaceLists(u.files, Shown(u).dir, i, r.ui.files[i]);
      ListsIsListing(r.ui.files, Shown(u).dir[n := SeenOf(r.ui.files[i])]);
    }
  }

  /** One more file at the end of the list. */
  lemma PushShown(u: Ui, f: UiFile, w: Ui)
    requires Good(u) && Lists(u.files, Shown(u).dir) && f.name !in Shown(u).dir
    requires w.files == u.files + [f]
    ensures Distinct(w.files) && Listing(w.files) == Shown(u).dir[f.name := SeenOf(f)]
  {
    PushLists(u.files, Shown(u).dir, f);
    ListsIsListing(w.files, Shown(u).dir[f.name := SeenOf(f)]);
  }

  lemma CreateIs(u: Ui, n: string, f: UiFile)
    requires |n| <= 31 && FindFile(u.files, n).None? && u.freeInodes > 0
    requires f == UiFile(n, u.nextInode, "", 0x81A4, [])
    ensures Create(u, n) == Outcome(u.(files := u.files + [f], nextInode := u.nextInode + 1,
                                       freeInodes := u.freeInodes - 1), true)
  {
  }

  lemma MakeIs(m: View, n: string, x: Seen)
    requires |n| <= 31 && n !in m.dir && m.freeInodes > 0 && x == Seen("", 0x81A4, m.nextInode, 0)
    ensures Make(m, n) == (View(m.blockSize, m.dir[n := x], m.freeBlocks, m.freeInodes - 1, m.nextInode + 1), true)
  {
  }

  lemma CreateMade(u: Ui, n: string, f: UiFile, r: Outcome, m: View, a: Answer)
    requires Good(u) && m == Shown(u) && Lists(u.files, m.dir) && f.name == n && n !in m.dir
    requires r == Outcome(u.(files := u.files + [f], nextInode := u.nextInode + 1,
                             freeInodes := u.freeInodes - 1), true)
    requires a == (View(m.blockSize, m.dir[n := SeenOf(f)], m.freeBlocks, m.freeInodes - 1, m.nextInode + 1), true)
    ensures Refines(r, a)
  {
    PushShown(u, f, r.ui);
  }

  lemma CreateShown(u: Ui, n: string, r: Outcome, m: View, a: Answer)
    requires Good(u) && r == Create(u, n) && m == Shown(u) && a == Make(m, n)
    ensures Refines(r, a)
  {
    Look(u, n);
    if |n| <= 31 && n !in m.dir && m.freeInodes > 0 {
      var f := UiFile(n, u.nextInode, "", 0x81A4, []);
      CreateIs(u, n, f);
      MakeIs(m, n, SeenOf(f));
      CreateMade(u, n, f, r, m, a);
    } else {
      assert r == Outcome(u, false) && a == (m, false);
    }
  }

  lemma DeleteMade(u: Ui, i: nat, n: string, w: Ui)
    requires Good(u) && Bears(u.files, i, n) && Lists(u.files, Shown(u).dir)
    requires w.files == u.files[..i] + u.files[i + 1..]
    ensures Distinct(w.files) && Listing(w.files) == Shown(u).dir - {n}
  {
    RemoveLists(u.files, Shown(u).dir, i);
    ListsIsListing(w.files, Shown(u).dir - {n});
  }

  lemma DeleteIs(u: Ui, i: nat, n: string)
    requires FindFile(u.files, n) == Some(i)
    ensures Delete(u, n) == Outcome(u.(files := u.files[..i] + u.files[i + 1..],
                                       usedDataBlocks := u.usedDataBlocks - |u.files[i].blocks|,
                                       freeBlocks := u.freeBlocks + |u.files[i].blocks|,
                                       freeInodes := u.freeInodes + 1), true)
  {
  }

  lemma DeleteShown(u: Ui, n: string, r: Outcome, m: View, a: Answer)
    requires Good(u) && r == Delete(u, n) && m == Shown(u) && a == Remove(m, n)
    ensures Refines(r, a)
  {
    Look(u, n);
    if n in m.dir {
      var i := FindFile(u.files, n).value;
      DeleteIs(u, i, n);
      DeleteMade(u, i, n, r.ui);
      assert m.dir[n].blocks == |u.files[i].blocks|;
    } else {
      assert r == Outcome(u, false) && a == (m, false);
    }
  }

  lemma RenameShown(u: Ui, n: string, to: string)
    requires Good(u)
    ensures Refines(Rename(u, n, to), Move(Shown(u), n, to))
  {
    Look(u, n);
    Look(u, to);
    var r := Rename(u, n, to);
    if r.ok {
      var i := FindFile(u.files, n).value;
      RenameLists(u.files, Shown(u).dir, i, to);
      ListsIsListing(r.ui.files, (Shown(u).dir - {n})[to := SeenOf(u.files[i])]);
    }
  }

  lemma ChmodIs(u: Ui, i: nat, n: string, mode: bv16, f: UiFile)
    requires FindFile(u.files, n) == Some(i) && f == u.files[i].(mode := (u.files[i].mode & 0xF000) | (mode & 0x0FFF))
    ensures Chmod(u, n, mode) == Outcome(u.(files := u.files[i := f]), true)
  {
  }

  lemma ModeIs(f: UiFile, g: UiFile, mode: bv16)
    requires g == f.(mode := (f.mode & 0xF000) | (mode & 0x0FFF))
    ensures SeenOf(g) == SeenOf(f).(mode := NewMode(SeenOf(f).mode, mode))
  {
  }

  lemma ChmodShown(u: Ui, n: string, mode: bv16, r: Outcome, m: View, a: Answer)
    requires Good(u) && r == Chmod(u, n, mode) && m == Shown(u) && a == SetMode(m, n, mode)
    ensures Refines(r, a)
  {
    Look(u, n);
    if n in m.dir {
      var i := FindFile(u.files, n).value;
      var f := u.files[i].(mode := (u.files[i].mode & 0xF000) | (mode & 0x0FFF));
      ChmodIs(u, i, n, mode, f);
      ModeIs(u.files[i], f, mode);
      ReplaceLists(u.files, m.dir, i, f);
      ListsIsListing(r.ui.files, m.dir[n := SeenOf(f)]);
    } else {
      assert r == Outcome(u, false) && a == (m, false);
    }
  }

  lemma WriteShown(u: Ui, n: string, content: string)
    requires Good(u)
    ensures Refines(Write(u, n, content), Apply(Shown(u), WriteFile(n, content)))
  {
    Look(u, n);
    if n in Shown(u).dir {
      StoreShown(u, FindFile(u.files, n).value, n, content);
    }
  }

  lemma AppendShown(u: Ui, n: string, data: string)
    requires Good(u)
    ensures Refines(Append(u, n, data), Apply(Shown(u), AppendFile(n, data)))
  {
    Look(u, n);
    if n in Shown(u).dir {
      var i := FindFile(u.files, n).value;
      AppendStores(u, i, n, data, u.files[i].content + data);
    }
  }

  lemma AppendIs(m: View, n: string, data: string, longer: string)
    requires 0 < m.blockSize && n in m.dir && longer == m.dir[n].content + data
    ensures Apply(m, AppendFile(n, data)) == Store(m, n, longer)
  {
  }

  lemma AppendStores(u: Ui, i: nat, n: string, data: string, longer: string)
    requires Good(u) && FindFile(u.files, n) == Some(i) && n in Shown(u).dir && Lists(u.files, Shown(u).dir)
    requires Shown(u).dir[n] == SeenOf(u.files[i]) && longer == u.files[i].content + data
    ensures Refines(Append(u, n, data), Apply(Shown(u), AppendFile(n, data)))
  {
    StoreShown(u, i, n, longer);
    AppendIs(Shown(u), n, data, longer);
  }

  lemma SliceIsPrefix(content: string, size: int)
    requires size <= |content|
    ensures Slice(content, size) == content[..CutTo(|content|, size)]
  {
  }

  lemma TruncateShown(u: Ui, n: string, size: int)
    requires Good(u)
    ensures Refines(Truncate(u, n, size), Cut(Shown(u), n, size))
  {
    Look(u, n);
    if n in Shown(u).dir && size <= |Shown(u).dir[n].content| {
      var i := FindFile(u.files, n).value;
      SliceIsPrefix(u.files[i].content, size);
      StoreShown(u, i, n, Slice(u.files[i].content, size));
    }
  }

  /** The state with a copy of file s that has those blocks. */
  function Copied(u: Ui, s: nat, dst: string, blocks: seq<nat>): Ui
    requires s < |u.files|
  {
    u.(files := u.files + [UiFile(dst, u.nextInode, u.files[s].content, u.files[s].mode, blocks)],
       usedDataBlocks := u.usedDataBlocks + |blocks|, freeBlocks := u.freeBlocks - |blocks|,
       freeInodes := u.freeInodes - 1, nextInode := u.nextInode + 1)
  }

  /** The write of a copy that is not empty. */
  lemma CopyWritten(u: Ui, s: nat, dst: string, content: string, r: Outcome) returns (blocks: seq<nat>)
    requires Inv(u) && s < |u.files| && Inv(Pushed(u, s, dst)) && content == u.files[s].content && content != ""
    requires r == DoWrite(Pushed(u, s, dst), |u.files|, content)
    ensures r.ok <==> Ceil(|content|, u.blockSize) <= 16 && Ceil(|content|, u.blockSize) <= u.freeBlocks
    ensures r.ok ==> |blocks| == Ceil(|content|, u.blockSize) && r.ui == Copied(u, s, dst, blocks)
    ensures !r.ok ==> r.ui == Pushed(u, s, dst)
  {
    NeedIs(|content|, u.blockSize);
    blocks := Consecutive(u.dataStart + u.usedDataBlocks, Ceil(|content|, u.blockSize));
    if r.ok {
      assert r.ui.files == Copied(u, s, dst, blocks).files;
    }
  }

  lemma DuplicateIs(m: View, n: string, dst: string, need: nat, x: Seen)
    requires 0 < m.blockSize && n in m.dir && dst !in m.dir && m.freeInodes > 0
    requires need == Ceil(|m.dir[n].content|, m.blockSize) && need <= 16 && need <= m.freeBlocks
    requires x == Seen(m.dir[n].content, m.dir[n].mode, m.nextInode, need)
    ensures Duplicate(m, n, dst) == (View(m.blockSize, m.dir[dst := x], m.freeBlocks - need, m.freeInodes - 1,
                                          m.nextInode + 1), true)
  {
  }

  lemma CopiedShown(u: Ui, s: nat, n: string, dst: string, blocks: seq<nat>)
    requires Good(u) && Bears(u.files, s, n) && Lists(u.files, Shown(u).dir) && dst !in Shown(u).dir
    requires Inv(u) && |blocks| == Ceil(|u.files[s].content|, u.blockSize)
    requires |blocks| <= 16 && |blocks| <= u.freeBlocks && u.freeInodes > 0
    ensures Refines(Outcome(Copied(u, s, dst, blocks), true), Duplicate(Shown(u), n, dst))
  {
    var f := UiFile(dst, u.nextInode, u.files[s].content, u.files[s].mode, blocks);
    PushShown(u, f, Copied(u, s, dst, blocks));
    assert Shown(u).dir[n] == SeenOf(u.files[s]);
    DuplicateIs(Shown(u), n, dst, |blocks|, SeenOf(f));
  }

  /** A copy that is taken back. */
  lemma DroppedShown(u: Ui, s: nat, n: string, dst: string)
    requires Good(u) && Bears(u.files, s, n) && Lists(u.files, Shown(u).dir) && dst !in Shown(u).dir
    requires u.freeInodes > 0
    requires Ceil(|u.files[s].content|, u.blockSize) > 16 || Ceil(|u.files[s].content|, u.blockSize) > u.freeBlocks
    ensures Refines(Outcome(Dropped(Pushed(u, s, dst)), false), Duplicate(Shown(u), n, dst))
  {
    assert Pushed(u, s, dst).files[..|u.files|] == u.files;
    assert Shown(u).dir[n] == SeenOf(u.files[s]);
  }

  lemma CopyMade(u: Ui, s: nat, n: string, dst: string, r: Outcome)
    requires Good(u) && FindFile(u.files, n) == Some(s) && FindFile(u.files, dst).None? && u.freeInodes > 0
    requires Bears(u.files, s, n) && Lists(u.files, Shown(u).dir) && dst !in Shown(u).dir && r == Copy(u, n, dst)
    ensures Refines(r, Duplicate(Shown(u), n, dst))
  {
    var content := u.files[s].content;
    PushedInv(u, s, dst);
    if content == "" {
      CeilBounds(0, u.blockSize);
      assert Pushed(u, s, dst) == Copied(u, s, dst, []);
      CopiedShown(u, s, n, dst, []);
    } else {
      var d := DoWrite(Pushed(u, s, dst), |u.files|, content);
      var blocks := CopyWritten(u, s, dst, content, d);
      if d.ok {
        CopiedShown(u, s, n, dst, blocks);
      } else {
        DroppedShown(u, s, n, dst);
      }
    }
  }

  lemma CopyShown(u: Ui, n: string, dst: string)
    requires Good(u)
    ensures Refines(Copy(u, n, dst), Duplicate(Shown(u), n, dst))
  {
    Look(u, n);
    Look(u, dst);
    if n in Shown(u).dir && dst !in Shown(u).dir && u.freeInodes > 0 {
      CopyMade(u, FindFile(u.files, n).value, n, dst, Copy(u, n, dst));
    }
  }

  /** Every command of the simulator shows the machine's answer. */
  lemma StepShown(u: Ui, c: Command)
    requires Good(u)
    ensures Good(Step(u, c).ui) && (Shown(Step(u, c).ui), Step(u, c).ok) == Apply(Shown(u), c)
  {
    StepInv(u, c);
    match c
    case CreateFile(n) => CreateShown(u, n, Create(u, n), Shown(u), Make(Shown(u), n));
    case DeleteFile(n) => DeleteShown(u, n, Delete(u, n), Shown(u), Remove(Shown(u), n));
    case WriteFile(n, content) => WriteShown(u, n, content);
    case AppendFile(n, data) => AppendShown(u, n, data);
    case RenameFile(n, to) => RenameShown(u, n, to);
    case CopyFile(n, dst) => CopyShown(u, n, dst);
    case TruncateFile(n, size) => TruncateShown(u, n, size);
    case ChangeMode(n, mode) => ChmodShown(u, n, mode, Chmod(u, n, mode), Shown(u), SetMode(Shown(u), n, mode));
  }

  // ---- runs ----

  function ApplyAll(m: View, cmds: seq<Command>): View
    requires 0 < m.blockSize
    decreases |cmds|
  {
    if cmds == [] then m else ApplyAll(Apply(m, cmds[0]).0, cmds[1..])
  }

  /** A format leaves an empty directory. */
  lemma FormatShown(totalSize: int, bs: int)
    requires Format(totalSize, bs).Some?
    ensures var u := Format(totalSize, bs).value;
            Good(u) && Shown(u) == View(bs, map[], u.dataBlocks, u.maxInodes, 0)
  {
    FormatInv(totalSize, bs);
    var u := Format(totalSize, bs).value;
    ListsIsListing(u.files, map[]);
  }

  /** Over any sequence of commands the simulator shows what the machine computes. */
  lemma {:induction false} RunShown(u: Ui, cmds: seq<Command>)
    requires Good(u)
    ensures Good(Run(u, cmds)) && Shown(Run(u, cmds)) == ApplyAll(Shown(u), cmds)
    decreases |cmds|
  {
    if cmds != [] {
      StepShown(u, cmds[0]);
      RunShown(Step(u, cmds[0]).ui, cmds[1..]);
    }
  }

  // ---- what a user may rely on ----

  /** The names a command may create, change or remove. */
  function Changes(c: Command): set<string> {
    match c
    case RenameFile(n, to) => {n, to}
    case CopyFile(_, dst) => {dst}
    case _ => {c.name}
  }

  lemma ApplyRefused(m: View, c: Command)
    requires 0 < m.blockSize && !Apply(m, c).1
    ensures var w := Apply(m, c).0;
            w == m.(nextInode := w.nextInode) && (w.nextInode != m.nextInode ==> c.CopyFile?)
  {
  }

  lemma ApplyFrame(m: View, c: Command, n: string)
    requires 0 < m.blockSize && n !in Changes(c)
    ensures var w := Apply(m, c).0;
            (n in w.dir <==> n in m.dir) && (n in m.dir ==> w.dir[n] == m.dir[n])
  {
    match c
    case CreateFile(_) =>
    case DeleteFile(_) =>
    case WriteFile(_, _) =>
    case AppendFile(_, _) =>
    case RenameFile(_, _) =>
    case CopyFile(_, _) =>
    case TruncateFile(_, _) =>
    case ChangeMode(_, _) =>
  }

  /** A refused command changes nothing but, for a copy, the next inode number; any other leaves the files it does
      not name alone. */
  lemma OthersUnchanged(u: Ui, c: Command, n: string)
    requires Good(u)
    ensures var (m, w) := (Shown(u), Shown(Step(u, c).ui));
            && (!Step(u, c).ok ==> w == m.(nextInode := w.nextInode) && (w.nextInode != m.nextInode ==> c.CopyFile?))
            && (n !in Changes(c) ==> (n in w.dir <==> n in m.dir) && (n in m.dir ==> w.dir[n] == m.dir[n]))
  {
    StepShown(u, c);
    if !Step(u, c).ok {
      ApplyRefused(Shown(u), c);
    }
    if n !in Changes(c) {
      ApplyFrame(Shown(u), c, n);
    }
  }

  /** An accepted append puts the data behind the content and keeps mode and inode number. */
  lemma AppendConcatenates(u: Ui, name: string, data: string)
    requires Good(u)
    ensures var r := Step(u, AppendFile(name, data));
            r.ok ==>
              && FindFile(u.files, name).Some? && FindFile(r.ui.files, name).Some?
              && var (f, g) := (u.files[FindFile(u.files, name).value], r.ui.files[FindFile(r.ui.files, name).value]);
                 g.content == f.content + data && g.mode == f.mode && g.inode == f.inode
  {
    StepShown(u, AppendFile(name, data));
    Look(u, name);
    Look(Step(u, AppendFile(name, data)).ui, name);
  }
}
