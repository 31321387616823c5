/** What fs_stat and fs_statfs show besides contents and mode: times, link counts and the four statistics. Over
    whole runs they are what a ledger kept beside the map machine says. */
module Ledgers {
  import opened Types
  import opened Geometry
  import opened Volume
  import opened Steps
  import opened UserView
  import opened Refinement
  import opened Commands
  import opened Runs

  datatype Entry = Entry(created: U64, modified: U64, accessed: U64, links: U32)

  /** The statistics are exact here; the superblock has them modulo 2^64. */
  datatype Ledger = Ledger(files: map<CString, Entry>, writes: nat, written: nat, fetches: nat, fetched: nat)

  // ---- the ledger ----

  function Modified(t: Ledger, n: CString, now: U64): Ledger {
    if n in t.files then t.(files := t.files[n := t.files[n].(modified := now)]) else t
  }

  function Accessed(t: Ledger, n: CString, now: U64): Ledger {
    if n in t.files then t.(files := t.files[n := t.files[n].(accessed := now)]) else t
  }

  function Entered(t: Ledger, n: CString, now: U64): Ledger {
    t.(files := t.files[n := Entry(now, now, now, 1)])
  }

  function Moved(t: Ledger, n: CString, to: CString, now: U64): Ledger {
    if n in t.files then t.(files := (t.files - {n})[to := t.files[n].(modified := now)]) else t
  }

  function Wrote(t: Ledger, len: nat): Ledger { t.(writes := t.writes + 1, written := t.written + len) }

  function Fetched(t: Ledger, len: nat): Ledger { t.(fetches := t.fetches + 1, fetched := t.fetched + len) }

  /** A new file with that much copied into it. */
  function Copied(t: Ledger, n: CString, now: U64, len: nat): Ledger {
    if len == 0 then Entered(t, n, now) else Wrote(Entered(t, n, now), len)
  }

  /** What a successful command made at that time enters, given the state it is made in. An append counts the whole
      new content as written, a copy the content copied, if there is any. */
  function Enter(t: Ledger, m: Model, c: Command, now: U64): Ledger {
    match c
    case CreateFile(n) => Entered(t, n, now)
    case DeleteFile(n) => t.(files := t.files - {n})
    case WriteFile(n, content) => Wrote(Modified(t, n, now), |content|)
    case AppendFile(n, content) =>
      Wrote(Modified(t, n, now), if n in m.dir then |m.dir[n].contents| + |content| else 0)
    case ReadFile(n) => Fetched(Accessed(t, n, now), if n in m.dir then |m.dir[n].contents| else 0)
    case RenameFile(n, to) => Moved(t, n, to, now)
    case CopyFile(n, dst) => Copied(t, Clip(dst), now, if n in m.dir then |m.dir[n].contents| else 0)
    case TruncateFile(n, _) => Modified(t, n, now)
    case ChangeMode(n, _) => Modified(t, n, now)
    case Check => t
    case Remount => t
  }

  function Note(t: Ledger, m: Model, c: Command, now: U64): Ledger
    requires 0 < m.blockSize
  {
    if Apply(m, c).1.ok then Enter(t, m, c, now) else t
  }

  function NoteAll(t: Ledger, m: Model, calls: seq<Call>): Ledger
    requires 0 < m.blockSize
    decreases |calls|
  {
    if calls == [] then t
    else NoteAll(Note(t, m, calls[0].cmd, calls[0].now), Apply(m, calls[0].cmd).0, calls[1..])
  }

  // ---- what it stands for ----

  function EntryOf(ino: Inode): Entry { Entry(ino.createdAt, ino.modifiedAt, ino.accessedAt, ino.linkCount) }

  predicate Bears(inodes: seq<Inode>, i: nat, n: CString) {
    i < |inodes| && IsUsed(inodes[i]) && NameOf(inodes[i]) == n
  }

  ghost predicate Tells(inodes: seq<Inode>, files: map<CString, Entry>) {
    && (forall i: nat, n | Bears(inodes, i, n) :: n in files && files[n] == EntryOf(inodes[i]))
    && (forall n | n in files :: exists i: nat :: Bears(inodes, i, n))
  }

  /** A counter of 64 bits. */
  predicate Counts(x: U64, total: nat) { x == total % 0x1_0000_0000_0000_0000 }

  predicate Totals(sb: Superblock, t: Ledger) {
    && Counts(sb.totalWrites, t.writes) && Counts(sb.bytesWritten, t.written)
    && Counts(sb.totalReads, t.fetches) && Counts(sb.bytesRead, t.fetched)
  }

  ghost predicate Represents(v: Vol, t: Ledger) { Tells(v.inodes, t.files) && Totals(v.sb, t) }

  lemma CountUp(x: U64, total: nat, more: nat)
    requires Counts(x, total)
    ensures Counts(Wrap64(x + more), total + more)
  {
  }

  predicate Same(a: Superblock, b: Superblock) {
    && b.totalWrites == a.totalWrites && b.bytesWritten == a.bytesWritten
    && b.totalReads == a.totalReads && b.bytesRead == a.bytesRead
  }

  predicate OneWrite(a: Superblock, b: Superblock, len: nat) {
    && b.totalWrites == Wrap64(a.totalWrites + 1) && b.bytesWritten == Wrap64(a.bytesWritten + len)
    && b.totalReads == a.totalReads && b.bytesRead == a.bytesRead
  }

  predicate OneRead(a: Superblock, b: Superblock, len: nat) {
    && b.totalReads == Wrap64(a.totalReads + 1) && b.bytesRead == Wrap64(a.bytesRead + len)
    && b.totalWrites == a.totalWrites && b.bytesWritten == a.bytesWritten
  }

  /** Only the files differ. */
  predicate SameCounts(t: Ledger, u: Ledger) { u == t.(files := u.files) }

  lemma SameTotals(a: Superblock, b: Superblock, t: Ledger, u: Ledger)
    requires Totals(a, t) && Same(a, b) && SameCounts(t, u)
    ensures Totals(b, u)
  {
  }

  lemma WroteTotals(a: Superblock, b: Superblock, t: Ledger, u: Ledger, len: nat)
    requires Totals(a, t) && OneWrite(a, b, len) && SameCounts(t, u)
    ensures Totals(b, Wrote(u, len))
  {
    CountUp(a.totalWrites, t.writes, 1);
    CountUp(a.bytesWritten, t.written, len);
  }

  lemma FetchedTotals(a: Superblock, b: Superblock, t: Ledger, u: Ledger, len: nat)
    requires Totals(a, t) && OneRead(a, b, len) && SameCounts(t, u)
    ensures Totals(b, Fetched(u, len))
  {
    CountUp(a.totalReads, t.fetches, 1);
    CountUp(a.bytesRead, t.fetched, len);
  }

  // ---- one slot changes ----

  lemma TellsBears(inodes: seq<Inode>, files: map<CString, Entry>, i: nat, n: CString)
    requires Tells(inodes, files) && Bears(inodes, i, n)
    ensures n in files && files[n] == EntryOf(inodes[i])
  {
  }

  /** Slot i changes, and with it what is told of one name. */
  ghost predicate Rewritten(inodes: seq<Inode>, files: map<CString, Entry>, i: nat, x: Inode,
                            rest: map<CString, Entry>, after: map<CString, Entry>) {
    && Distinct(inodes) && Tells(inodes, files) && i < |inodes|
    && rest == (if IsUsed(inodes[i]) then files - {NameOf(inodes[i])} else files)
    && after == (if IsUsed(x) then rest[NameOf(x) := EntryOf(x)] else rest)
    && (IsUsed(x) ==> NameOf(x) !in rest)
  }

  lemma ToldAfter(inodes: seq<Inode>, files: map<CString, Entry>, i: nat, x: Inode, rest: map<CString, Entry>,
                  after: map<CString, Entry>, j: nat, n: CString)
    requires Rewritten(inodes, files, i, x, rest, after) && Bears(inodes[i := x], j, n)
    ensures n in after && after[n] == EntryOf(inodes[i := x][j])
  {
    if j != i {
      assert Bears(inodes, j, n);
      if IsUsed(inodes[i]) {
        assert Bears(inodes, i, NameOf(inodes[i]));
      }
    }
  }

  lemma BornAfter(inodes: seq<Inode>, files: map<CString, Entry>, i: nat, x: Inode, rest: map<CString, Entry>,
                  after: map<CString, Entry>, n: CString) returns (j: nat)
    requires Rewritten(inodes, files, i, x, rest, after) && n in after
    ensures Bears(inodes[i := x], j, n)
  {
    if IsUsed(x) && n == NameOf(x) {
      j := i;
    } else {
      j :| Bears(inodes, j, n);
    }
  }

  lemma TellsAfter(inodes: seq<Inode>, files: map<CString, Entry>, i: nat, x: Inode, rest: map<CString, Entry>,
                   after: map<CString, Entry>)
    requires Rewritten(inodes, files, i, x, rest, after)
    ensures Tells(inodes[i := x], after)
  {
    var s := inodes[i := x];
    forall j: nat, n | Bears(s, j, n)
      ensures n in after && after[n] == EntryOf(s[j])
    {
      ToldAfter(inodes, files, i, x, rest, after, j, n);
    }
    forall n | n in after
      ensures exists j: nat :: Bears(s, j, n)
    {
      var j := BornAfter(inodes, files, i, x, rest, after, n);
    }
  }

  /** The slot's name stays. */
  lemma TellsSameName(inodes: seq<Inode>, files: map<CString, Entry>, i: nat, x: Inode, n: CString)
    requires Distinct(inodes) && Tells(inodes, files) && Bears(inodes, i, n) && IsUsed(x) && NameOf(x) == n
    ensures Tells(inodes[i := x], files[n := EntryOf(x)])
  {
    assert files[n := EntryOf(x)] == (files - {n})[n := EntryOf(x)];
    TellsAfter(inodes, files, i, x, files - {n}, files[n := EntryOf(x)]);
  }

  /** A free slot gets a file of a name that is not present. */
  lemma TellsNew(inodes: seq<Inode>, files: map<CString, Entry>, i: nat, x: Inode, n: CString)
    requires Distinct(inodes) && Tells(inodes, files) && i < |inodes| && !IsUsed(inodes[i])
    requires IsUsed(x) && NameOf(x) == n && n !in files
    ensures Tells(inodes[i := x], files[n := EntryOf(x)])
  {
    TellsAfter(inodes, files, i, x, files, files[n := EntryOf(x)]);
  }

  lemma TellsMoved(inodes: seq<Inode>, files: map<CString, Entry>, i: nat, x: Inode, n: CString, to: CString)
    requires Distinct(inodes) && Tells(inodes, files) && Bears(inodes, i, n)
    requires IsUsed(x) && NameOf(x) == to && to !in files
    ensures Tells(inodes[i := x], (files - {n})[to := EntryOf(x)])
  {
    TellsAfter(inodes, files, i, x, files - {n}, (files - {n})[to := EntryOf(x)]);
  }

  lemma TellsGone(inodes: seq<Inode>, files: map<CString, Entry>, i: nat, x: Inode, n: CString)
    requires Distinct(inodes) && Tells(inodes, files) && Bears(inodes, i, n) && !IsUsed(x)
    ensures Tells(inodes[i := x], files - {n})
  {
    TellsAfter(inodes, files, i, x, files - {n}, files - {n});
  }

  /** The file n is in slot i of a table with one file to a name. */
  ghost predicate At(v: Vol, t: Ledger, i: nat, n: CString) {
    Distinct(v.inodes) && Represents(v, t) && Bears(v.inodes, i, n)
  }

  /** No file has the name n. */
  ghost predicate Free(v: Vol, t: Ledger, n: CString) {
    Distinct(v.inodes) && Represents(v, t) && n !in t.files
  }

  lemma Present(v: Vol, t: Ledger, n: CString)
    requires Inv(v) && Represents(v, t) && Find(v.inodes, n).Some?
    ensures At(v, t, Find(v.inodes, n).value, n)
  {
    InvDistinct(v);
  }

  lemma Absent(v: Vol, t: Ledger, n: CString)
    requires Inv(v) && Represents(v, t) && Find(v.inodes, n).None?
    ensures Free(v, t, n)
  {
    InvDistinct(v);
    if n in t.files {
      ToldFound(v.inodes, t.files, n);
    }
  }

  lemma ToldFound(inodes: seq<Inode>, files: map<CString, Entry>, n: CString)
    requires Tells(inodes, files) && n in files
    ensures Find(inodes, n).Some?
  {
    var i: nat :| Bears(inodes, i, n);
  }

  /** What a directory shows of the size. */
  lemma ShownSize(v: Vol, i: nat, n: CString)
    requires Inv(v) && Find(v.inodes, n) == Some(i)
    ensures Shape(v) && n in Dir(v) && |Dir(v)[n].contents| == v.inodes[i].size
  {
    DirFind(v, n);
  }

  lemma ShownAfter(w: Vol, i: nat, n: CString)
    requires Inv(w) && Bears(w.inodes, i, n)
    ensures Shape(w) && n in Dir(w) && |Dir(w)[n].contents| == w.inodes[i].size
  {
    InvDistinct(w);
    FindOwn(w.inodes, i);
    DirFind(w, n);
  }

  // ---- what commands do to a slot ----

  /** The slot keeps its name and records a modification. */
  ghost predicate Touched(v: Vol, w: Vol, i: nat, n: CString, now: U64) {
    && i < |v.inodes| && i < |w.inodes| && w.inodes == v.inodes[i := w.inodes[i]]
    && Bears(w.inodes, i, n) && EntryOf(w.inodes[i]) == EntryOf(v.inodes[i]).(modified := now)
  }

  /** A free slot becomes a new file. */
  ghost predicate Filled(v: Vol, w: Vol, i: nat, n: CString, now: U64) {
    && i < |v.inodes| && !IsUsed(v.inodes[i]) && i < |w.inodes| && w.inodes == v.inodes[i := w.inodes[i]]
    && Bears(w.inodes, i, n) && EntryOf(w.inodes[i]) == Entry(now, now, now, 1)
  }

  lemma TouchedTells(v: Vol, t: Ledger, i: nat, n: CString, now: U64, w: Vol)
    requires At(v, t, i, n) && Touched(v, w, i, n, now)
    ensures Tells(w.inodes, Modified(t, n, now).files) && SameCounts(t, Modified(t, n, now))
  {
    TellsBears(v.inodes, t.files, i, n);
    TellsSameName(v.inodes, t.files, i, w.inodes[i], n);
  }

  lemma FilledTells(v: Vol, t: Ledger, i: nat, n: CString, now: U64, w: Vol)
    requires Free(v, t, n) && Filled(v, w, i, n, now)
    ensures Tells(w.inodes, Entered(t, n, now).files) && SameCounts(t, Entered(t, n, now))
  {
    TellsNew(v.inodes, t.files, i, w.inodes[i], n);
  }

  lemma CreateFills(v: Vol, n: CString, now: U64, w: Vol)
    requires Shape(v) && Create(v, n, now).ok && w == Create(v, n, now).vol
    ensures FreeSlot(v.inodes).Some? && Find(v.inodes, n).None?
    ensures Filled(v, w, FreeSlot(v.inodes).value, n, now) && Same(v.sb, w.sb)
  {
    CopyNameHolds(ZeroInode().name, n);
    CreateIs(v, n, now, FreeSlot(v.inodes).value, Create(v, n, now));
  }

  lemma RewriteTouches(v: Vol, i: nat, n: CString, stored: seq<Byte>, now: U64, w: Vol)
    requires Bears(v.inodes, i, n) && Ready(v, v.inodes[i]) && |stored| < TWO32
    requires Rewrite(v, i, stored, now).ok && w == Rewrite(v, i, stored, now).vol
    ensures Touched(v, w, i, n, now) && OneWrite(v.sb, w.sb, |stored|) && w.inodes[i].size == |stored|
  {
  }

  lemma ReadyAt(v: Vol, i: nat)
    requires Inv(v) && i < |v.inodes| && IsUsed(v.inodes[i])
    ensures Ready(v, v.inodes[i])
  {
  }

  lemma ReplaceShown(m: Model, n: CString, content: seq<Byte>, w: Model)
    requires 0 < m.blockSize && n in m.dir && Replace(m, n, content) == (w, Reply(true, []))
    ensures n in w.dir && w.dir[n].contents == content
  {
  }

  /** A write that shows the content meant has counted its length. */
  lemma RewriteShown(v: Vol, i: nat, n: CString, stored: seq<Byte>, meant: seq<Byte>, now: U64, w: Vol, m: Model)
    requires Bears(v.inodes, i, n) && Ready(v, v.inodes[i]) && |stored| < TWO32
    requires Rewrite(v, i, stored, now).ok && w == Rewrite(v, i, stored, now).vol && Inv(w)
    requires 0 < m.blockSize && n in m.dir && Replace(m, n, meant) == (Abs(w), Reply(true, []))
    ensures Touched(v, w, i, n, now) && OneWrite(v.sb, w.sb, |meant|)
  {
    RewriteTouches(v, i, n, stored, now, w);
    ShownAfter(w, i, n);
    ReplaceShown(m, n, meant, Abs(w));
  }

  lemma WriteTouches(v: Vol, n: CString, content: seq<Byte>, now: U64, r: Volume.Outcome, i: nat)
    requires Inv(v) && r == Write(v, n, content, now) && r.ok && Find(v.inodes, n) == Some(i)
    requires Refines(r, Apply(Abs(v), WriteFile(n, content)))
    ensures Touched(v, r.vol, i, n, now) && OneWrite(v.sb, r.vol.sb, |content|)
  {
    ReadyAt(v, i);
    WriteIsRewrite(v, n, i, content, now);
    ShownSize(v, i, n);
    WritesReplace(Abs(v), n, content);
    RewriteShown(v, i, n, Counted(content), content, now, r.vol, Abs(v));
  }

  lemma AppendTouches(v: Vol, n: CString, content: seq<Byte>, now: U64, r: Volume.Outcome, i: nat) returns (len: nat)
    requires Inv(v) && AppendDefined(v, n, content) && r == Append(v, n, content, now)
    requires r.ok && Find(v.inodes, n) == Some(i) && Refines(r, Apply(Abs(v), AppendFile(n, content)))
    ensures n in Abs(v).dir && len == |Abs(v).dir[n].contents| + |content|
    ensures Touched(v, r.vol, i, n, now) && OneWrite(v.sb, r.vol.sb, len)
  {
    ReadyAt(v, i);
    Commands.Entry(v, n);
    var stored, meant := AppendStores(v, n, i, content, now);
    len := |meant|;
    RewriteShown(v, i, n, stored, meant, now, r.vol, Abs(v));
  }

  /** What a copy does to its slot and the statistics: without data, and with. */
  lemma EmptyCopyFills(v: Vol, s: nat, i: nat, dst: CString, now: U64, w: Vol)
    requires Local(v, i) && !IsUsed(v.inodes[i]) && s < |v.inodes| && v.inodes[s].size == 0
    requires w == CopyInto(v, s, i, dst, now).vol
    ensures Filled(v, w, i, Clip(dst), now) && Same(v.sb, w.sb)
  {
    CopiedInode(v, i, dst, v.inodes[s].mode, now);
  }

  lemma WrittenFills(v: Vol, a: Vol, i: nat, n: CString, ino: Inode, content: seq<Byte>, now: U64, w: Vol)
    requires i < |v.inodes| && !IsUsed(v.inodes[i]) && Same(v.sb, a.sb) && Ready(a, ino) && |content| < TWO32
    requires NameOf(ino) == n && EntryOf(ino) == Entry(now, now, now, 1) && DoWrite(a, ino, content, now).2
    requires w.inodes == v.inodes[i := DoWrite(a, ino, content, now).1]
    requires w.sb == DoWrite(a, ino, content, now).0.sb
    ensures Filled(v, w, i, n, now) && OneWrite(v.sb, w.sb, |content|)
  {
  }

  lemma DataCopyFills(v: Vol, s: nat, i: nat, dst: CString, now: U64, w: Vol)
    requires Local(v, i) && !IsUsed(v.inodes[i]) && s < |v.inodes| && v.inodes[s].size > 0
    requires CopyInto(v, s, i, dst, now).ok && w == CopyInto(v, s, i, dst, now).vol
    ensures Filled(v, w, i, Clip(dst), now) && OneWrite(v.sb, w.sb, v.inodes[s].size)
  {
    var ino := NewInode(i, dst, v.inodes[s].mode, now);
    CopiedInode(v, i, dst, v.inodes[s].mode, now);
    CopyDataIs(v, s, i, dst, now, ino, w);
    WrittenFills(v, Allocated(v, i), i, Clip(dst), ino, FileContents(v, s), now, w);
  }

  // ---- the commands ----

  lemma CreateKept(v: Vol, t: Ledger, n: CString, now: U64, w: Vol)
    requires Inv(v) && Represents(v, t) && Create(v, n, now).ok && w == Create(v, n, now).vol
    ensures Represents(w, Entered(t, n, now))
  {
    CreateFills(v, n, now, w);
    Absent(v, t, n);
    FilledTells(v, t, FreeSlot(v.inodes).value, n, now, w);
    SameTotals(v.sb, w.sb, t, Entered(t, n, now));
  }

  lemma DeleteKept(v: Vol, t: Ledger, n: CString, w: Vol)
    requires Inv(v) && Represents(v, t) && Delete(v, n).ok && w == Delete(v, n).vol
    ensures Represents(w, t.(files := t.files - {n}))
  {
    var i := Find(v.inodes, n).value;
    Present(v, t, n);
    TellsGone(v.inodes, t.files, i, v.inodes[i].(isUsed := 0), n);
  }

  lemma WrittenKept(v: Vol, t: Ledger, i: nat, n: CString, now: U64, w: Vol, len: nat)
    requires At(v, t, i, n) && Touched(v, w, i, n, now) && OneWrite(v.sb, w.sb, len)
    ensures Represents(w, Wrote(Modified(t, n, now), len))
  {
    TouchedTells(v, t, i, n, now, w);
    WroteTotals(v.sb, w.sb, t, Modified(t, n, now), len);
  }

  lemma WriteKept(v: Vol, t: Ledger, n: CString, content: seq<Byte>, now: U64, r: Volume.Outcome)
    requires Inv(v) && Represents(v, t) && r == Write(v, n, content, now) && r.ok
    requires Refines(r, Apply(Abs(v), WriteFile(n, content)))
    ensures Represents(r.vol, Wrote(Modified(t, n, now), |content|))
  {
    var i := Find(v.inodes, n).value;
    WriteTouches(v, n, content, now, r, i);
    Present(v, t, n);
    WrittenKept(v, t, i, n, now, r.vol, |content|);
  }

  lemma AppendKept(v: Vol, t: Ledger, n: CString, content: seq<Byte>, now: U64, r: Volume.Outcome) returns (len: nat)
    requires Inv(v) && Represents(v, t) && AppendDefined(v, n, content) && r == Append(v, n, content, now) && r.ok
    requires Refines(r, Apply(Abs(v), AppendFile(n, content)))
    ensures n in Abs(v).dir && len == |Abs(v).dir[n].contents| + |content|
    ensures Represents(r.vol, Wrote(Modified(t, n, now), len))
  {
    var i := Find(v.inodes, n).value;
    len := AppendTouches(v, n, content, now, r, i);
    Present(v, t, n);
    WrittenKept(v, t, i, n, now, r.vol, len);
  }

  lemma AppendDone(v: Vol, t: Ledger, m: Model, n: CString, content: seq<Byte>, now: U64, r: Volume.Outcome)
    requires Inv(v) && Represents(v, t) && m == Abs(v) && Defined(m, AppendFile(n, content)) && r.ok
    requires r == Step(v, AppendFile(n, content), now) && Refines(r, Apply(m, AppendFile(n, content)))
    ensures Represents(r.vol, Enter(t, m, AppendFile(n, content), now))
  {
    AppendHasResult(v, n, content);
    var len := AppendKept(v, t, n, content, now, r);
    AppendEnters(t, m, n, content, now, len);
  }

  lemma AppendEnters(t: Ledger, m: Model, n: CString, content: seq<Byte>, now: U64, len: nat)
    requires n in m.dir && len == |m.dir[n].contents| + |content|
    ensures Enter(t, m, AppendFile(n, content), now) == Wrote(Modified(t, n, now), len)
  {
  }

  lemma ReadIs(v: Vol, i: nat, now: U64, w: Vol)
    requires Shape(v) && i < |v.inodes| && w == ReadSlotOutcome(v, i, now).vol
    ensures w.inodes == v.inodes[i := v.inodes[i].(accessedAt := now)] && OneRead(v.sb, w.sb, v.inodes[i].size)
  {
  }

  lemma ReadSlotKept(v: Vol, t: Ledger, i: nat, n: CString, now: U64, w: Vol)
    requires At(v, t, i, n) && w.inodes == v.inodes[i := v.inodes[i].(accessedAt := now)]
    requires OneRead(v.sb, w.sb, v.inodes[i].size)
    ensures Represents(w, Fetched(Accessed(t, n, now), v.inodes[i].size))
  {
    TellsBears(v.inodes, t.files, i, n);
    TellsSameName(v.inodes, t.files, i, v.inodes[i].(accessedAt := now), n);
    FetchedTotals(v.sb, w.sb, t, Accessed(t, n, now), v.inodes[i].size);
  }

  lemma ReadKept(v: Vol, t: Ledger, n: CString, now: U64, w: Vol)
    requires Inv(v) && Represents(v, t) && Read(v, n, now).ok && w == Read(v, n, now).vol
    ensures n in Dir(v) && Represents(w, Fetched(Accessed(t, n, now), |Dir(v)[n].contents|))
  {
    var i := Find(v.inodes, n).value;
    Present(v, t, n);
    ReadIs(v, i, now, w);
    ReadSlotKept(v, t, i, n, now, w);
    ShownSize(v, i, n);
  }

  lemma RenameKept(v: Vol, t: Ledger, n: CString, to: CString, now: U64, w: Vol)
    requires Inv(v) && Represents(v, t) && Rename(v, n, to, now).ok && w == Rename(v, n, to, now).vol
    ensures Represents(w, Moved(t, n, to, now))
  {
    Present(v, t, n);
    Absent(v, t, to);
    var i := Find(v.inodes, n).value;
    InvLocal(v, i);
    var x := v.inodes[i].(name := CopyName(v.inodes[i].name, to), modifiedAt := now);
    CopyNameHolds(v.inodes[i].name, to);
    TellsBears(v.inodes, t.files, i, n);
    TellsMoved(v.inodes, t.files, i, x, n, to);
  }

  lemma TouchKept(v: Vol, t: Ledger, i: nat, n: CString, now: U64, w: Vol)
    requires At(v, t, i, n) && Touched(v, w, i, n, now) && Same(v.sb, w.sb)
    ensures Represents(w, Modified(t, n, now))
  {
    TouchedTells(v, t, i, n, now, w);
    SameTotals(v.sb, w.sb, t, Modified(t, n, now));
  }

  lemma TruncateKept(v: Vol, t: Ledger, n: CString, size: U32, now: U64, w: Vol)
    requires Inv(v) && Represents(v, t) && Truncate(v, n, size, now).ok && w == Truncate(v, n, size, now).vol
    ensures Represents(w, Modified(t, n, now))
  {
    Present(v, t, n);
    TouchKept(v, t, Find(v.inodes, n).value, n, now, w);
  }

  lemma ChmodKept(v: Vol, t: Ledger, n: CString, mode: bv16, now: U64, w: Vol)
    requires Inv(v) && Represents(v, t) && Chmod(v, n, mode, now).ok && w == Chmod(v, n, mode, now).vol
    ensures Represents(w, Modified(t, n, now))
  {
    Present(v, t, n);
    TouchKept(v, t, Find(v.inodes, n).value, n, now, w);
  }

  lemma FilledKept(v: Vol, t: Ledger, i: nat, n: CString, now: U64, w: Vol, len: nat)
    requires Free(v, t, n) && Filled(v, w, i, n, now)
    requires if len == 0 then Same(v.sb, w.sb) else OneWrite(v.sb, w.sb, len)
    ensures Represents(w, Copied(t, n, now, len))
  {
    FilledTells(v, t, i, n, now, w);
    if len == 0 {
      SameTotals(v.sb, w.sb, t, Entered(t, n, now));
    } else {
      WroteTotals(v.sb, w.sb, t, Entered(t, n, now), len);
    }
  }

  lemma CopyKept(v: Vol, t: Ledger, n: CString, dst: CString, now: U64, r: Volume.Outcome)
    requires Inv(v) && Represents(v, t) && r == Copy(v, n, dst, now) && r.ok && Find(v.inodes, Clip(dst)).None?
    ensures n in Dir(v) && Represents(r.vol, Copied(t, Clip(dst), now, |Dir(v)[n].contents|))
  {
    var s, i := Find(v.inodes, n).value, FreeSlot(v.inodes).value;
    ShownSize(v, s, n);
    Absent(v, t, Clip(dst));
    InvLocal(v, i);
    if v.inodes[s].size == 0 {
      EmptyCopyFills(v, s, i, dst, now, r.vol);
    } else {
      DataCopyFills(v, s, i, dst, now, r.vol);
    }
    FilledKept(v, t, i, Clip(dst), now, r.vol, v.inodes[s].size);
  }

  lemma RefusedWrite(v: Vol, n: CString, content: seq<Byte>, now: U64, r: Volume.Outcome)
    requires Inv(v) && r == Write(v, n, content, now) && !r.ok
    ensures r.vol == v
  {
  }

  lemma RefusedAppend(v: Vol, n: CString, content: seq<Byte>, now: U64, r: Volume.Outcome)
    requires Inv(v) && AppendDefined(v, n, content) && r == Append(v, n, content, now) && !r.ok
    ensures r.vol == v
  {
  }

  lemma RefusedNames(v: Vol, n: CString, to: CString, now: U64)
    requires Shape(v)
    ensures !Create(v, n, now).ok ==> Create(v, n, now).vol == v
    ensures !Delete(v, n).ok ==> Delete(v, n).vol == v
    ensures !Rename(v, n, to, now).ok ==> Rename(v, n, to, now).vol == v
  {
  }

  lemma RefusedRead(v: Vol, n: CString, now: U64)
    requires Shape(v)
    ensures !Read(v, n, now).ok ==> Read(v, n, now).vol == v
  {
  }

  lemma RefusedTruncate(v: Vol, n: CString, size: U32, now: U64)
    requires Shape(v)
    ensures !Truncate(v, n, size, now).ok ==> Truncate(v, n, size, now).vol == v
  {
  }

  lemma RefusedChmod(v: Vol, n: CString, mode: bv16, now: U64)
    requires Shape(v)
    ensures !Chmod(v, n, mode, now).ok ==> Chmod(v, n, mode, now).vol == v
  {
  }

  /** A refused command enters nothing, though a copy may have blanked a free slot. */
  lemma RefusedKept(v: Vol, t: Ledger, c: Command, now: U64, r: Volume.Outcome)
    requires Inv(v) && Represents(v, t) && Defined(Abs(v), c) && r == Step(v, c, now) && !r.ok
    ensures Represents(r.vol, t)
  {
    if c.WriteFile? {
      RefusedWrite(v, c.name, c.content, now, r);
    } else if c.AppendFile? {
      AppendHasResult(v, c.name, c.content);
      RefusedAppend(v, c.name, c.content, now, r);
    } else if c.CopyFile? {
      RefusedCopy(v, t, c.name, c.dst, now, r);
    } else if c.ReadFile? {
      RefusedRead(v, c.name, now);
    } else if c.TruncateFile? {
      RefusedTruncate(v, c.name, c.size, now);
    } else if c.ChangeMode? {
      RefusedChmod(v, c.name, c.mode, now);
    } else if c.RenameFile? {
      RefusedNames(v, c.name, c.newName, now);
    } else if c.CreateFile? || c.DeleteFile? {
      RefusedNames(v, c.name, c.name, now);
    }
  }

  lemma RefusedCopy(v: Vol, t: Ledger, n: CString, dst: CString, now: U64, r: Volume.Outcome)
    requires Inv(v) && Represents(v, t) && r == Copy(v, n, dst, now) && !r.ok
    ensures Represents(r.vol, t)
  {
    if Find(v.inodes, n).Some? && Find(v.inodes, dst).None? && v.sb.freeInodes != 0 && FreeSlot(v.inodes).Some? {
      var s, i := Find(v.inodes, n).value, FreeSlot(v.inodes).value;
      InvLocal(v, i);
      CopyRollback(v, s, i, dst, now);
      InvDistinct(v);
      TellsAfter(v.inodes, t.files, i, BlankInode(i).(isUsed := 0), t.files, t.files);
    }
  }

  /** A copy that is allowed and made has its name free. */
  lemma CopyNameFree(v: Vol, n: CString, dst: CString, r: Volume.Outcome)
    requires Inv(v) && Allowed(Abs(v), CopyFile(n, dst)) && r.ok && Refines(r, Apply(Abs(v), CopyFile(n, dst)))
    ensures Find(v.inodes, Clip(dst)).None?
  {
    DirFind(v, Clip(dst));
  }

  predicate MovesData(c: Command) { c.WriteFile? || c.AppendFile? || c.ReadFile? || c.CopyFile? }

  /** A successful command is entered. */
  lemma NamesKept(v: Vol, t: Ledger, m: Model, c: Command, now: U64, r: Volume.Outcome)
    requires Inv(v) && Represents(v, t) && m == Abs(v) && Defined(m, c) && r == Step(v, c, now) && r.ok
    requires !MovesData(c)
    ensures Represents(r.vol, Enter(t, m, c, now))
  {
    match c
    case CreateFile(n) => CreateKept(v, t, n, now, r.vol);
    case DeleteFile(n) => DeleteKept(v, t, n, r.vol);
    case RenameFile(n, to) => RenameKept(v, t, n, to, now, r.vol);
    case TruncateFile(n, size) => TruncateKept(v, t, n, size, now, r.vol);
    case ChangeMode(n, mode) => ChmodKept(v, t, n, mode, now, r.vol);
    case Check =>
    case Remount => RemountIdentity(v);
  }

  lemma DataKept(v: Vol, t: Ledger, m: Model, c: Command, now: U64, r: Volume.Outcome)
    requires Inv(v) && Represents(v, t) && m == Abs(v) && Allowed(m, c) && r == Step(v, c, now) && r.ok
    requires MovesData(c) && Refines(r, Apply(m, c))
    ensures Represents(r.vol, Enter(t, m, c, now))
  {
    match c
    case WriteFile(n, content) => WriteKept(v, t, n, content, now, r);
    case AppendFile(n, content) => AppendDone(v, t, m, n, content, now, r);
    case ReadFile(n) => ReadKept(v, t, n, now, r.vol);
    case CopyFile(n, dst) =>
      CopyNameFree(v, n, dst, r);
      CopyKept(v, t, n, dst, now, r);
  }

  /** One allowed command. */
  lemma StepKept(v: Vol, t: Ledger, c: Command, now: U64, r: Volume.Outcome)
    requires Inv(v) && Represents(v, t) && Allowed(Abs(v), c) && r == Step(v, c, now)
    ensures Refines(r, Apply(Abs(v), c)) && Represents(r.vol, Note(t, Abs(v), c, now))
  {
    StepRefines(v, c, now);
    if r.ok {
      if MovesData(c) {
        DataKept(v, t, Abs(v), c, now, r);
      } else {
        NamesKept(v, t, Abs(v), c, now, r);
      }
    } else {
      RefusedKept(v, t, c, now, r);
    }
  }

  // ---- runs ----

  /** Over every allowed run, what the inodes and the superblock record is what the ledger says. */
  lemma {:induction false} RunKept(v: Vol, t: Ledger, calls: seq<Call>)
    requires Inv(v) && Represents(v, t) && RunAllowed(Abs(v), calls)
    ensures Represents(Run(v, calls).0, NoteAll(t, Abs(v), calls))
    decreases |calls|
  {
    if calls != [] {
      var c := calls[0];
      var r := Step(v, c.cmd, c.now);
      StepKept(v, t, c.cmd, c.now, r);
      RunKept(r.vol, Note(t, Abs(v), c.cmd, c.now), calls[1..]);
    }
  }

  /** A formatted volume starts an empty ledger and bears the time of its format. */
  lemma LedgerStarts(totalSize: U32, blockSize: U32, now: U64)
    requires Layout(totalSize, blockSize, now).Formatted?
    ensures Represents(Fresh(Layout(totalSize, blockSize, now).sb), Ledger(map[], 0, 0, 0, 0))
    ensures Layout(totalSize, blockSize, now).sb.formattedAt == now
  {
  }
}
