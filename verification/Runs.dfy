/** Whole runs: from format and mount, any allowed sequence of commands simulates the model. */
module Runs {
  import opened Types
  import opened Geometry
  import opened FreeList
  import opened Volume
  import opened UserView
  import opened Refinement
  import opened Commands
  import opened FsckProof
  import opened Loops

  // ---- the start ----

  /** The volume mounted after fs_format: metadata marked, table and data region zeroed. */
  function Fresh(sb: Superblock): Vol {
    Vol(sb, sb,
        seq(sb.totalBlocks, b => b < sb.dataStart),
        seq(sb.maxInodes, _ => ZeroInode()),
        map b | b in Range(sb.dataStart, sb.totalBlocks) :: Zeros(sb.blockSize))
  }

  /** What fs_format has written before its marking loop. */
  function Unformatted(sb: Superblock): Vol {
    Fresh(sb).(used := seq(sb.totalBlocks, b => false))
  }

  /** After n iterations of the marking loop; its in-memory counter goes down and may wrap. */
  function Marked(v: Vol, n: nat): Vol {
    v.(used := seq(|v.used|, b requires 0 <= b < |v.used| => b < n || v.used[b]),
       sb := v.sb.(freeBlocks := Wrap(v.sb.freeBlocks - n)))
  }

  lemma MarkedNone(v: Vol)
    ensures Marked(v, 0) == v
  {
  }

  /** The marking loop allocates the metadata blocks in order. */
  lemma MarkedNext(v: Vol, n: nat)
    requires n < |v.used| && forall b :: 0 <= b < |v.used| ==> !v.used[b]
    ensures Clear(Marked(v, n).used) != [] && Clear(Marked(v, n).used)[0] == n
    ensures BlockTaken(Marked(v, n), n) == Marked(v, n + 1)
  {
    FirstClear(Marked(v, n).used, n);
    assert Marked(v, n).used[n := true] == Marked(v, n + 1).used;
    OneMoreCounted(v.sb.freeBlocks - n);
  }

  /** The marking loop has set exactly [0, data_start), and mounting discards its counter: the
      mounted volume is the fresh one. */
  lemma FormattedThenMounted(sb: Superblock)
    requires Geo(sb) && sb.freeBlocks == sb.dataBlocks && sb.freeInodes == sb.maxInodes
    ensures var f := Marked(Unformatted(sb), sb.dataStart);
            && f.(sb := f.dsb) == Fresh(sb)
            && f.sb.freeBlocks == Wrap(sb.dataBlocks - sb.dataStart) && !Inv(f)
  {
    var f := Marked(Unformatted(sb), sb.dataStart);
    assert f.used == Fresh(sb).used;
  }

  lemma {:induction false} AllUnused(inodes: seq<Inode>, bs: nat)
    requires 0 < bs && forall i :: 0 <= i < |inodes| ==> inodes[i].isUsed == 0
    ensures CountUnused(inodes) == |inodes| && SumOwned(inodes, bs) == 0
  {
    if inodes != [] {
      AllUnused(inodes[..|inodes| - 1], bs);
    }
  }

  lemma UnformattedBlank(sb: Superblock)
    requires Geo(sb)
    ensures Blank(Unformatted(sb))
  {
  }

  lemma FreshInv(sb: Superblock)
    requires Geo(sb) && sb.freeBlocks == sb.dataBlocks && sb.freeInodes == sb.maxInodes
    ensures Inv(Fresh(sb))
  {
    var v := Fresh(sb);
    assert forall b | b in v.data :: v.data[b] == Zeros(sb.blockSize);
    ClearSuffix(v.used, sb.dataStart);
    AllUnused(v.inodes, sb.blockSize);
  }

  /** Every accepted format, once mounted, is the empty directory with all its data blocks free. */
  lemma FormatStarts(totalSize: U32, blockSize: U32, now: U64)
    requires Layout(totalSize, blockSize, now).Formatted?
    ensures var sb := Layout(totalSize, blockSize, now).sb;
            && Inv(Fresh(sb))
            && Abs(Fresh(sb)) == Model(blockSize, map[], sb.dataBlocks, sb.maxInodes, 0)
  {
    FormatTiles(totalSize, blockSize, now);
    var sb := Layout(totalSize, blockSize, now).sb;
    FreshInv(sb);
    var v := Fresh(sb);
    AllUnused(v.inodes, sb.blockSize);
    forall n: CString
      ensures n !in Dir(v)
    {
      DirFind(v, n);
    }
    assert Dir(v) == map[];
  }

  // ---- one command ----

  /** fs_unmount then fs_mount: the superblock goes to block 0 and comes back. */
  function Remounted(v: Vol): Vol {
    var u := Flushed(v);
    u.(sb := u.dsb)
  }

  lemma AppendHasResult(v: Vol, n: CString, content: seq<Byte>)
    requires Inv(v) && Defined(Abs(v), AppendFile(n, content))
    ensures AppendDefined(v, n, content)
  {
    Entry(v, n);
    AppendAllowed(v, n, content);
  }

  function Step(v: Vol, c: Command, now: U64): Outcome
    requires Inv(v) && Defined(Abs(v), c)
  {
    match c
    case CreateFile(n) => Create(v, n, now)
    case DeleteFile(n) => Delete(v, n)
    case WriteFile(n, content) => Write(v, n, content, now)
    case AppendFile(n, content) =>
      AppendHasResult(v, n, content);
      Append(v, n, content, now)
    case ReadFile(n) => Read(v, n, now)
    case RenameFile(n, to) => Rename(v, n, to, now)
    case CopyFile(n, dst) => Copy(v, n, dst, now)
    case TruncateFile(n, size) => Truncate(v, n, size, now)
    case ChangeMode(n, mode) => Chmod(v, n, mode, now)
    case Check => Outcome(v, Fsck(v) == 0, [])
    case Remount => Done(Remounted(v))
  }

  /** One command on blocks, bitmap, inodes and superblock keeps the invariant and does what the model says,
      exactly when it is allowed. */
  lemma StepRefines(v: Vol, c: Command, now: U64)
    requires Inv(v) && Defined(Abs(v), c)
    ensures Refines(Step(v, c, now), Apply(Abs(v), c)) <==> Allowed(Abs(v), c)
  {
    match c
    case CreateFile(n) => CreateRefines(v, n, now);
    case DeleteFile(n) => DeleteRefines(v, n);
    case WriteFile(n, content) => WriteRefines(v, n, content, now);
    case AppendFile(n, content) => AppendRefines(v, n, content, now);
    case ReadFile(n) => ReadRefines(v, n, now);
    case RenameFile(n, to) => RenameRefines(v, n, to, now);
    case CopyFile(n, dst) => CopyRefines(v, n, dst, now);
    case TruncateFile(n, size) => TruncateRefines(v, n, size, now);
    case ChangeMode(n, mode) => ChmodRefines(v, n, mode, now);
    case Check => FsckRefines(v);
    case Remount => RemountIdentity(v);
  }

  /** Everything is written through: unmounting and mounting again, or just mounting again,
      reproduces the state. */
  lemma RemountIdentity(v: Vol)
    requires Inv(v)
    ensures Remounted(v) == v && v.(sb := v.dsb) == v
  {
  }

  // ---- runs ----

  datatype Call = Call(cmd: Command, now: U64)

  /** Every call of the run is allowed where the model says it is made. */
  ghost predicate RunAllowed(m: Model, calls: seq<Call>)
    requires 0 < m.blockSize
    decreases |calls|
  {
    calls == [] || (Allowed(m, calls[0].cmd) && RunAllowed(Apply(m, calls[0].cmd).0, calls[1..]))
  }

  ghost function ModelRun(m: Model, calls: seq<Call>): (r: (Model, seq<Reply>))
    requires 0 < m.blockSize
    decreases |calls|
  {
    if calls == [] then (m, []) else
      var (m1, reply) := Apply(m, calls[0].cmd);
      var (m2, replies) := ModelRun(m1, calls[1..]);
      (m2, [reply] + replies)
  }

  /** A model run is part way: so many replies given, the rest still to come. */
  ghost predicate SplitRun(m: Model, calls: seq<Call>, now: Model, rest: seq<Call>, replies: seq<Reply>)
    requires 0 < m.blockSize && 0 < now.blockSize
  {
    ModelRun(m, calls) == (ModelRun(now, rest).0, replies + ModelRun(now, rest).1)
  }

  lemma SplitStart(m: Model, calls: seq<Call>)
    requires 0 < m.blockSize
    ensures SplitRun(m, calls, m, calls, [])
  {
    assert [] + ModelRun(m, calls).1 == ModelRun(m, calls).1;
  }

  lemma SplitEnd(m: Model, calls: seq<Call>, now: Model, rest: seq<Call>, replies: seq<Reply>)
    requires 0 < m.blockSize && 0 < now.blockSize && rest == []
    requires SplitRun(m, calls, now, rest, replies)
    ensures ModelRun(m, calls) == (now, replies)
  {
    assert replies + [] == replies;
  }

  lemma SplitNext(m: Model, calls: seq<Call>, now: Model, rest: seq<Call>, replies: seq<Reply>)
    requires 0 < m.blockSize && 0 < now.blockSize && rest != []
    requires SplitRun(m, calls, now, rest, replies)
    ensures var (next, reply) := Apply(now, rest[0].cmd);
            next.blockSize == now.blockSize && SplitRun(m, calls, next, rest[1..], replies + [reply])
  {
    var (next, reply) := Apply(now, rest[0].cmd);
    assert replies + ([reply] + ModelRun(next, rest[1..]).1) == (replies + [reply]) + ModelRun(next, rest[1..]).1;
  }

  ghost function Run(v: Vol, calls: seq<Call>): (r: (Vol, seq<Reply>))
    requires Inv(v) && RunAllowed(Abs(v), calls)
    decreases |calls|
  {
    if calls == [] then (v, []) else
      StepRefines(v, calls[0].cmd, calls[0].now);
      var o := Step(v, calls[0].cmd, calls[0].now);
      var (w, replies) := Run(o.vol, calls[1..]);
      (w, [Reply(o.ok, o.output)] + replies)
  }

  /** Every call of the run has a defined result, keeps the invariant and does what the model says. */
  ghost predicate RunRight(v: Vol, calls: seq<Call>)
    requires Inv(v)
    decreases |calls|
  {
    calls == [] ||
    (var c := calls[0];
     && Defined(Abs(v), c.cmd)
     && Refines(Step(v, c.cmd, c.now), Apply(Abs(v), c.cmd))
     && RunRight(Step(v, c.cmd, c.now).vol, calls[1..]))
  }

  /** The allowed runs are exactly those the code gets right. */
  lemma {:induction false} RunExact(v: Vol, calls: seq<Call>)
    requires Inv(v)
    ensures RunRight(v, calls) <==> RunAllowed(Abs(v), calls)
    decreases |calls|
  {
    if calls != [] {
      var c := calls[0];
      if Defined(Abs(v), c.cmd) {
        StepRefines(v, c.cmd, c.now);
        if Allowed(Abs(v), c.cmd) {
          RunExact(Step(v, c.cmd, c.now).vol, calls[1..]);
        }
      }
    }
  }

  /** The refinement over all runs: final state and every reply are the model's. */
  lemma {:induction false} RunRefines(v: Vol, calls: seq<Call>)
    requires Inv(v) && RunAllowed(Abs(v), calls)
    ensures Inv(Run(v, calls).0)
    ensures ModelRun(Abs(v), calls) == (Abs(Run(v, calls).0), Run(v, calls).1)
    decreases |calls|
  {
    if calls != [] {
      var c := calls[0];
      StepRefines(v, c.cmd, c.now);
      RunRefines(Step(v, c.cmd, c.now).vol, calls[1..]);
    }
  }
}
