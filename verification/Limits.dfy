/** Where the code misses its promise, with an input that shows it and the exact condition under which it keeps it. */
module Limits {
  import opened Types
  import opened Arith
  import opened Geometry
  import opened Volume
  import opened Steps
  import opened UserView
  import opened Refinement
  import opened Commands
  import opened FsckProof
  import opened Runs
  import opened Laws

  // ---- empty writes strand a block ----

  /** An accepted write whose resulting content is empty. */
  predicate IsEmptyWrite(m: Model, c: Command)
    requires 0 < m.blockSize
  {
    match c
    case WriteFile(n, content) => Apply(m, c).1.ok && content == []
    case AppendFile(n, content) => Apply(m, c).1.ok && n in m.dir && m.dir[n].contents + content == []
    case _ => false
  }

  ghost function EmptyWrites(m: Model, calls: seq<Call>): nat
    requires 0 < m.blockSize
    decreases |calls|
  {
    if calls == [] then 0 else
      (if IsEmptyWrite(m, calls[0].cmd) then 1 else 0) + EmptyWrites(Apply(m, calls[0].cmd).0, calls[1..])
  }

  lemma StrandedByOne(m: Model, c: Command)
    requires 0 < m.blockSize
    ensures Apply(m, c).0.stranded == m.stranded + if IsEmptyWrite(m, c) then 1 else 0
  {
  }

  lemma {:induction false} StrandedCounts(m: Model, calls: seq<Call>)
    requires 0 < m.blockSize
    ensures ModelRun(m, calls).0.stranded == m.stranded + EmptyWrites(m, calls)
    ensures ModelRun(m, calls).0.blockSize == m.blockSize
    decreases |calls|
  {
    if calls != [] {
      StrandedByOne(m, calls[0].cmd);
      StrandedCounts(Apply(m, calls[0].cmd).0, calls[1..]);
    }
  }

  /** The volume mounted after an accepted format. */
  ghost function Started(totalSize: U32, blockSize: U32, now: U64): (v: Vol)
    requires Layout(totalSize, blockSize, now).Formatted?
    ensures Inv(v) && Abs(v).dir == map[] && Abs(v).stranded == 0 && v.sb.blockSize == blockSize
  {
    FormatStarts(totalSize, blockSize, now);
    Fresh(Layout(totalSize, blockSize, now).sb)
  }

  /** From format and mount on, through any run: the used data blocks are those the files account for plus
      one for each empty write. fs_fsck reports nothing exactly when no empty write has been accepted and no
      file exceeds its wrapped size limit; below 2^28 bytes a block none does, and the mismatch is all it reports. */
  lemma FsckOverRuns(totalSize: U32, blockSize: U32, now: U64, calls: seq<Call>)
    requires Layout(totalSize, blockSize, now).Formatted?
    requires RunAllowed(Abs(Started(totalSize, blockSize, now)), calls)
    ensures var v := Started(totalSize, blockSize, now);
            var w := Run(v, calls).0;
            var n := EmptyWrites(Abs(v), calls);
            && Inv(w)
            && w.sb.dataBlocks - w.sb.freeBlocks == SumOwned(w.inodes, w.sb.blockSize) + n
            && (Fsck(w) == 0 <==> n == 0 && forall f | f in Dir(w) :: |Dir(w)[f].contents| <= Wrap(DIRECT * blockSize))
            && (blockSize < 0x1000_0000 ==> Fsck(w) == if n == 0 then 0 else 1)
  {
    var v := Started(totalSize, blockSize, now);
    RunRefines(v, calls);
    StrandedCounts(Abs(v), calls);
    FsckRefines(Run(v, calls).0);
    if blockSize < 0x1000_0000 {
      FsckSmallBlocks(Run(v, calls).0);
    }
  }

  lemma FsckSmallBlocks(w: Vol)
    requires Inv(w) && w.sb.blockSize < 0x1000_0000
    ensures Fsck(w) == if Stranded(w) == 0 then 0 else 1
  {
    forall i | 0 <= i < |w.inodes|
      ensures !Oversized(w.sb, w.inodes[i])
    {
      NoneOversized(w, i);
    }
    FsckExact(w);
  }

  /** With blocks of a multiple of 2^28 bytes the size test of fs_fsck compares with zero: any file with
      content is skipped and reported as a missing inode. */
  lemma FsckLargeBlocks(w: Vol)
    requires Inv(w) && w.sb.blockSize % 0x1000_0000 == 0
    ensures Fsck(w) == 0 <==> Stranded(w) == 0 && forall n | n in Dir(w) :: Dir(w)[n].contents == []
  {
    FsckRefines(w);
    WrapsToZero16(w.sb.blockSize);
  }

  lemma WrapsToZero16(blockSize: U32)
    requires blockSize % 0x1000_0000 == 0
    ensures Wrap(DIRECT * blockSize) == 0
  {
  }

  // ---- contents of nearly 4 GiB ----

  /** An accepted fs_write keeps the invariant exactly when the 32-bit length plus the block size does not wrap,
      and shows the content that was given exactly when the true length does not. */
  lemma WriteKeepsInvariant(v: Vol, name: CString, content: seq<Byte>, now: U64)
    requires Inv(v)
    ensures var r := Write(v, name, content, now);
            r.ok ==>
              && (Inv(r.vol) <==> Wrap(|content|) + v.sb.blockSize <= TWO32)
              && (Shows(r.vol, name, content) <==> |content| + v.sb.blockSize <= TWO32)
  {
    Presence(v, name);
    var r := Write(v, name, content, now);
    if r.ok {
      var i := Find(v.inodes, name).value;
      WriteIsRewrite(v, name, i, content, now);
      RewriteShows(v, name, i, content, Counted(content), now, r);
    }
  }

  /** The same of fs_append, with the size the file has. */
  lemma AppendKeepsInvariant(v: Vol, name: CString, content: seq<Byte>, now: U64)
    requires Inv(v) && AppendDefined(v, name, content)
    ensures var r := Append(v, name, content, now);
            r.ok ==>
              && name in Abs(v).dir
              && var before := Abs(v).dir[name].contents;
                 && (Inv(r.vol) <==> |before| + Wrap(|content|) + v.sb.blockSize <= TWO32)
                 && (Shows(r.vol, name, before + content) <==> |before| + |content| + v.sb.blockSize <= TWO32)
  {
    Presence(v, name);
    var r := Append(v, name, content, now);
    if r.ok {
      var i := Find(v.inodes, name).value;
      var stored, meant := AppendStores(v, name, i, content, now);
      RewriteShows(v, name, i, meant, stored, now, r);
    }
  }

  // ---- names ----

  /** fs_copy does not check the length of the new name. The directory stays a map exactly when the
      first 31 bytes of that name are not taken. */
  lemma CopyKeepsInvariant(v: Vol, src: CString, dst: CString, now: U64)
    requires Inv(v)
    ensures Copy(v, src, dst, now).ok ==> (Inv(Copy(v, src, dst, now).vol) <==> Clip(dst) !in Abs(v).dir)
  {
    if Copy(v, src, dst, now).ok {
      CopyByName(v, src, dst, now, Copy(v, src, dst, now));
    }
  }

  lemma ShortName(ino: Inode)
    requires ino.name[NAME_LEN - 1] == 0
    ensures |NameOf(ino)| < NAME_LEN
  {
  }

  lemma SlotFacts(v: Vol, i: nat)
    requires Inv(v) && i < |v.inodes|
    ensures SlotOk(v.inodes[i], i)
  {
  }

  lemma NamesShort(v: Vol, n: CString)
    requires Inv(v) && n in Abs(v).dir
    ensures |n| < NAME_LEN
  {
    Entry(v, n);
    SlotFacts(v, Find(v.inodes, n).value);
    ShortName(v.inodes[Find(v.inodes, n).value]);
  }

  /** The copy bears the name it was given exactly when that name has fewer than 32 bytes. */
  lemma CopyBearsName(v: Vol, src: CString, dst: CString, now: U64)
    requires Inv(v) && Clip(dst) !in Abs(v).dir
    ensures Inv(Copy(v, src, dst, now).vol)
    ensures Copy(v, src, dst, now).ok ==>
              (dst in Abs(Copy(v, src, dst, now).vol).dir <==> |dst| < NAME_LEN)
  {
    CopyRefines(v, src, dst, now);
    if Copy(v, src, dst, now).ok {
      CopyByName(v, src, dst, now, Copy(v, src, dst, now));
    }
    if dst in Abs(Copy(v, src, dst, now).vol).dir {
      NamesShort(Copy(v, src, dst, now).vol, dst);
    }
  }

  // ---- inputs that show it ----

  lemma SampleQuotients()
    ensures Quot(102400, 512) == 200 && Ceil(200, 8 * 512) == 1 && Times(20, 3) == 60
  {
    AreTheOperators(102400, 512);
    AreTheOperators(200 + 4096 - 1, 4096);
    TimesIsProduct(20, 3);
  }

  /** The volume of `mini_fs format 102400 512`: 178 free blocks and 60 free inodes. */
  lemma SampleVolume(totalSize: U32, blockSize: U32, now: U64) returns (v: Vol)
    requires totalSize == 102400 && blockSize == 512
    ensures Layout(totalSize, blockSize, now).Formatted? && v == Fresh(Layout(totalSize, blockSize, now).sb)
    ensures Inv(v) && Abs(v) == Model(blockSize, map[], 178, 60, 0)
  {
    SampleQuotients();
    LayoutNumbers(totalSize, blockSize, now);
    FormatStarts(totalSize, blockSize, now);
    v := Fresh(Layout(totalSize, blockSize, now).sb);
  }

  function Letters(n: nat): (s: CString)
    ensures |s| == n
  {
    seq(n, _ => 0x61)
  }

  /** One file created on an empty volume. */
  lemma OneFile(v0: Vol, n: CString, now: U64)
    requires Inv(v0) && Abs(v0).dir == map[] && Abs(v0).freeInodes > 1 && |n| < NAME_LEN
    ensures var v := Create(v0, n, now).vol;
            && Inv(v) && Abs(v).dir == map[n := File([], REGULAR_FILE_MODE)] && v.sb.freeInodes > 0
            && v.sb.blockSize == v0.sb.blockSize && v.sb.freeBlocks == v0.sb.freeBlocks
            && Find(v.inodes, n).Some? && Local(v, Find(v.inodes, n).value)
            && v.inodes[Find(v.inodes, n).value].size == 0
  {
    CreateRefines(v0, n, now);
    var v := Create(v0, n, now).vol;
    var m := MakeFile(Abs(v0), n).0;
    assert m.dir == map[n := File([], REGULAR_FILE_MODE)];
    assert Abs(v) == m;
    Entry(v, n);
    assert Dir(v)[n].contents == [];
  }

  lemma EmptyCopySucceeds(v: Vol, src: CString, dst: CString, now: U64)
    requires Inv(v) && v.sb.freeInodes > 0 && Find(v.inodes, dst).None?
    requires Find(v.inodes, src).Some? && v.inodes[Find(v.inodes, src).value].size == 0
    ensures Copy(v, src, dst, now).ok
  {
    SlotAvailable(v);
  }

  /** On an empty volume, copying an empty file named by 31 letters to 32 letters makes two files of
      the same name. */
  lemma CopyDuplicatesName(v0: Vol, n: CString, d: CString)
    requires Inv(v0) && Abs(v0).dir == map[] && Abs(v0).freeInodes > 1
    requires n == Letters(31) && d == Letters(32)
    ensures var v := Create(v0, n, 0).vol;
            Inv(v) && Copy(v, n, d, 0).ok && !Inv(Copy(v, n, d, 0).vol)
  {
    OneFile(v0, n, 0);
    var v := Create(v0, n, 0).vol;
    assert Clip(d) == n;
    DirFind(v, d);
    EmptyCopySucceeds(v, n, d, 0);
    CopyKeepsInvariant(v, n, d, 0);
  }

  lemma HugeNeedsOne(len: U32)
    requires len == 0xFFFF_FE01
    ensures BlocksNeeded(len, 512) == 1
  {
    assert len + 512 - 1 == TWO32;
    assert Wrap(TWO32) == 0;
  }

  lemma OneBlockAccepted(v: Vol, i: nat, content: seq<Byte>, now: U64)
    requires Local(v, i) && IsUsed(v.inodes[i]) && |content| < TWO32
    requires BlocksNeeded(|content|, v.sb.blockSize) == 1 <= v.sb.freeBlocks
    ensures Rewrite(v, i, content, now).ok
  {
  }

  /** A good volume with one empty file, a free block and nothing stranded. */
  ghost predicate OneEmpty(v: Vol, n: CString, blockSize: U32) {
    && Inv(v) && v.sb.blockSize == blockSize && v.sb.freeBlocks > 0 && Stranded(v) == 0
    && Abs(v).dir == map[n := File([], REGULAR_FILE_MODE)]
  }

  lemma OneEmptyMade(v0: Vol, n: CString, blockSize: U32, v: Vol)
    requires Inv(v0) && Abs(v0).dir == map[] && Abs(v0).freeInodes > 1 && |n| < NAME_LEN
    requires v0.sb.blockSize == blockSize && v0.sb.freeBlocks > 0 && Abs(v0).stranded == 0
    requires v == Create(v0, n, 0).vol
    ensures OneEmpty(v, n, blockSize)
  {
    OneFile(v0, n, 0);
    CreateRefines(v0, n, 0);
  }

  /** Content of at most one block, as the code counts it, is accepted there. */
  lemma OneEmptyAccepts(v: Vol, n: CString, content: seq<Byte>, r: Outcome)
    requires OneEmpty(v, n, v.sb.blockSize) && r == Write(v, n, content, 0)
    requires BlocksNeeded(Wrap(|content|), v.sb.blockSize) == 1
    ensures r.ok && (Inv(r.vol) <==> Wrap(|content|) + v.sb.blockSize <= TWO32)
    ensures Shows(r.vol, n, Counted(content)) <==> Wrap(|content|) + v.sb.blockSize <= TWO32
  {
    Presence(v, n);
    assert n in Abs(v).dir;
    var i := Find(v.inodes, n).value;
    WriteIsRewrite(v, n, i, content, 0);
    OneBlockAccepted(v, i, Counted(content), 0);
    RewriteShows(v, n, i, Counted(content), Counted(content), 0, r);
  }

  lemma SmallNeedsOne(len: U32, bs: U32)
    requires len <= bs && 0 < bs < 0x4000_0000
    ensures BlocksNeeded(len, bs) == 1
  {
    if len > 0 {
      QuotOne(len, bs);
    }
  }

  /** On the sample volume, one write of 2^32 - 511 bytes is accepted into a single block and breaks
      the invariant. */
  lemma HugeWriteAccepted(v0: Vol, n: CString, content: seq<Byte>)
    requires Inv(v0) && Abs(v0) == Model(512, map[], 178, 60, 0)
    requires n == Letters(1) && |content| == 0xFFFF_FE01
    ensures var v := Create(v0, n, 0).vol;
            Inv(v) && Write(v, n, content, 0).ok && !Inv(Write(v, n, content, 0).vol)
  {
    var v := Create(v0, n, 0).vol;
    OneEmptyMade(v0, n, 512, v);
    HugeNeedsOne(|content|);
    OneEmptyAccepts(v, n, content, Write(v, n, content, 0));
  }

  /** On the same volume, a write of 2^32 + 5 bytes is accepted and keeps the invariant, but stores 5 bytes: the
      file does not show what was written. */
  lemma LongWriteCut(v0: Vol, n: CString, content: seq<Byte>, v: Vol)
    requires Inv(v0) && Abs(v0) == Model(512, map[], 178, 60, 0)
    requires n == Letters(1) && |content| == TWO32 + 5 && v == Create(v0, n, 0).vol
    ensures Inv(v)
    ensures var r := Write(v, n, content, 0);
            r.ok && Shows(r.vol, n, content[..5]) && !Shows(r.vol, n, content)
    ensures !Allowed(Abs(v), WriteFile(n, content))
  {
    OneEmptyMade(v0, n, 512, v);
    var r := Write(v, n, content, 0);
    FiveLeft(content);
    SmallNeedsOne(5, 512);
    OneEmptyAccepts(v, n, content, r);
    LongNotAllowed(Abs(v), n, content);
  }

  lemma FiveLeft(content: seq<Byte>)
    requires |content| == TWO32 + 5
    ensures Wrap(|content|) == 5 && Counted(content) == content[..5] && content[..5] != content
  {
  }

  lemma LongNotAllowed(m: Model, n: CString, content: seq<Byte>)
    requires m.blockSize == 512 && m.freeBlocks > 0 && n in m.dir && |content| == TWO32 + 5
    ensures !Allowed(m, WriteFile(n, content))
  {
    SmallNeedsOne(5, 512);
  }

  /** On the same volume, an empty write is accepted, and fs_fsck reports it: the sum of FsckOverRuns does grow. */
  lemma EmptyWriteReported(v0: Vol, n: CString, v: Vol)
    requires Inv(v0) && Abs(v0) == Model(512, map[], 178, 60, 0)
    requires n == Letters(1) && v == Create(v0, n, 0).vol
    ensures Inv(v) && Inv(Write(v, n, [], 0).vol)
    ensures Write(v, n, [], 0).ok && IsEmptyWrite(Abs(v), WriteFile(n, []))
    ensures Fsck(v) == 0 && Fsck(Write(v, n, [], 0).vol) == 1
  {
    OneEmptyMade(v0, n, 512, v);
    var r := Write(v, n, [], 0);
    SmallNeedsOne(0, 512);
    OneEmptyAccepts(v, n, [], r);
    EmptyStrands(v, n, r);
    FsckSmallBlocks(v);
    FsckSmallBlocks(r.vol);
  }

  lemma EmptyStrands(v: Vol, n: CString, r: Outcome)
    requires Inv(v) && r == Write(v, n, [], 0) && r.ok && v.sb.blockSize == 512
    ensures Inv(r.vol) && Stranded(r.vol) == Stranded(v) + 1 && IsEmptyWrite(Abs(v), WriteFile(n, []))
  {
    WriteRefines(v, n, [], 0);
    StrandedByOne(Abs(v), WriteFile(n, []));
  }

  lemma LargeQuotients(totalSize: U32, blockSize: U32)
    requires totalSize == 0xFFFF_FFFF && blockSize == 0x1000_0000
    ensures Quot(totalSize, blockSize) == 15 && Ceil(15, 8 * blockSize) == 1
    ensures Times(1, blockSize / INODE_SIZE) == blockSize / INODE_SIZE
  {
    AreTheOperators(totalSize, blockSize);
    CeilLeast(15, 8 * blockSize, 1);
    CeilBounds(15, 8 * blockSize);
    TimesOne(8 * blockSize);
    TimesOne(blockSize / INODE_SIZE);
  }

  /** A disk of 2^32 - 1 bytes can be formatted with blocks of 2^28 bytes: 12 data blocks. */
  lemma LargeVolume(totalSize: U32, blockSize: U32, now: U64) returns (v: Vol)
    requires totalSize == 0xFFFF_FFFF && blockSize == 0x1000_0000
    ensures Layout(totalSize, blockSize, now).Formatted? && v == Started(totalSize, blockSize, now)
    ensures Inv(v) && Abs(v) == Model(blockSize, map[], 12, blockSize / INODE_SIZE, 0)
  {
    LargeQuotients(totalSize, blockSize);
    LayoutNumbers(totalSize, blockSize, now);
    FormatStarts(totalSize, blockSize, now);
    v := Started(totalSize, blockSize, now);
  }

  lemma ContentReported(w: Vol, n: CString, content: seq<Byte>)
    requires Shows(w, n, content) && content != [] && w.sb.blockSize == 0x1000_0000
    ensures Fsck(w) != 0
  {
    FsckLargeBlocks(w);
    assert Dir(w)[n].contents != [];
  }

  /** There, one byte in one file is enough for fs_fsck to report errors, although nothing is stranded. */
  lemma LargeBlocksReported(v0: Vol, blockSize: U32, n: CString, content: seq<Byte>, v: Vol)
    requires blockSize == 0x1000_0000 && Inv(v0) && Abs(v0) == Model(blockSize, map[], 12, blockSize / INODE_SIZE, 0)
    requires n == Letters(1) && |content| == 1 && v == Create(v0, n, 0).vol
    ensures Inv(v) && Inv(Write(v, n, content, 0).vol)
    ensures Write(v, n, content, 0).ok && Shows(Write(v, n, content, 0).vol, n, content)
    ensures Stranded(Write(v, n, content, 0).vol) == 0 && Fsck(Write(v, n, content, 0).vol) != 0
  {
    OneEmptyMade(v0, n, blockSize, v);
    var r := Write(v, n, content, 0);
    SmallNeedsOne(1, blockSize);
    OneEmptyAccepts(v, n, content, r);
    ByteStrandsNothing(v, n, content, r);
    ContentReported(r.vol, n, content);
  }

  lemma ByteStrandsNothing(v: Vol, n: CString, content: seq<Byte>, r: Outcome)
    requires Inv(v) && r == Write(v, n, content, 0) && r.ok && v.sb.blockSize == 0x1000_0000 && |content| == 1
    ensures Inv(r.vol) && Stranded(r.vol) == Stranded(v) && r.vol.sb.blockSize == v.sb.blockSize
  {
    WriteRefines(v, n, content, 0);
    StrandedByOne(Abs(v), WriteFile(n, content));
  }
}
