/** The accounting of the web simulator, ui/app.js: a list of files and running counters. */
module UiSim {
  import opened Types
  import opened Arith
  import opened FreeList
  import Geometry

  datatype UiFile = UiFile(name: string, inode: nat, content: string, mode: bv16, blocks: seq<nat>)

  datatype Ui = Ui(
    blockSize: nat, totalBlocks: nat, dataStart: nat, dataBlocks: nat, maxInodes: nat,
    files: seq<UiFile>, nextInode: nat, usedDataBlocks: int, freeBlocks: int, freeInodes: int)

  datatype Outcome = Outcome(ui: Ui, ok: bool)

  // ---- lookups ----

  /** FS.files.find(f => f.name === name) */
  function FindFile(files: seq<UiFile>, name: string): (r: Option<nat>)
    ensures r.Some? ==> r.value < |files| && files[r.value].name == name
                        && forall i :: 0 <= i < r.value ==> files[i].name != name
    ensures r.None? ==> forall i :: 0 <= i < |files| ==> files[i].name != name
  {
    if files == [] then None else
      var n := |files| - 1;
      var r := FindFile(files[..n], name);
      if r.Some? then r else if files[n].name == name then Some(n) else None
  }

  lemma FoundFirst(files: seq<UiFile>, name: string, r: Option<nat>)
    requires r.Some? ==> r.value < |files| && files[r.value].name == name
    requires forall i :: 0 <= i < (if r.Some? then r.value else |files|) ==> files[i].name != name
    ensures FindFile(files, name) == r
  {
  }

  function SumBlocks(files: seq<UiFile>): nat {
    if files == [] then 0 else SumBlocks(files[..|files| - 1]) + |files[|files| - 1].blocks|
  }

  // ---- operations ----

  /** Math.max(1, Math.ceil(content.length / bs)) */
  function Needed(len: nat, bs: nat): nat
    requires 0 < bs
  {
    Max(1, Ceil(len, bs))
  }

  /** The block numbers the simulator hands out: consecutive ones from dataStart + usedDataBlocks. */
  function Consecutive(from: int, n: nat): (b: seq<nat>)
    requires 0 <= from
    ensures |b| == n && forall k :: 0 <= k < n ==> b[k] == from + k
  {
    seq(n, k requires 0 <= k < n => from + k)
  }

  /** _doWrite on files[i]. */
  function DoWrite(u: Ui, i: nat, content: string): Outcome
    requires Inv(u) && i < |u.files|
  {
    var f := u.files[i];
    var need := Needed(|content|, u.blockSize);
    if need > 16 || need > u.freeBlocks + |f.blocks| then Outcome(u, false) else
    SumUpdate(u.files, i, f);
    var used := u.usedDataBlocks - |f.blocks|;
    Outcome(u.(usedDataBlocks := used + need,
               freeBlocks := u.freeBlocks + |f.blocks| - need,
               files := u.files[i := f.(content := content, blocks := Consecutive(u.dataStart + used, need))]),
            true)
  }

  function Create(u: Ui, name: string): Outcome {
    if |name| >= 32 || FindFile(u.files, name).Some? || u.freeInodes <= 0 then Outcome(u, false)
    else Outcome(u.(files := u.files + [UiFile(name, u.nextInode, "", 0x81A4, [])],
                    nextInode := u.nextInode + 1, freeInodes := u.freeInodes - 1), true)
  }

  function Delete(u: Ui, name: string): Outcome {
    match FindFile(u.files, name)
    case None => Outcome(u, false)
    case Some(i) =>
      var n := |u.files[i].blocks|;
      Outcome(u.(usedDataBlocks := u.usedDataBlocks - n, freeBlocks := u.freeBlocks + n,
                 freeInodes := u.freeInodes + 1, files := u.files[..i] + u.files[i + 1..]), true)
  }

  function Write(u: Ui, name: string, content: string): Outcome
    requires Inv(u)
  {
    match FindFile(u.files, name)
    case None => Outcome(u, false)
    case Some(i) => DoWrite(u, i, content)
  }

  function Append(u: Ui, name: string, data: string): Outcome
    requires Inv(u)
  {
    match FindFile(u.files, name)
    case None => Outcome(u, false)
    case Some(i) => DoWrite(u, i, u.files[i].content + data)
  }

  function Rename(u: Ui, name: string, to: string): Outcome {
    match FindFile(u.files, name)
    case None => Outcome(u, false)
    case Some(i) =>
      if FindFile(u.files, to).Some? || |to| >= 32 then Outcome(u, false)
      else Outcome(u.(files := u.files[i := u.files[i].(name := to)]), true)
  }

  /** The state after the new file has been pushed. */
  function Pushed(u: Ui, src: nat, dst: string): Ui
    requires src < |u.files|
  {
    u.(files := u.files + [UiFile(dst, u.nextInode, "", u.files[src].mode, [])],
       nextInode := u.nextInode + 1, freeInodes := u.freeInodes - 1)
  }

  /** The state after a failed copy has popped the new file again. */
  function Dropped(u: Ui): Ui
    requires u.files != []
  {
    u.(files := u.files[..|u.files| - 1], freeInodes := u.freeInodes + 1)
  }

  function Copy(u: Ui, src: string, dst: string): Outcome
    requires Inv(u)
  {
    match FindFile(u.files, src)
    case None => Outcome(u, false)
    case Some(s) =>
      if FindFile(u.files, dst).Some? || u.freeInodes <= 0 then Outcome(u, false) else
      var p := Pushed(u, s, dst);
      PushedInv(u, s, dst);
      if |u.files[s].content| == 0 then Outcome(p, true) else
      var r := DoWrite(p, |u.files|, u.files[s].content);
      if r.ok then r
      else Outcome(Dropped(r.ui), false)
  }

  function Chmod(u: Ui, name: string, mode: bv16): Outcome {
    match FindFile(u.files, name)
    case None => Outcome(u, false)
    case Some(i) =>
      var m := u.files[i].mode;
      Outcome(u.(files := u.files[i := u.files[i].(mode := (m & 0xF000) | (mode & 0x0FFF))]), true)
  }

  /** content.slice(0, n) */
  function Slice(content: string, n: int): string {
    if n >= |content| then content else if n >= 0 then content[..n]
    else if |content| + n <= 0 then "" else content[..|content| + n]
  }

  function Truncate(u: Ui, name: string, newSize: int): Outcome
    requires Inv(u)
  {
    match FindFile(u.files, name)
    case None => Outcome(u, false)
    case Some(i) =>
      if newSize > |u.files[i].content| then Outcome(u, false)
      else DoWrite(u, i, Slice(u.files[i].content, newSize))
  }

  // ---- the invariant ----

  /** The block numbers of a file: in the data region, in ascending order. */
  ghost predicate InRange(u: Ui, f: UiFile) {
    && (forall k :: 0 <= k < |f.blocks| ==> u.dataStart <= f.blocks[k] < u.totalBlocks)
    && Ascending(f.blocks)
  }

  ghost predicate Inv(u: Ui) {
    && 0 < u.blockSize && u.totalBlocks == u.dataStart + u.dataBlocks
    && u.usedDataBlocks == SumBlocks(u.files)
    && u.freeBlocks == u.dataBlocks - u.usedDataBlocks && 0 <= u.freeBlocks
    && u.freeInodes == u.maxInodes - |u.files| && 0 <= u.freeInodes
    && (forall i :: 0 <= i < |u.files| ==> InRange(u, u.files[i]))
  }

  lemma {:induction false} SumUpdate(files: seq<UiFile>, i: nat, f: UiFile)
    requires i < |files|
    ensures SumBlocks(files[i := f]) == SumBlocks(files) - |files[i].blocks| + |f.blocks|
    ensures |files[i].blocks| <= SumBlocks(files)
  {
    var n := |files| - 1;
    if i < n {
      assert files[i := f][..n] == files[..n][i := f];
      SumUpdate(files[..n], i, f);
    } else {
      assert files[i := f][..n] == files[..n];
    }
  }

  lemma SumPush(files: seq<UiFile>, f: UiFile)
    ensures SumBlocks(files + [f]) == SumBlocks(files) + |f.blocks|
  {
    assert (files + [f])[..|files|] == files;
  }

  lemma {:induction false} SumRemove(files: seq<UiFile>, i: nat)
    requires i < |files|
    ensures SumBlocks(files[..i] + files[i + 1..]) == SumBlocks(files) - |files[i].blocks|
  {
    var n := |files| - 1;
    if i < n {
      var less := files[..n];
      SumRemove(less, i);
      assert less[..i] + less[i + 1..] + [files[n]] == files[..i] + files[i + 1..];
      SumPush(less[..i] + less[i + 1..], files[n]);
    } else {
      assert files[..i] + files[i + 1..] == files[..n];
    }
  }

  lemma PushedInv(u: Ui, s: nat, dst: string)
    requires Inv(u) && s < |u.files| && u.freeInodes > 0
    ensures Inv(Pushed(u, s, dst))
  {
    SumPush(u.files, UiFile(dst, u.nextInode, "", u.files[s].mode, []));
  }

  lemma DoWriteInv(u: Ui, i: nat, content: string)
    requires Inv(u) && i < |u.files|
    ensures Inv(DoWrite(u, i, content).ui)
    ensures DoWrite(u, i, content).ok ==> |DoWrite(u, i, content).ui.files| == |u.files|
    ensures !DoWrite(u, i, content).ok ==> DoWrite(u, i, content).ui == u
  {
    var r := DoWrite(u, i, content);
    if r.ok {
      SumUpdate(u.files, i, r.ui.files[i]);
    }
  }

  // ---- commands and runs ----

  datatype Command =
    | CreateFile(name: string)
    | DeleteFile(name: string)
    | WriteFile(name: string, content: string)
    | AppendFile(name: string, content: string)
    | RenameFile(name: string, to: string)
    | CopyFile(name: string, dst: string)
    | TruncateFile(name: string, size: int)
    | ChangeMode(name: string, mode: bv16)

  function Step(u: Ui, c: Command): Outcome
    requires Inv(u)
  {
    match c
    case CreateFile(n) => Create(u, n)
    case DeleteFile(n) => Delete(u, n)
    case WriteFile(n, content) => Write(u, n, content)
    case AppendFile(n, content) => Append(u, n, content)
    case RenameFile(n, to) => Rename(u, n, to)
    case CopyFile(n, dst) => Copy(u, n, dst)
    case TruncateFile(n, size) => Truncate(u, n, size)
    case ChangeMode(n, mode) => Chmod(u, n, mode)
  }

  lemma CreateInv(u: Ui, name: string)
    requires Inv(u)
    ensures Inv(Create(u, name).ui)
  {
    SumPush(u.files, UiFile(name, u.nextInode, "", 0x81A4, []));
  }

  lemma DeleteInv(u: Ui, name: string)
    requires Inv(u)
    ensures Inv(Delete(u, name).ui)
  {
    var r := FindFile(u.files, name);
    if r.Some? {
      SumRemove(u.files, r.value);
    }
  }

  lemma RelabelInv(u: Ui, i: nat, f: UiFile)
    requires Inv(u) && i < |u.files| && f.blocks == u.files[i].blocks
    ensures Inv(u.(files := u.files[i := f]))
  {
    SumUpdate(u.files, i, f);
  }

  lemma CopyInv(u: Ui, src: string, dst: string)
    requires Inv(u)
    ensures Inv(Copy(u, src, dst).ui)
  {
    var r := FindFile(u.files, src);
    if r.Some? && FindFile(u.files, dst).None? && u.freeInodes > 0 {
      var p := Pushed(u, r.value, dst);
      PushedInv(u, r.value, dst);
      DoWriteInv(p, |u.files|, u.files[r.value].content);
      assert p.files[..|p.files| - 1] == u.files;
    }
  }

  lemma WriteInv(u: Ui, name: string, content: string)
    requires Inv(u)
    ensures Inv(Write(u, name, content).ui)
  {
    var r := FindFile(u.files, name);
    if r.Some? {
      DoWriteInv(u, r.value, content);
    }
  }

  lemma AppendInv(u: Ui, name: string, data: string)
    requires Inv(u)
    ensures Inv(Append(u, name, data).ui)
  {
    var r := FindFile(u.files, name);
    if r.Some? {
      DoWriteInv(u, r.value, u.files[r.value].content + data);
    }
  }

  lemma TruncateInv(u: Ui, name: string, size: int)
    requires Inv(u)
    ensures Inv(Truncate(u, name, size).ui)
  {
    var r := FindFile(u.files, name);
    if r.Some? {
      DoWriteInv(u, r.value, Slice(u.files[r.value].content, size));
    }
  }

  lemma RenameInv(u: Ui, name: string, to: string)
    requires Inv(u)
    ensures Inv(Rename(u, name, to).ui)
  {
    var r := FindFile(u.files, name);
    if r.Some? {
      RelabelInv(u, r.value, u.files[r.value].(name := to));
    }
  }

  lemma ChmodInv(u: Ui, name: string, mode: bv16)
    requires Inv(u)
    ensures Inv(Chmod(u, name, mode).ui)
  {
    var r := FindFile(u.files, name);
    if r.Some? {
      RelabelInv(u, r.value, u.files[r.value].(mode := (u.files[r.value].mode & 0xF000) | (mode & 0x0FFF)));
    }
  }

  lemma StepInv(u: Ui, c: Command)
    requires Inv(u)
    ensures Inv(Step(u, c).ui)
  {
    match c
    case CreateFile(n) => CreateInv(u, n);
    case DeleteFile(n) => DeleteInv(u, n);
    case WriteFile(n, content) => WriteInv(u, n, content);
    case AppendFile(n, content) => AppendInv(u, n, content);
    case RenameFile(n, to) => RenameInv(u, n, to);
    case CopyFile(n, dst) => CopyInv(u, n, dst);
    case TruncateFile(n, size) => TruncateInv(u, n, size);
    case ChangeMode(n, mode) => ChmodInv(u, n, mode);
  }

  ghost function Run(u: Ui, cmds: seq<Command>): Ui
    requires Inv(u)
    decreases |cmds|
  {
    if cmds == [] then u else
      StepInv(u, cmds[0]);
      Run(Step(u, cmds[0]).ui, cmds[1..])
  }

  /** The errors fsFsck counts in its inode count, block count and block range checks. */
  function CountErrors(u: Ui): nat {
    (if |u.files| != u.maxInodes - u.freeInodes then 1 else 0)
    + (if SumBlocks(u.files) != u.dataBlocks - u.freeBlocks then 1 else 0)
    + StrayFiles(u, u.files)
  }

  function Stray(u: Ui, blocks: seq<nat>): nat {
    if blocks == [] then 0 else
      var n := |blocks| - 1;
      Stray(u, blocks[..n]) + if blocks[n] < u.dataStart || blocks[n] >= u.totalBlocks then 1 else 0
  }

  function StrayFiles(u: Ui, files: seq<UiFile>): nat {
    if files == [] then 0 else
      StrayFiles(u, files[..|files| - 1]) + Stray(u, files[|files| - 1].blocks)
  }

  lemma {:induction false} NoStray(u: Ui, blocks: seq<nat>)
    requires forall k :: 0 <= k < |blocks| ==> u.dataStart <= blocks[k] < u.totalBlocks
    ensures Stray(u, blocks) == 0
  {
    if blocks != [] {
      NoStray(u, blocks[..|blocks| - 1]);
    }
  }

  lemma {:induction false} NoStrayFiles(u: Ui, files: seq<UiFile>)
    requires forall i :: 0 <= i < |files| ==> InRange(u, files[i])
    ensures StrayFiles(u, files) == 0
  {
    if files != [] {
      NoStrayFiles(u, files[..|files| - 1]);
      assert InRange(u, files[|files| - 1]);
      NoStray(u, files[|files| - 1].blocks);
    }
  }

  // ---- the name and duplicate checks of fsFsck ----

  /** No block number appears in two files. */
  ghost predicate Apart(files: seq<UiFile>) {
    forall i, j, b | 0 <= i < |files| && 0 <= j < |files| :: b in files[i].blocks && b in files[j].blocks ==> i == j
  }

  predicate NameOk(name: string) { 0 < |name| < 32 }

  function NameErrors(files: seq<UiFile>): (n: nat)
    ensures n == 0 <==> forall i :: 0 <= i < |files| ==> NameOk(files[i].name)
  {
    if files == [] then 0 else
      var n := |files| - 1;
      NameErrors(files[..n]) + if NameOk(files[n].name) then 0 else 1
  }

  /** All block numbers, file by file. */
  function Flat(files: seq<UiFile>): (s: seq<nat>)
    ensures forall b :: b in s <==> exists i :: 0 <= i < |files| && b in files[i].blocks
  {
    if files == [] then [] else
      var n := |files| - 1;
      assert forall i :: 0 <= i < n ==> files[..n][i] == files[i];
      Flat(files[..n]) + files[n].blocks
  }

  /** Numbers among blocks that were seen before them. */
  function Repeats(seen: seq<nat>, blocks: seq<nat>): nat {
    if blocks == [] then 0 else
      var n := |blocks| - 1;
      Repeats(seen, blocks[..n]) + if blocks[n] in seen + blocks[..n] then 1 else 0
  }

  function RepeatErrors(files: seq<UiFile>): nat {
    if files == [] then 0 else
      var n := |files| - 1;
      RepeatErrors(files[..n]) + Repeats(Flat(files[..n]), files[n].blocks)
  }

  lemma {:induction false} NoRepeats(seen: seq<nat>, blocks: seq<nat>)
    requires Ascending(blocks)
    ensures Repeats(seen, blocks) == 0 <==> forall k :: 0 <= k < |blocks| ==> blocks[k] !in seen
  {
    if blocks != [] {
      NoRepeats(seen, blocks[..|blocks| - 1]);
    }
  }

  lemma ApartPrefix(files: seq<UiFile>)
    requires files != []
    ensures var n := |files| - 1;
            Apart(files) <==> Apart(files[..n]) && forall k :: 0 <= k < |files[n].blocks| ==>
                                                     files[n].blocks[k] !in Flat(files[..n])
  {
    var n := |files| - 1;
    var first := files[..n];
    if Apart(files) {
      assert forall i :: 0 <= i < n ==> first[i] == files[i];
    } else {
      var i, j, b :| 0 <= i < |files| && 0 <= j < |files| && b in files[i].blocks && b in files[j].blocks && i != j;
      if i < n && j < n {
        assert b in first[i].blocks && b in first[j].blocks;
      } else {
        var m := if i < n then i else j;
        assert b in first[m].blocks;
        var k :| 0 <= k < |files[n].blocks| && files[n].blocks[k] == b;
      }
    }
  }

  lemma {:induction false} RepeatsAreShared(files: seq<UiFile>)
    requires forall i :: 0 <= i < |files| ==> Ascending(files[i].blocks)
    ensures RepeatErrors(files) == 0 <==> Apart(files)
  {
    if files != [] {
      var n := |files| - 1;
      RepeatsAreShared(files[..n]);
      NoRepeats(Flat(files[..n]), files[n].blocks);
      ApartPrefix(files);
    }
  }

  /** The errors fsFsck counts. The magic number it also checks is a constant of fsFormat. */
  function Fsck(u: Ui): nat {
    CountErrors(u) + NameErrors(u.files) + RepeatErrors(u.files)
  }

  /** The names a file may keep under fsFsck, and blocks of its own for each file. */
  ghost predicate Clean(u: Ui) {
    (forall i :: 0 <= i < |u.files| ==> NameOk(u.files[i].name)) && Apart(u.files)
  }

  lemma FsckExact(u: Ui)
    requires Inv(u)
    ensures CountErrors(u) == 0
    ensures Fsck(u) == 0 <==> Clean(u)
  {
    NoStrayFiles(u, u.files);
    forall i | 0 <= i < |u.files|
      ensures Ascending(u.files[i].blocks)
    {
      assert InRange(u, u.files[i]);
    }
    RepeatsAreShared(u.files);
  }

  /** Over every command sequence the counters agree with the files, no block number leaves the data region and the
      count and range checks of fsFsck never fail: it reports exactly bad names and shared blocks. */
  lemma {:induction false} RunAccounts(u: Ui, cmds: seq<Command>)
    requires Inv(u)
    ensures Inv(Run(u, cmds)) && CountErrors(Run(u, cmds)) == 0
    ensures Fsck(Run(u, cmds)) == 0 <==> Clean(Run(u, cmds))
    decreases |cmds|
  {
    if cmds == [] {
      FsckExact(u);
    } else {
      StepInv(u, cmds[0]);
      RunAccounts(Step(u, cmds[0]).ui, cmds[1..]);
    }
  }

  // ---- double allocation ----

  /** A write hands out consecutive numbers above the count of used blocks, whoever has them: files that
      shared no block still share none exactly when no other file holds one of those numbers. */
  lemma WriteKeepsApart(u: Ui, i: nat, content: string)
    requires Inv(u) && i < |u.files| && Apart(u.files) && DoWrite(u, i, content).ok
    ensures var from := u.dataStart + u.usedDataBlocks - |u.files[i].blocks|;
            Apart(DoWrite(u, i, content).ui.files) <==>
            forall j, b | 0 <= j < |u.files| && j != i ::
              b in u.files[j].blocks ==> !(from <= b < from + Needed(|content|, u.blockSize))
  {
    var need := Needed(|content|, u.blockSize);
    SumUpdate(u.files, i, u.files[i]);
    var from := u.dataStart + u.usedDataBlocks - |u.files[i].blocks|;
    var after := DoWrite(u, i, content).ui.files;
    assert after[i].blocks == Consecutive(from, need);
    forall b: nat
      ensures b in after[i].blocks <==> from <= b < from + need
    {
      if from <= b < from + need {
        assert after[i].blocks[b - from] == b;
      }
    }
    assert forall j :: 0 <= j < |after| && j != i ==> after[j] == u.files[j];
  }

  // ---- format ----

  /** Math.floor(a / n) and Math.ceil(a / n), below zero too. */
  function Floor(a: int, n: nat): int
    requires 0 < n
  {
    if a >= 0 then Quot(a, n) else var c: int := Ceil(0 - a, n); 0 - c
  }

  function CeilOf(a: int, n: nat): int
    requires 0 < n
  {
    if a >= 0 then Ceil(a, n) else var q: int := Quot(0 - a, n); 0 - q
  }

  /** fsFormat */
  function Format(totalSize: int, blockSize: int): Option<Ui> {
    if blockSize < INODE_SIZE then None else
    var totalBlocks := Floor(totalSize, blockSize);
    var bitmapBlocks := Max(1, CeilOf(totalBlocks, blockSize * 8));
    var inodeBlocks := Max(1, Floor(totalBlocks, 10));
    if 1 + bitmapBlocks + inodeBlocks >= totalBlocks then None else
    var maxInodes := Times(inodeBlocks, blockSize / INODE_SIZE);
    if maxInodes == 0 then None else
    var dataStart := 1 + bitmapBlocks + inodeBlocks;
    Some(Ui(blockSize, totalBlocks, dataStart, totalBlocks - dataStart, maxInodes,
            [], 0, 0, totalBlocks - dataStart, maxInodes))
  }

  lemma FormatInv(totalSize: int, blockSize: int)
    requires Format(totalSize, blockSize).Some?
    ensures Inv(Format(totalSize, blockSize).value)
  {
  }

  /** What parseInt returns. Every comparison with NaN is false, every sum, product and maximum is NaN. */
  datatype Number = NaN | Int(value: int)

  function Product(a: Number, b: Number): Number {
    if a.NaN? || b.NaN? then NaN else Int(a.value * b.value)
  }

  function Plus(a: Number, b: Number): Number {
    if a.NaN? || b.NaN? then NaN else Int(a.value + b.value)
  }

  function Minus(a: Number, b: Number): Number {
    if a.NaN? || b.NaN? then NaN else Int(a.value - b.value)
  }

  function MaxOf(a: Number, b: Number): Number {
    if a.NaN? || b.NaN? then NaN else Int(Max(a.value, b.value))
  }

  function FloorOf(a: Number, n: Number): Number
    requires n.Int? ==> 0 < n.value
  {
    if a.NaN? || n.NaN? then NaN else Int(Floor(a.value, n.value))
  }

  function CeilingOf(a: Number, n: Number): Number
    requires n.Int? ==> 0 < n.value
  {
    if a.NaN? || n.NaN? then NaN else Int(CeilOf(a.value, n.value))
  }

  predicate Less(a: Number, b: Number) { a.Int? && b.Int? && a.value < b.value }
  predicate AtLeast(a: Number, b: Number) { a.Int? && b.Int? && a.value >= b.value }
  predicate Same(a: Number, b: Number) { a.Int? && b.Int? && a.value == b.value }

  /** The counters fsFormat sets, or none when it refuses: lines 71-90 on what parseInt returned. */
  datatype Counters = Counters(totalBlocks: Number, dataStart: Number, dataBlocks: Number, maxInodes: Number)

  function FormatNumbers(totalSize: Number, blockSize: Number): Option<Counters> {
    if Less(blockSize, Int(INODE_SIZE)) then None else
    var totalBlocks := FloorOf(totalSize, blockSize);
    var bitmapBlocks := MaxOf(Int(1), CeilingOf(totalBlocks, Product(blockSize, Int(8))));
    var inodeBlocks := MaxOf(Int(1), FloorOf(totalBlocks, Int(10)));
    var dataStart := Plus(Plus(Int(1), bitmapBlocks), inodeBlocks);
    if AtLeast(dataStart, totalBlocks) then None else
    var maxInodes := Product(FloorOf(blockSize, Int(INODE_SIZE)), inodeBlocks);
    if Same(maxInodes, Int(0)) then None
    else Some(Counters(totalBlocks, dataStart, Minus(totalBlocks, dataStart), maxInodes))
  }

  /** On two integers that is Format. */
  lemma FormatOfIntegers(totalSize: int, blockSize: int)
    ensures FormatNumbers(Int(totalSize), Int(blockSize)).Some? <==> Format(totalSize, blockSize).Some?
    ensures Format(totalSize, blockSize).Some? ==>
              var u := Format(totalSize, blockSize).value;
              FormatNumbers(Int(totalSize), Int(blockSize))
              == Some(Counters(Int(u.totalBlocks), Int(u.dataStart), Int(u.dataBlocks), Int(u.maxInodes)))
  {
    if INODE_SIZE <= blockSize {
      var n := Floor(totalSize, blockSize);
      var bitmapBlocks := Max(1, CeilOf(n, blockSize * 8));
      var inodeBlocks := Max(1, Floor(n, 10));
      assert CeilingOf(Int(n), Product(Int(blockSize), Int(8))) == Int(CeilOf(n, blockSize * 8));
      assert MaxOf(Int(1), FloorOf(Int(n), Int(10))) == Int(inodeBlocks);
      SlotsOfIntegers(blockSize, inodeBlocks);
    }
  }

  lemma SlotsOfIntegers(blockSize: nat, inodeBlocks: nat)
    requires INODE_SIZE <= blockSize
    ensures Product(FloorOf(Int(blockSize), Int(INODE_SIZE)), Int(inodeBlocks))
            == Int(Times(inodeBlocks, blockSize / INODE_SIZE))
  {
    AreTheOperators(blockSize, INODE_SIZE);
    TimesIsProduct(inodeBlocks, blockSize / INODE_SIZE);
  }

  /** Sizes of which one is no number are refused only for a block size under 144. Otherwise the disk is formatted
      with counters that are no numbers, and on the empty disk fsFsck finds both its inode count and its block
      count wrong. */
  lemma FormatOfNaN(totalSize: Number, blockSize: Number)
    requires totalSize.NaN? || blockSize.NaN?
    ensures FormatNumbers(totalSize, blockSize).None? <==> Less(blockSize, Int(INODE_SIZE))
    ensures FormatNumbers(totalSize, blockSize).Some? ==>
              var c := FormatNumbers(totalSize, blockSize).value;
              && c == Counters(NaN, NaN, NaN, NaN)
              && !Same(Int(0), Minus(c.maxInodes, c.maxInodes)) && !Same(Int(0), Minus(c.dataBlocks, c.dataBlocks))
  {
  }

  /** Format of sizes that are not negative. */
  lemma FormatNumbersNat(totalSize: nat, blockSize: nat, n: nat)
    requires INODE_SIZE <= blockSize && n == Quot(totalSize, blockSize)
    ensures var dataStart := 1 + Ceil(n, 8 * blockSize) + Max(1, n / 10);
            var inodes := Times(Max(1, n / 10), blockSize / INODE_SIZE);
            Format(totalSize, blockSize)
            == if dataStart >= n || inodes == 0 then None
               else Some(Ui(blockSize, n, dataStart, n - dataStart, inodes, [], 0, 0, n - dataStart, inodes))
  {
    AreTheOperators(n, 10);
    CeilBounds(n, 8 * blockSize);
  }

  /** The simulator formats as the C code does, for every 32-bit size the C code can divide: same
      verdict, same regions, same counts. */
  lemma FormatAgrees(totalSize: U32, blockSize: U32, now: U64)
    requires blockSize % 0x2000_0000 != 0
    ensures var c := Geometry.Layout(totalSize, blockSize, now);
            var u := Format(totalSize, blockSize);
            && (u.Some? <==> c.Formatted?)
            && (u.Some? ==>
                  && u.value.totalBlocks == c.sb.totalBlocks && u.value.dataStart == c.sb.dataStart
                  && u.value.dataBlocks == c.sb.dataBlocks && u.value.maxInodes == c.sb.maxInodes
                  && u.value.freeBlocks == c.sb.freeBlocks && u.value.freeInodes == c.sb.freeInodes)
  {
    Geometry.WrapsToZero(blockSize);
    if INODE_SIZE <= blockSize {
      Geometry.LayoutNumbers(totalSize, blockSize, now);
      FormatNumbersNat(totalSize, blockSize, Quot(totalSize, blockSize));
    }
  }

  /** Two files of one block each; rewriting the first hands it the block of the second. */
  lemma RewriteSharesBlock(u: Ui, a: UiFile, b: UiFile)
    requires Inv(u) && u.files == [a, b] && a.blocks == [u.dataStart] && b.blocks == [u.dataStart + 1]
    ensures Apart(u.files)
    ensures DoWrite(u, 0, "x").ok && !Apart(DoWrite(u, 0, "x").ui.files)
  {
    assert SumBlocks(u.files) == 2 by {
      assert u.files == [a] + [b];
      SumPush([a], b);
      assert [a] == [] + [a];
      SumPush([], a);
    }
    CeilLeast(1, u.blockSize, 1);
    TimesOne(u.blockSize);
    assert Needed(1, u.blockSize) == 1;
    WriteKeepsApart(u, 0, "x");
    assert u.dataStart + 1 in u.files[1].blocks;
  }

  /** Two files of different names, on these blocks. */
  ghost predicate Pair(u: Ui, a: string, b: string, ofA: seq<nat>, ofB: seq<nat>) {
    && |u.files| == 2 && a != b && u.files[0].name == a && u.files[1].name == b
    && u.files[0].blocks == ofA && u.files[1].blocks == ofB && u.usedDataBlocks == |ofA| + |ofB|
  }

  /** One character written to a file without blocks. */
  lemma WriteFirst(u: Ui, n: string, i: nat, x: string, w: Ui)
    requires Inv(u) && i < |u.files| && u.files[i].blocks == [] && u.freeBlocks > 0 && |x| == 1
    requires FindFile(u.files, n) == Some(i) && w == Write(u, n, x).ui
    ensures w == u.(usedDataBlocks := u.usedDataBlocks + 1, freeBlocks := u.freeBlocks - 1,
                    files := u.files[i := u.files[i].(content := x, blocks := [u.dataStart + u.usedDataBlocks])])
  {
    CeilLeast(1, u.blockSize, 1);
    TimesOne(u.blockSize);
    assert Needed(1, u.blockSize) == 1;
    assert Consecutive(u.dataStart + u.usedDataBlocks, 1) == [u.dataStart + u.usedDataBlocks];
  }

  lemma CreateTwo(u0: Ui, a: string, b: string, u1: Ui, u2: Ui)
    requires Inv(u0) && u0.files == [] && u0.maxInodes >= 2 && |a| < 32 && |b| < 32 && a != b
    requires u1 == Step(u0, CreateFile(a)).ui && Inv(u1) && u2 == Step(u1, CreateFile(b)).ui && Inv(u2)
    ensures Pair(u2, a, b, [], []) && u2.dataBlocks == u0.dataBlocks
  {
    FoundFirst(u0.files, a, None);
    FoundFirst(u1.files, b, None);
  }

  lemma WriteTwo(u2: Ui, a: string, b: string, x: string, u3: Ui, u4: Ui)
    requires Inv(u2) && Pair(u2, a, b, [], []) && u2.dataBlocks >= 2 && |x| == 1
    requires u3 == Step(u2, WriteFile(a, x)).ui && Inv(u3) && u4 == Step(u3, WriteFile(b, x)).ui && Inv(u4)
    ensures Pair(u4, a, b, [u4.dataStart], [u4.dataStart + 1])
  {
    FoundFirst(u2.files, a, Some(0));
    WriteFirst(u2, a, 0, x, u3);
    FoundFirst(u3.files, b, Some(1));
    WriteFirst(u3, b, 1, x, u4);
  }

  /** That state is reached by creating two files and writing one character to each. */
  lemma TwoFilesReached(u0: Ui, a: string, b: string, x: string) returns (u: Ui)
    requires Inv(u0) && u0.files == [] && u0.dataBlocks >= 2 && u0.maxInodes >= 2
    requires |a| < 32 && |b| < 32 && a != b && |x| == 1
    ensures u == Run(u0, [CreateFile(a), CreateFile(b), WriteFile(a, x), WriteFile(b, x)])
    ensures Inv(u) && Pair(u, a, b, [u.dataStart], [u.dataStart + 1])
  {
    var u1, u2, u3;
    u1, u2, u3, u := RunFour(u0, CreateFile(a), CreateFile(b), WriteFile(a, x), WriteFile(b, x));
    CreateTwo(u0, a, b, u1, u2);
    WriteTwo(u2, a, b, x, u3, u);
  }

  lemma RunFour(u: Ui, c1: Command, c2: Command, c3: Command, c4: Command) returns (v: Ui, w: Ui, x: Ui, y: Ui)
    requires Inv(u)
    ensures v == Step(u, c1).ui && Inv(v) && w == Step(v, c2).ui && Inv(w)
    ensures x == Step(w, c3).ui && Inv(x) && y == Step(x, c4).ui && Inv(y)
    ensures Run(u, [c1, c2, c3, c4]) == y
  {
    StepInv(u, c1);
    v := Step(u, c1).ui;
    StepInv(v, c2);
    w := Step(v, c2).ui;
    StepInv(w, c3);
    x := Step(w, c3).ui;
    StepInv(x, c4);
    y := Step(x, c4).ui;
    assert [c1, c2, c3, c4][1..] == [c2, c3, c4] && [c2, c3, c4][1..] == [c3, c4] && [c3, c4][1..] == [c4];
    assert [c4][1..] == [];
    assert Run(x, [c4]) == y;
    assert Run(w, [c3, c4]) == Run(x, [c4]);
    assert Run(v, [c2, c3, c4]) == Run(w, [c3, c4]);
  }

  // ---- the code ----

  class UiFs {
    var formatted: bool
    var blockSize: nat
    var totalBlocks: nat
    var dataStart: nat
    var dataBlocks: nat
    var maxInodes: nat
    var freeBlocks: int
    var freeInodes: int
    var files: seq<UiFile>
    var nextInode: nat
    var usedDataBlocks: int

    ghost function State(): Ui
      reads this
    {
      Ui(blockSize, totalBlocks, dataStart, dataBlocks, maxInodes, files, nextInode, usedDataBlocks,
         freeBlocks, freeInodes)
    }

    ghost predicate Valid()
      reads this
    {
      formatted ==> Inv(State())
    }

    constructor ()
      ensures !formatted && Valid()
    {
      formatted := false;
      blockSize, totalBlocks, dataStart, dataBlocks, maxInodes := 0, 0, 0, 0, 0;
      freeBlocks, freeInodes, usedDataBlocks, nextInode := 0, 0, 0, 0;
      files := [];
    }

    method FsFormat(totalSize: int, bs: int) returns (ok: bool)
      modifies this
      ensures ok <==> Format(totalSize, bs).Some?
      ensures if ok then formatted && State() == Format(totalSize, bs).value && Inv(State()) else unchanged(this)
    {
      if bs < INODE_SIZE {
        return false;
      }
      var n := Floor(totalSize, bs);
      var bitmapBlocks := Max(1, CeilOf(n, bs * 8));
      var inodeBlocks := Max(1, Floor(n, 10));
      if 1 + bitmapBlocks + inodeBlocks >= n {
        return false;
      }
      var inodes := Times(inodeBlocks, bs / INODE_SIZE);
      if inodes == 0 {
        return false;
      }
      blockSize, totalBlocks, maxInodes := bs, n, inodes;
      dataStart := 1 + bitmapBlocks + inodeBlocks;
      dataBlocks := n - dataStart;
      freeBlocks, freeInodes := dataBlocks, inodes;
      files, nextInode, usedDataBlocks, formatted := [], 0, 0, true;
      FormatInv(totalSize, bs);
      return true;
    }

    method Lookup(name: string) returns (r: Option<nat>)
      ensures r == FindFile(files, name)
    {
      var i := 0;
      while i < |files|
        invariant 0 <= i <= |files|
        invariant forall k :: 0 <= k < i ==> files[k].name != name
      {
        if files[i].name == name {
          FoundFirst(files, name, Some(i));
          return Some(i);
        }
        i := i + 1;
      }
      FoundFirst(files, name, None);
      return None;
    }

    /** The loop of _doWrite: the next block numbers, by the count of used ones. */
    method NextBlocks(needed: nat) returns (newBlocks: seq<nat>)
      requires 0 <= dataStart + usedDataBlocks
      modifies this`usedDataBlocks
      ensures newBlocks == Consecutive(dataStart + old(usedDataBlocks), needed)
      ensures usedDataBlocks == old(usedDataBlocks) + needed
    {
      newBlocks := [];
      var k := 0;
      while k < needed
        invariant 0 <= k <= needed && usedDataBlocks == old(usedDataBlocks) + k
        invariant newBlocks == Consecutive(dataStart + old(usedDataBlocks), k)
      {
        newBlocks := newBlocks + [dataStart + usedDataBlocks];
        usedDataBlocks := usedDataBlocks + 1;
        k := k + 1;
      }
    }

    /** _doWrite */
    method WriteContent(i: nat, content: string) returns (ok: bool)
      requires Inv(State()) && i < |files|
      modifies this
      ensures Outcome(State(), ok) == DoWrite(old(State()), i, content) && Inv(State())
      ensures formatted == old(formatted)
    {
      DoWriteInv(State(), i, content);
      SumUpdate(files, i, files[i]);
      var file := files[i];
      var needed := Max(1, Ceil(|content|, blockSize));
      if needed > 16 {
        return false;
      }
      if needed > freeBlocks + |file.blocks| {
        return false;
      }
      usedDataBlocks := usedDataBlocks - |file.blocks|;
      freeBlocks := freeBlocks + |file.blocks|;
      var newBlocks := NextBlocks(needed);
      freeBlocks := freeBlocks - needed;
      files := files[i := file.(content := content, blocks := newBlocks)];
      return true;
    }

    method FsCreate(name: string) returns (ok: bool)
      modifies this
      ensures formatted == old(formatted)
      ensures if formatted then Outcome(State(), ok) == Create(old(State()), name) else !ok && unchanged(this)
    {
      if !formatted || |name| >= 32 {
        return false;
      }
      var r := Lookup(name);
      if r.Some? || freeInodes <= 0 {
        return false;
      }
      files := files + [UiFile(name, nextInode, "", 0x81A4, [])];
      nextInode := nextInode + 1;
      freeInodes := freeInodes - 1;
      return true;
    }

    method FsDelete(name: string) returns (ok: bool)
      modifies this
      ensures formatted == old(formatted)
      ensures if formatted then Outcome(State(), ok) == Delete(old(State()), name) else !ok && unchanged(this)
    {
      if !formatted {
        return false;
      }
      var r := Lookup(name);
      if r.None? {
        return false;
      }
      var n := |files[r.value].blocks|;
      usedDataBlocks := usedDataBlocks - n;
      freeBlocks := freeBlocks + n;
      freeInodes := freeInodes + 1;
      files := files[..r.value] + files[r.value + 1..];
      return true;
    }

    method FsWrite(name: string, content: string) returns (ok: bool)
      requires Valid()
      modifies this
      ensures formatted == old(formatted)
      ensures if formatted then Outcome(State(), ok) == Write(old(State()), name, content) else !ok && unchanged(this)
    {
      if !formatted {
        return false;
      }
      var r := Lookup(name);
      if r.None? {
        return false;
      }
      ok := WriteContent(r.value, content);
    }

    method FsAppend(name: string, data: string) returns (ok: bool)
      requires Valid()
      modifies this
      ensures formatted == old(formatted)
      ensures if formatted then Outcome(State(), ok) == Append(old(State()), name, data) else !ok && unchanged(this)
    {
      if !formatted {
        return false;
      }
      var r := Lookup(name);
      if r.None? {
        return false;
      }
      ok := WriteContent(r.value, files[r.value].content + data);
    }

    method FsTruncate(name: string, newSize: int) returns (ok: bool)
      requires Valid()
      modifies this
      ensures formatted == old(formatted)
      ensures if formatted then Outcome(State(), ok) == Truncate(old(State()), name, newSize)
              else !ok && unchanged(this)
    {
      if !formatted {
        return false;
      }
      var r := Lookup(name);
      if r.None? || newSize > |files[r.value].content| {
        return false;
      }
      ok := WriteContent(r.value, Slice(files[r.value].content, newSize));
    }

    method PushCopy(s: nat, dst: string)
      requires s < |files|
      modifies `files, `nextInode, `freeInodes
      ensures State() == Pushed(old(State()), s, dst)
    {
      files := files + [UiFile(dst, nextInode, "", files[s].mode, [])];
      nextInode := nextInode + 1;
      freeInodes := freeInodes - 1;
    }

    method DropLast()
      requires files != []
      modifies `files, `freeInodes
      ensures State() == Dropped(old(State()))
    {
      files := files[..|files| - 1];
      freeInodes := freeInodes + 1;
    }

    method FsCopy(src: string, dst: string) returns (ok: bool)
      requires Valid()
      modifies this
      ensures formatted == old(formatted)
      ensures if formatted then Outcome(State(), ok) == Copy(old(State()), src, dst) else !ok && unchanged(this)
    {
      if !formatted {
        return false;
      }
      var r := Lookup(src);
      if r.None? {
        return false;
      }
      var taken := Lookup(dst);
      if taken.Some? || freeInodes <= 0 {
        return false;
      }
      PushedInv(State(), r.value, dst);
      var content := files[r.value].content;
      PushCopy(r.value, dst);
      if content == "" {
        return true;
      }
      ok := WriteContent(|files| - 1, content);
      if !ok {
        DropLast();
      }
    }

    method FsRename(name: string, to: string) returns (ok: bool)
      modifies this
      ensures formatted == old(formatted)
      ensures if formatted then Outcome(State(), ok) == Rename(old(State()), name, to) else !ok && unchanged(this)
    {
      if !formatted {
        return false;
      }
      var r := Lookup(name);
      if r.None? {
        return false;
      }
      var taken := Lookup(to);
      if taken.Some? || |to| >= 32 {
        return false;
      }
      files := files[r.value := files[r.value].(name := to)];
      return true;
    }

    method FsChmod(name: string, mode: bv16) returns (ok: bool)
      modifies this
      ensures formatted == old(formatted)
      ensures if formatted then Outcome(State(), ok) == Chmod(old(State()), name, mode) else !ok && unchanged(this)
    {
      if !formatted {
        return false;
      }
      var r := Lookup(name);
      if r.None? {
        return false;
      }
      var m := files[r.value].mode;
      files := files[r.value := files[r.value].(mode := (m & 0xF000) | (mode & 0x0FFF))];
      return true;
    }

    method Dispatch(c: Command) returns (ok: bool)
      requires Valid()
      modifies this
      ensures formatted == old(formatted)
      ensures if formatted then Outcome(State(), ok) == Step(old(State()), c) else !ok && unchanged(this)
    {
      match c {
        case CreateFile(n) => ok := FsCreate(n);
        case DeleteFile(n) => ok := FsDelete(n);
        case WriteFile(n, content) => ok := FsWrite(n, content);
        case AppendFile(n, content) => ok := FsAppend(n, content);
        case RenameFile(n, to) => ok := FsRename(n, to);
        case CopyFile(n, dst) => ok := FsCopy(n, dst);
        case TruncateFile(n, size) => ok := FsTruncate(n, size);
        case ChangeMode(n, mode) => ok := FsChmod(n, mode);
      }
    }

    /** One command: the state follows Step and stays valid; before a format every command is refused. */
    method Execute(c: Command) returns (ok: bool)
      requires Valid()
      modifies this
      ensures Valid() && formatted == old(formatted)
      ensures if formatted then Outcome(State(), ok) == Step(old(State()), c) else !ok && unchanged(this)
    {
      if formatted {
        StepInv(State(), c);
      }
      ok := Dispatch(c);
    }

    /** fsFsck: the number of errors it prints. */
    method FsFsck() returns (errors: nat)
      ensures errors == Fsck(State())
    {
      errors := if |files| == maxInodes - freeInodes then 0 else 1;
      var counted, dups := 0, {};
      var i := 0;
      ghost var before := errors;
      while i < |files|
        invariant 0 <= i <= |files|
        invariant counted == SumBlocks(files[..i])
        invariant forall b :: b in dups <==> b in Flat(files[..i])
        invariant errors == before + StrayFiles(State(), files[..i]) + NameErrors(files[..i]) + RepeatErrors(files[..i])
      {
        assert files[..i + 1][..i] == files[..i];
        var more;
        more, dups := FsckFile(files[i], Flat(files[..i]), dups);
        counted := counted + |files[i].blocks|;
        errors := errors + more;
        i := i + 1;
      }
      assert files[..i] == files;
      if counted != dataBlocks - freeBlocks {
        errors := errors + 1;
      }
    }

    /** What fsFsck finds wrong with one file, after the blocks it has seen. */
    method FsckFile(f: UiFile, ghost seen: seq<nat>, dups0: set<nat>) returns (errors: nat, dups: set<nat>)
      requires forall b :: b in dups0 <==> b in seen
      ensures errors == Stray(State(), f.blocks) + (if NameOk(f.name) then 0 else 1) + Repeats(seen, f.blocks)
      ensures forall b :: b in dups <==> b in seen + f.blocks
    {
      errors, dups := 0, dups0;
      if |f.name| == 0 || |f.name| >= 32 {
        errors := 1;
      }
      ghost var named := errors;
      var k := 0;
      while k < |f.blocks|
        invariant 0 <= k <= |f.blocks|
        invariant errors == named + Stray(State(), f.blocks[..k]) + Repeats(seen, f.blocks[..k])
        invariant forall b :: b in dups <==> b in seen + f.blocks[..k]
      {
        var b := f.blocks[k];
        assert f.blocks[..k + 1][..k] == f.blocks[..k];
        if b < dataStart || b >= totalBlocks {
          errors := errors + 1;
        }
        if b in dups {
          errors := errors + 1;
        }
        dups := dups + {b};
        k := k + 1;
      }
      assert f.blocks[..k] == f.blocks;
    }
  }
}
