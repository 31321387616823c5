/** The user's view of mini_fs: a map from names to contents and mode, and four numbers. */
module UserView {
  import opened Types
  import opened Arith
  import opened Geometry
  import opened Volume

  datatype File = File(contents: seq<Byte>, mode: bv16)

  datatype Model = Model(
    blockSize: U32,
    dir: map<CString, File>,
    freeBlocks: int,
    freeInodes: int,
    stranded: int)           // blocks marked used that no file owns

  datatype Command =
    | CreateFile(name: CString)
    | DeleteFile(name: CString)
    | WriteFile(name: CString, content: seq<Byte>)
    | AppendFile(name: CString, content: seq<Byte>)
    | ReadFile(name: CString)
    | RenameFile(name: CString, newName: CString)
    | CopyFile(name: CString, dst: CString)
    | TruncateFile(name: CString, size: U32)
    | ChangeMode(name: CString, mode: bv16)
    | Check
    | Remount

  datatype Reply = Reply(ok: bool, output: seq<Byte>)

  function Refused(m: Model): (Model, Reply) { (m, Reply(false, [])) }
  function Accepted(m: Model): (Model, Reply) { (m, Reply(true, [])) }

  function Blocks(m: Model, c: seq<Byte>): nat
    requires 0 < m.blockSize
  {
    Ceil(|c|, m.blockSize)
  }

  /** Replacing the contents of a present file. The file's own blocks do not count as free. */
  function Replace(m: Model, name: CString, c: seq<Byte>): (Model, Reply)
    requires 0 < m.blockSize && name in m.dir
  {
    var need := Max(1, Blocks(m, c));
    if need > 16 || need > m.freeBlocks then Refused(m)
    else
      Accepted(m.(dir := m.dir[name := File(c, m.dir[name].mode)],
                  freeBlocks := m.freeBlocks + Blocks(m, m.dir[name].contents) - need,
                  stranded := m.stranded + if c == [] then 1 else 0))
  }

  function MakeFile(m: Model, n: CString): (Model, Reply) {
    if |n| >= 32 || n in m.dir || m.freeInodes == 0 then Refused(m)
    else Accepted(m.(dir := m.dir[n := File([], 0x81A4)], freeInodes := m.freeInodes - 1))
  }

  function RemoveFile(m: Model, n: CString): (Model, Reply)
    requires 0 < m.blockSize
  {
    if n !in m.dir then Refused(m)
    else Accepted(m.(dir := m.dir - {n}, freeBlocks := m.freeBlocks + Blocks(m, m.dir[n].contents),
                     freeInodes := m.freeInodes + 1))
  }

  function MoveFile(m: Model, n: CString, to: CString): (Model, Reply) {
    if |to| >= 32 || n !in m.dir || to in m.dir then Refused(m)
    else Accepted(m.(dir := (m.dir - {n})[to := m.dir[n]]))
  }

  function DuplicateFile(m: Model, n: CString, dst: CString): (Model, Reply)
    requires 0 < m.blockSize
  {
    if n !in m.dir || dst in m.dir || m.freeInodes == 0 then Refused(m) else
    var need := Blocks(m, m.dir[n].contents);
    if need > m.freeBlocks then Refused(m)
    else Accepted(m.(dir := m.dir[Clip(dst) := m.dir[n]], freeBlocks := m.freeBlocks - need,
                     freeInodes := m.freeInodes - 1))
  }

  function CutFile(m: Model, n: CString, size: U32): (Model, Reply)
    requires 0 < m.blockSize
  {
    if n !in m.dir || size > |m.dir[n].contents| then Refused(m) else
    var kept := m.dir[n].contents[..size];
    Accepted(m.(dir := m.dir[n := File(kept, m.dir[n].mode)],
                freeBlocks := m.freeBlocks + Blocks(m, m.dir[n].contents) - Blocks(m, kept)))
  }

  function SetMode(m: Model, n: CString, mode: bv16): (Model, Reply) {
    if n !in m.dir then Refused(m)
    else Accepted(m.(dir := m.dir[n := File(m.dir[n].contents, (m.dir[n].mode & 0xF000) | (mode & 0x0FFF))]))
  }

  /** What a command does, as the user sees it. */
  function Apply(m: Model, c: Command): (Model, Reply)
    requires 0 < m.blockSize
  {
    match c
    case CreateFile(n) => MakeFile(m, n)
    case DeleteFile(n) => RemoveFile(m, n)
    case WriteFile(n, content) => if n in m.dir then Replace(m, n, content) else Refused(m)
    case AppendFile(n, content) =>
      if n in m.dir then Replace(m, n, m.dir[n].contents + content) else Refused(m)
    case ReadFile(n) => if n in m.dir then (m, Reply(true, m.dir[n].contents)) else Refused(m)
    case RenameFile(n, to) => MoveFile(m, n, to)
    case CopyFile(n, dst) => DuplicateFile(m, n, dst)
    case TruncateFile(n, size) => CutFile(m, n, size)
    case ChangeMode(n, mode) => SetMode(m, n, mode)
    case Check => (m, Reply(Clean(m), []))
    case Remount => Accepted(m)
  }

  /** When fsck reports a clean volume. The size test of fs_fsck wraps for blocks of 2^28 bytes and more. */
  predicate Clean(m: Model) {
    m.stranded == 0 && forall n | n in m.dir :: |m.dir[n].contents| <= Wrap(16 * m.blockSize)
  }

  // ---- where the code does what the user sees ----

  /** The source has a defined result: an append does not write past its buffer. */
  predicate Defined(m: Model, c: Command) {
    match c
    case AppendFile(n, content) =>
      n in m.dir ==> |m.dir[n].contents| < TWO32 && BufferHolds(|m.dir[n].contents|, |content|)
    case _ => true
  }

  /** The two checks of _do_write, made with a 32-bit length, let the data pass. */
  predicate Passes(m: Model, len: U32)
    requires 0 < m.blockSize
  {
    BlocksNeeded(len, m.blockSize) <= Min(16, m.freeBlocks)
  }

  /** No 32-bit length or sum of _do_write wraps. */
  predicate Short(m: Model, len: nat) { len + m.blockSize <= TWO32 }

  /** Data of len bytes behind oldLen old ones is refused by the code's checks, or short. */
  predicate Sound(m: Model, oldLen: U32, len: nat)
    requires 0 < m.blockSize && oldLen + Wrap(len) < TWO32
  {
    Passes(m, oldLen + Wrap(len)) ==> Short(m, oldLen + len)
  }

  /** What a caller can check beforehand: data that would pass the code's checks is short enough for them,
      and the first 31 bytes of a copy's name are not taken when the copy will be made. */
  predicate Allowed(m: Model, c: Command)
    requires 0 < m.blockSize
  {
    && Defined(m, c)
    && match c
       case WriteFile(n, content) => n in m.dir ==> Sound(m, 0, |content|)
       case AppendFile(n, content) => n in m.dir ==> Sound(m, |m.dir[n].contents|, |content|)
       case CopyFile(n, dst) => DuplicateFile(m, n, dst).1.ok ==> Clip(dst) !in m.dir
       case _ => true
  }
}
