/**
 Files and directories on the record view of the disk: which blocks an inode owns, what a directory
 lists, what a path resolves to, and the invariant that ties inodes, blocks, bitmaps and names.
 */
module VsfsTree {
  import opened Basics
  import opened VsfsDisk
  import opened VsfsFile
  import opened VsfsRecords

  type Name = seq<Octet>

  const ROOT: nat := 1

  // ---- blocks of an inode ----

  /** The table, the bitmaps and the blocks have the sizes the superblock gives. */
  ghost predicate Shape(fs: Records, sb: Super) {
    && |fs.inodes| == sb.ninodes && 0 < sb.dataStart
    && (forall b: nat :: b in fs.data <==> DataBlockNumber(sb, b))
    && (forall b | b in fs.data :: |fs.data[b]| == BLOCK)
  }

  /** The block of logical block `j`; zero when there is none. */
  function BlockNo(fs: Records, ino: INode, j: nat): nat {
    if j < DIRECT_BLOCKS then ino.direct[j]
    else if j - DIRECT_BLOCKS >= INDIRECT_ENTRIES || ino.indirect !in fs.data || |fs.data[ino.indirect]| != BLOCK then 0
    else WordAt(fs.data[ino.indirect], (j - DIRECT_BLOCKS) * 4)
  }

  function Count(ino: INode): nat {
    BlockCount(ino.sz)
  }

  predicate HasIndirect(ino: INode) {
    Count(ino) > DIRECT_BLOCKS
  }

  ghost function Owned(fs: Records, ino: INode): set<nat> {
    (set j | 0 <= j < Count(ino) :: BlockNo(fs, ino, j)) + (if HasIndirect(ino) then {ino.indirect as nat} else {})
  }

  /** Block `b` is a data block marked in the bitmap. */
  ghost predicate InUse(fs: Records, sb: Super, b: nat) {
    b in fs.data && sb.dataStart <= b && b - sb.dataStart in fs.dataBits
  }

  /** The blocks of an inode are in use and all different; pointers beyond its size are zero. */
  ghost predicate InodeOk(fs: Records, sb: Super, ino: INode) {
    && (ino.ty == FILE || ino.ty == DIRECTORY)
    && Count(ino) <= DIRECT_BLOCKS + INDIRECT_ENTRIES
    && (forall j | 0 <= j < Count(ino) :: InUse(fs, sb, BlockNo(fs, ino, j)))
    && (forall i, j | 0 <= i < j < Count(ino) :: BlockNo(fs, ino, i) != BlockNo(fs, ino, j))
    && (HasIndirect(ino) ==> InUse(fs, sb, ino.indirect) && forall j | 0 <= j < Count(ino) :: BlockNo(fs, ino, j) != ino.indirect)
    && (forall j | Count(ino) <= j < DIRECT_BLOCKS :: ino.direct[j] == 0)
  }

  // ---- directories ----

  function EntryCount(ino: INode): nat {
    ino.sz / DIRENT_SIZE
  }

  /** Entry `i` of a directory whose block for it is `b`. */
  function EntryIn(block: seq<Octet>, i: nat): DirEnt
    requires |block| == BLOCK
  {
    var at := i * DIRENT_SIZE % BLOCK;
    DirEntOf(block[at..at + DIRENT_SIZE])
  }

  function EntryBlock(fs: Records, ino: INode, i: nat): nat {
    BlockNo(fs, ino, i * DIRENT_SIZE / BLOCK)
  }

  /** Entry `i` of a directory, if its block exists. */
  function EntryAt(fs: Records, ino: INode, i: nat): Option<DirEnt> {
    var b := EntryBlock(fs, ino, i);
    if b in fs.data && |fs.data[b]| == BLOCK then Some(EntryIn(fs.data[b], i)) else None
  }

  /** An entry with an empty name is not visible: no path component is empty. */
  predicate Visible(e: DirEnt) {
    0 < e.nameLen <= NAME_MAX
  }

  /** The entries of a directory: readable, naming inodes in use, with distinct names. */
  ghost predicate EntriesOk(fs: Records, ino: INode) {
    && ino.sz % DIRENT_SIZE == 0
    && (forall i | 0 <= i < EntryCount(ino) :: EntryOk(fs, EntryAt(fs, ino, i)))
    && (forall i, j | 0 <= i < j < EntryCount(ino) :: NamesDiffer(EntryAt(fs, ino, i), EntryAt(fs, ino, j)))
  }

  ghost predicate EntryOk(fs: Records, e: Option<DirEnt>) {
    e.Some? && e.value.nameLen <= NAME_MAX
    && (Visible(e.value) ==> 0 < e.value.inum < |fs.inodes| && e.value.inum in fs.inodeBits)
  }

  ghost predicate NamesDiffer(e: Option<DirEnt>, f: Option<DirEnt>) {
    e.Some? && f.Some? && Visible(e.value) && Visible(f.value) ==> NameOf(e.value) != NameOf(f.value)
  }

  /** The scan of a directory from entry `i` on. */
  function FindFrom(fs: Records, ino: INode, name: Name, i: nat): Result<U32>
    decreases EntryCount(ino) - i
  {
    if i >= EntryCount(ino) then Err(NotFound)
    else
      match EntryAt(fs, ino, i)
      case None => Err(Fs)
      case Some(e) =>
        if e.nameLen > NAME_MAX then Err(Fs)
        else if NameOf(e) == name then Ok(e.inum)
        else FindFrom(fs, ino, name, i + 1)
  }

  /** `lookup_path`. */
  function Find(fs: Records, ino: INode, name: Name): Result<U32> {
    if ino.ty != DIRECTORY || ino.sz % DIRENT_SIZE != 0 then Err(Fs) else FindFrom(fs, ino, name, 0)
  }

  /** The walk of `open` along the components of a path, from inode `i`. */
  function Resolve(fs: Records, i: nat, path: seq<Name>): Result<nat>
    decreases |path|
  {
    if path == [] then Ok(i)
    else if i >= |fs.inodes| || fs.inodes[i].ty == FILE then Err(Fs)
    else
      match Find(fs, fs.inodes[i], path[0])
      case Err(e) => Err(e)
      case Ok(k) => Resolve(fs, k, path[1..])
  }

  /** A path and then another: the second starts where the first leads. */
  lemma {:induction false} ResolveConcat(fs: Records, i: nat, a: seq<Name>, b: seq<Name>)
    ensures Resolve(fs, i, a + b) == match Resolve(fs, i, a) case Err(e) => Err(e) case Ok(j) => Resolve(fs, j, b)
    decreases |a|
  {
    if a == [] {
      assert a + b == b;
    } else {
      assert (a + b)[0] == a[0] && (a + b)[1..] == a[1..] + b;
      if i < |fs.inodes| && Find(fs, fs.inodes[i], a[0]).Ok? {
        ResolveConcat(fs, Find(fs, fs.inodes[i], a[0]).value, a[1..], b);
      }
    }
  }

  // ---- the invariant ----

  ghost predicate Live(fs: Records, i: nat) {
    0 < i < |fs.inodes| && i in fs.inodeBits
  }

  ghost predicate FsOk(fs: Records, sb: Super) {
    && Shape(fs, sb)
    && Live(fs, ROOT) && fs.inodes[ROOT].ty == DIRECTORY
    && (forall i: nat | Live(fs, i) :: InodeOk(fs, sb, fs.inodes[i]))
    && (forall i: nat, j: nat | Live(fs, i) && Live(fs, j) && i != j :: Owned(fs, fs.inodes[i]) !! Owned(fs, fs.inodes[j]))
    && (forall i: nat | Live(fs, i) && fs.inodes[i].ty == DIRECTORY :: EntriesOk(fs, fs.inodes[i]))
  }

  // ---- searching ----

  lemma {:induction false} FindFound(fs: Records, ino: INode, name: Name, i: nat, k: nat)
    requires i <= k < EntryCount(ino)
    requires forall j | i <= j <= k :: EntryAt(fs, ino, j).Some? && EntryAt(fs, ino, j).value.nameLen <= NAME_MAX
    requires NameOf(EntryAt(fs, ino, k).value) == name
    requires forall j | i <= j < k :: NameOf(EntryAt(fs, ino, j).value) != name
    ensures FindFrom(fs, ino, name, i) == Ok(EntryAt(fs, ino, k).value.inum)
    decreases k - i
  {
    if i < k { FindFound(fs, ino, name, i + 1, k); }
  }

  lemma {:induction false} FindMissing(fs: Records, ino: INode, name: Name, i: nat)
    requires forall j | i <= j < EntryCount(ino) :: EntryAt(fs, ino, j).Some? && EntryAt(fs, ino, j).value.nameLen <= NAME_MAX
    requires forall j | i <= j < EntryCount(ino) :: NameOf(EntryAt(fs, ino, j).value) != name
    ensures FindFrom(fs, ino, name, i) == Err(NotFound)
    decreases EntryCount(ino) - i
  {
    if i < EntryCount(ino) { FindMissing(fs, ino, name, i + 1); }
  }

  /** A search that came up empty saw every entry. */
  lemma {:induction false} FindSawAll(fs: Records, ino: INode, name: Name, i: nat)
    requires FindFrom(fs, ino, name, i) == Err(NotFound)
    ensures forall j | i <= j < EntryCount(ino) ::
              EntryAt(fs, ino, j).Some? && EntryAt(fs, ino, j).value.nameLen <= NAME_MAX && NameOf(EntryAt(fs, ino, j).value) != name
    decreases EntryCount(ino) - i
  {
    if i < EntryCount(ino) { FindSawAll(fs, ino, name, i + 1); }
  }

  /** What a search that found something found. */
  lemma {:induction false} FindGave(fs: Records, ino: INode, name: Name, i: nat) returns (k: nat)
    requires FindFrom(fs, ino, name, i).Ok?
    ensures i <= k < EntryCount(ino) && EntryAt(fs, ino, k).Some? && EntryAt(fs, ino, k).value.nameLen <= NAME_MAX
    ensures NameOf(EntryAt(fs, ino, k).value) == name && FindFrom(fs, ino, name, i) == Ok(EntryAt(fs, ino, k).value.inum)
    decreases EntryCount(ino) - i
  {
    if NameOf(EntryAt(fs, ino, i).value) == name {
      k := i;
    } else {
      k := FindGave(fs, ino, name, i + 1);
    }
  }

  /** Two directories with the same entries give the same answers. */
  lemma {:induction false} FindSame(fs: Records, ino: INode, fs': Records, ino': INode, name: Name, i: nat)
    requires ino'.sz == ino.sz && forall j | i <= j < EntryCount(ino) :: EntryAt(fs', ino', j) == EntryAt(fs, ino, j)
    ensures FindFrom(fs', ino', name, i) == FindFrom(fs, ino, name, i)
    decreases EntryCount(ino) - i
  {
    if i < EntryCount(ino) { FindSame(fs, ino, fs', ino', name, i + 1); }
  }

  lemma FindDirectory(fs: Records, ino: INode, name: Name)
    ensures Find(fs, ino, name).Ok? ==> ino.ty == DIRECTORY
  {}

  lemma FindLive(fs: Records, ino: INode, name: Name)
    requires EntriesOk(fs, ino) && name != [] && Find(fs, ino, name).Ok?
    ensures Live(fs, Find(fs, ino, name).value)
  {
    var k := FindGave(fs, ino, name, 0);
    assert EntryOk(fs, EntryAt(fs, ino, k));
  }

  /** A path that resolves in a sound file system leads to a live inode. */
  lemma {:induction false} ResolveLive(fs: Records, sb: Super, i: nat, path: seq<Name>)
    requires FsOk(fs, sb) && Live(fs, i) && (forall k | 0 <= k < |path| :: path[k] != [])
    requires Resolve(fs, i, path).Ok?
    ensures Live(fs, Resolve(fs, i, path).value)
    decreases |path|
  {
    hide InodeOk, EntriesOk, Owned, Shape, Find;
    if path != [] {
      FindDirectory(fs, fs.inodes[i], path[0]);
      var ino := fs.inodes[i];
      FindLive(fs, ino, path[0]);
      ResolveLive(fs, sb, Find(fs, ino, path[0]).value, path[1..]);
    }
  }

  lemma FoundLive(fs: Records, sb: Super, i: nat, name: Name)
    requires FsOk(fs, sb) && Live(fs, i) && name != [] && Find(fs, fs.inodes[i], name).Ok?
    ensures Live(fs, Find(fs, fs.inodes[i], name).value)
  {
    FindDirectory(fs, fs.inodes[i], name);
    FindLive(fs, fs.inodes[i], name);
  }

  // ---- inodes that are marked and not in use ----

  /** The records as if only the inodes of `live` were marked. */
  ghost function Limited(fs: Records, live: set<nat>): Records {
    fs.(inodeBits := live)
  }

  /**
   The invariant that operations keep even on a failing device: it holds of the inodes in `live`.
   Other inodes may be marked; they are leaked, and nothing is known of their records.
   */
  ghost predicate Sound(fs: Records, sb: Super, live: set<nat>) {
    live <= fs.inodeBits && FsOk(Limited(fs, live), sb)
  }

  lemma FindLimited(fs: Records, live: set<nat>, ino: INode, name: Name)
    ensures Find(Limited(fs, live), ino, name) == Find(fs, ino, name)
  {
    FindSame(fs, ino, Limited(fs, live), ino, name, 0);
  }

  /** What a path resolves to does not depend on the bitmap. */
  lemma {:induction false} ResolveLimited(fs: Records, live: set<nat>, i: nat, path: seq<Name>)
    ensures Resolve(Limited(fs, live), i, path) == Resolve(fs, i, path)
    decreases |path|
  {
    if path != [] && i < |fs.inodes| {
      FindLimited(fs, live, fs.inodes[i], path[0]);
      var r := Find(fs, fs.inodes[i], path[0]);
      if r.Ok? { ResolveLimited(fs, live, r.value, path[1..]); }
    }
  }
}
