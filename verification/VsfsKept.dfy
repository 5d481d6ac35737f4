/**
 What survives an operation on the file system: files keep their records and bytes, and paths lead
 where they led.  Survival composes, so it holds over every sequence of operations.
 */
module VsfsKept {
  import opened VsfsDisk
  import opened VsfsRecords
  import opened VsfsTree

  // ---- inodes that are not touched ----

  /** `fs'` keeps the blocks of this inode and everything marked in the bitmap. */
  ghost predicate Keeps(fs: Records, fs': Records, ino: INode) {
    && fs.data.Keys == fs'.data.Keys && fs.dataBits <= fs'.dataBits
    && (forall b | b in Owned(fs, ino) && b in fs.data :: fs'.data[b] == fs.data[b])
  }

  lemma SameBlocks(fs: Records, fs': Records, ino: INode, j: nat)
    requires Keeps(fs, fs', ino) && j < Count(ino)
    ensures BlockNo(fs', ino, j) == BlockNo(fs, ino, j)
  {}

  lemma SameInode(fs: Records, fs': Records, sb: Super, ino: INode)
    requires Keeps(fs, fs', ino)
    ensures Owned(fs', ino) == Owned(fs, ino)
    ensures InodeOk(fs, sb, ino) ==> InodeOk(fs', sb, ino)
  {
    forall j | 0 <= j < Count(ino) ensures BlockNo(fs', ino, j) == BlockNo(fs, ino, j) { SameBlocks(fs, fs', ino, j); }
    assert (set j | 0 <= j < Count(ino) :: BlockNo(fs', ino, j)) == (set j | 0 <= j < Count(ino) :: BlockNo(fs, ino, j));
  }

  lemma EntryInside(ino: INode, i: nat)
    requires i < EntryCount(ino)
    ensures i * DIRENT_SIZE / BLOCK < Count(ino) && i * DIRENT_SIZE % BLOCK + DIRENT_SIZE <= BLOCK
  {}

  lemma SameEntry(fs: Records, fs': Records, ino: INode, i: nat)
    requires Keeps(fs, fs', ino) && i < EntryCount(ino)
    ensures EntryAt(fs', ino, i) == EntryAt(fs, ino, i)
  {}

  lemma SameEntries(fs: Records, fs': Records, ino: INode)
    requires Keeps(fs, fs', ino) && fs.inodeBits <= fs'.inodeBits && |fs'.inodes| == |fs.inodes|
    ensures EntriesOk(fs, ino) ==> EntriesOk(fs', ino)
    ensures forall name :: Find(fs', ino, name) == Find(fs, ino, name)
  {
    forall i | 0 <= i < EntryCount(ino) ensures EntryAt(fs', ino, i) == EntryAt(fs, ino, i) { SameEntry(fs, fs', ino, i); }
    forall name ensures Find(fs', ino, name) == Find(fs, ino, name) { FindSame(fs, ino, fs', ino, name, 0); }
  }

  // ---- contents ----

  function ByteAt(fs: Records, ino: INode, k: nat): Octet {
    var b := BlockNo(fs, ino, k / BLOCK);
    if b in fs.data && |fs.data[b]| == BLOCK then fs.data[b][k % BLOCK] else 0
  }

  /** The bytes of a file. */
  ghost function Body(fs: Records, ino: INode): seq<Octet> {
    seq<Octet>(ino.sz, k requires 0 <= k < ino.sz => ByteAt(fs, ino, k))
  }

  lemma SameBody(fs: Records, fs': Records, ino: INode)
    requires Keeps(fs, fs', ino)
    ensures Body(fs', ino) == Body(fs, ino)
  {
    forall k | 0 <= k < ino.sz ensures ByteAt(fs', ino, k) == ByteAt(fs, ino, k) {
      SameBlocks(fs, fs', ino, k / BLOCK);
    }
  }

  // ---- paths ----

  predicate Nonempty(path: seq<Name>) {
    forall k | 0 <= k < |path| :: path[k] != []
  }

  /** Inode `i` is of the same type, and gives the same answer for every name. */
  ghost predicate SameFinds(fs: Records, fs': Records, i: nat) {
    && i < |fs.inodes| && i < |fs'.inodes| && (fs'.inodes[i].ty == FILE <==> fs.inodes[i].ty == FILE)
    && (forall name: Name | name != [] :: Find(fs', fs'.inodes[i], name) == Find(fs, fs.inodes[i], name))
  }

  /** Every path from every live inode resolves as before, or fails as before. */
  ghost predicate SamePaths(fs: Records, fs': Records) {
    forall i: nat, path | Live(fs, i) && Nonempty(path) :: Resolve(fs', i, path) == Resolve(fs, i, path)
  }

  lemma {:induction false} PathSame(fs: Records, fs': Records, sb: Super, i: nat, path: seq<Name>)
    requires FsOk(fs, sb) && Live(fs, i) && Nonempty(path) && forall j: nat | Live(fs, j) :: SameFinds(fs, fs', j)
    ensures Resolve(fs', i, path) == Resolve(fs, i, path)
    decreases |path|
  {
    hide FsOk, Find;
    if path != [] {
      assert SameFinds(fs, fs', i) && path[0] != [];
      var r := Find(fs, fs.inodes[i], path[0]);
      if r.Ok? {
        FoundLive(fs, sb, i, path[0]);
        PathSame(fs, fs', sb, r.value, path[1..]);
      }
    }
  }

  lemma PathsSame(fs: Records, fs': Records, sb: Super)
    requires FsOk(fs, sb) && forall j: nat | Live(fs, j) :: SameFinds(fs, fs', j)
    ensures SamePaths(fs, fs')
  {
    hide FsOk, Live, SameFinds;
    forall i: nat, path | Live(fs, i) && Nonempty(path) ensures Resolve(fs', i, path) == Resolve(fs, i, path) {
      PathSame(fs, fs', sb, i, path);
    }
  }

  // ---- survival ----

  /** File `i` has the same record and, unless it was written, the same bytes. */
  ghost predicate FileKept(fs: Records, fs': Records, i: nat, written: set<nat>) {
    && i < |fs.inodes| && i < |fs'.inodes| && fs'.inodes[i] == fs.inodes[i]
    && (i !in written ==> Body(fs', fs.inodes[i]) == Body(fs, fs.inodes[i]))
  }

  /** Every path that led to an inode leads to the same one. */
  ghost predicate PathsKept(fs: Records, fs': Records) {
    forall i: nat, path | Live(fs, i) && Nonempty(path) && Resolve(fs, i, path).Ok? :: Resolve(fs', i, path) == Resolve(fs, i, path)
  }

  /** The invariant holds, every live inode is still live, every file is kept but those written, and every path is kept. */
  ghost predicate Survives(fs: Records, fs': Records, sb: Super, written: set<nat>) {
    && FsOk(fs', sb) && |fs'.inodes| == |fs.inodes| && fs.inodeBits <= fs'.inodeBits
    && (forall i: nat | Live(fs, i) :: fs'.inodes[i].ty == fs.inodes[i].ty)
    && (forall i: nat | Live(fs, i) && fs.inodes[i].ty == FILE :: FileKept(fs, fs', i, written))
    && PathsKept(fs, fs')
  }

  lemma SurvivesOk(fs: Records, fs': Records, sb: Super, w: set<nat>)
    requires Survives(fs, fs', sb, w)
    ensures FsOk(fs', sb)
  {}

  lemma SurvivesSelf(fs: Records, sb: Super)
    requires FsOk(fs, sb)
    ensures Survives(fs, fs, sb, {})
  {}

  lemma SurvivesMore(fs: Records, fs': Records, fs'': Records, sb: Super, w: set<nat>, w': set<nat>)
    requires Survives(fs, fs', sb, w) && Survives(fs', fs'', sb, w')
    ensures Survives(fs, fs'', sb, w + w')
  {
    hide FsOk, Resolve, Body;
    forall i: nat | Live(fs, i) ensures Live(fs', i) {}
    forall i: nat | Live(fs, i) && fs.inodes[i].ty == FILE ensures FileKept(fs, fs'', i, w + w') {
      assert FileKept(fs, fs', i, w) && FileKept(fs', fs'', i, w');
    }
  }

  ghost function Union(ws: seq<set<nat>>, n: nat): set<nat>
    requires n <= |ws|
  {
    if n == 0 then {} else Union(ws, n - 1) + ws[n - 1]
  }

  /** Over any sequence of operations, every path and every file that was not written survives. */
  lemma {:induction false} SequenceSurvives(states: seq<Records>, sb: Super, ws: seq<set<nat>>, n: nat)
    requires |states| == |ws| + 1 && n <= |ws| && FsOk(states[0], sb)
    requires forall k | 0 <= k < |ws| :: Survives(states[k], states[k + 1], sb, ws[k])
    ensures Survives(states[0], states[n], sb, Union(ws, n))
    decreases n
  {
    if n == 0 {
      SurvivesSelf(states[0], sb);
    } else {
      SequenceSurvives(states, sb, ws, n - 1);
      SurvivesMore(states[0], states[n - 1], states[n], sb, Union(ws, n - 1), ws[n - 1]);
    }
  }
}
