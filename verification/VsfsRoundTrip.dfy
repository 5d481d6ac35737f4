/**
 The image the tool writes is the file system the kernel reads: it satisfies the kernel's
 invariant, every path of the layout resolves to its node, a file's contents are its data, a name
 that is not there is not found, and both bitmaps mark exactly what is in use.
 */
module VsfsRoundTrip {
  import opened Basics
  import opened VsfsDisk
  import opened VsfsFile
  import opened VsfsRecords
  import opened VsfsTree
  import opened VsfsKernel
  import opened VsfsLayout
  import opened VsfsImage

  // ---- one node ----

  lemma RecordBlocks(fs: Records, node: FsNode)
    requires NodeOk(node) && NodeSized(node) && IndirectOn(fs, node)
    ensures Count(RecordOf(node)) == |node.blocks| && HasIndirect(RecordOf(node)) == (|node.blocks| > DIRECT_BLOCKS)
    ensures forall j | 0 <= j < |node.blocks| :: BlockNo(fs, RecordOf(node), j) == node.blocks[j]
    ensures Owned(fs, RecordOf(node)) == OwnBlocks(node)
  {}

  /** A node's own blocks are data blocks, marked in the bitmap. */
  ghost predicate OwnMarked(fs: Records, node: FsNode) {
    && Shape(fs, SUPER)
    && (forall b | b in OwnBlocks(node) :: b >= DATA_BLOCK_START && b - DATA_BLOCK_START in fs.dataBits)
  }

  lemma NodeInodeOk(fs: Records, node: FsNode)
    requires NodeOk(node) && NodeSized(node) && IndirectOn(fs, node) && OwnMarked(fs, node)
    ensures InodeOk(fs, SUPER, RecordOf(node))
  {
    var ino := RecordOf(node);
    RecordBlocks(fs, node);
    forall j | 0 <= j < Count(ino) ensures InUse(fs, SUPER, BlockNo(fs, ino, j)) {
      assert node.blocks[j] in OwnBlocks(node);
    }
    assert HasIndirect(ino) ==> node.indirect in OwnBlocks(node);
    forall i, j | 0 <= i < j < Count(ino) ensures BlockNo(fs, ino, i) != BlockNo(fs, ino, j) {
      assert node.blocks[i] != node.blocks[j];
    }
  }

  /** A run of payload bytes within one block. */
  lemma PayloadRun(fs: Records, node: FsNode, s: seq<Octet>, x: nat, n: nat)
    requires BytesOn(fs, node, s) && x + n <= |s| && 0 < n && x % BLOCK + n <= BLOCK
    ensures x / BLOCK < |node.blocks| && node.blocks[x / BLOCK] in fs.data && |fs.data[node.blocks[x / BLOCK]]| == BLOCK
    ensures fs.data[node.blocks[x / BLOCK]][x % BLOCK..x % BLOCK + n] == s[x..x + n]
  {
    assert ByteOn(fs, node, x, s[x]);
    var t, u := fs.data[node.blocks[x / BLOCK]][x % BLOCK..x % BLOCK + n], s[x..x + n];
    forall k | 0 <= k < n ensures t[k] == u[k] {
      assert ByteOn(fs, node, x + k, s[x + k]);
      assert (x + k) / BLOCK == x / BLOCK && (x + k) % BLOCK == x % BLOCK + k;
    }
  }

  lemma EntriesReady(node: FsNode)
    requires NodeOk(node) && Named(node) && node.kind.NodeDir?
    ensures node.inum < 0x1_0000_0000
    ensures forall i | 0 <= i < |node.kind.children| :: |node.kind.children[i].name| <= NAME_MAX && node.kind.children[i].inum < 0x1_0000_0000
  {}

  lemma NodeEntry(fs: Records, node: FsNode, parent: nat, i: nat)
    requires NodeOk(node) && Named(node) && parent < NINODES && NodeSized(node) && node.kind.NodeDir? && IndirectOn(fs, node)
    requires BytesOn(fs, node, Payload(node, parent)) && i < 2 + |node.kind.children|
    ensures EntryAt(fs, RecordOf(node), i) == Some(EntriesOf(node, parent)[i])
  {
    hide NodeOk, Named, NodeSized, IndirectOn, BytesOn, EntriesBytes, EntriesOf, DirEntOf, DirEntBytes, BlockNo, RecordOf;
    EntriesReady(node);
    var es := EntriesOf(node, parent);
    var x := i * DIRENT_SIZE;
    RecordBlocks(fs, node);
    DirEntPlace(0, i);
    EntryBytes(es, i);
    PayloadRun(fs, node, EntriesBytes(es), x, DIRENT_SIZE);
    DirEntRoundTrip(es[i]);
  }

  /** The entry of a name: itself, the parent, or a child. */
  lemma EntryNames(node: FsNode, parent: nat, i: nat)
    requires Named(node) && parent < NINODES && node.kind.NodeDir? && i < 2 + |node.kind.children|
    ensures var e := EntriesOf(node, parent)[i];
            && e.nameLen <= NAME_MAX && Visible(e)
            && NameOf(e) == (if i == 0 then DOT else if i == 1 then DOT_DOT else node.kind.children[i - 2].name)
            && e.inum == (if i == 0 then node.inum else if i == 1 then parent else node.kind.children[i - 2].inum)
  {}

  lemma NodeEntriesOk(fs: Records, node: FsNode, parent: nat)
    requires NodeOk(node) && NodeOn(fs, node, parent) && node.kind.NodeDir? && Shape(fs, SUPER)
    requires Inums(node) <= fs.inodeBits && 0 < parent && parent in fs.inodeBits
    ensures EntriesOk(fs, RecordOf(node))
  {
    var ino := RecordOf(node);
    var cs := node.kind.children;
    var es := EntriesOf(node, parent);
    assert EntryCount(ino) == 2 + |cs| && ino.sz % DIRENT_SIZE == 0;
    forall i | 0 <= i < EntryCount(ino) ensures EntryAt(fs, ino, i) == Some(es[i]) && EntryOk(fs, EntryAt(fs, ino, i)) {
      NodeEntry(fs, node, parent, i);
      EntryNames(node, parent, i);
      if i >= 2 {
        ChildWithin(cs, i - 2);
        assert NodeOk(cs[i - 2]) && cs[i - 2].inum in Inums(cs[i - 2]);
      }
    }
    forall i, j | 0 <= i < j < EntryCount(ino) ensures NamesDiffer(EntryAt(fs, ino, i), EntryAt(fs, ino, j)) {
      EntryNames(node, parent, i);
      EntryNames(node, parent, j);
      assert i >= 2 ==> cs[i - 2].name != cs[j - 2].name;
      assert j >= 2 ==> NameOk(cs[j - 2].name);
    }
  }

  // ---- the whole tree ----

  /** Everything the invariant asks of one inode of the image. */
  ghost predicate InodeSound(fs: Records, i: nat, blocks: set<nat>) {
    && i < |fs.inodes| && InodeOk(fs, SUPER, fs.inodes[i]) && Owned(fs, fs.inodes[i]) <= blocks
    && (fs.inodes[i].ty == DIRECTORY ==> EntriesOk(fs, fs.inodes[i]))
  }

  lemma InodeSoundMore(fs: Records, i: nat, blocks: set<nat>, more: set<nat>)
    requires InodeSound(fs, i, blocks) && blocks <= more
    ensures InodeSound(fs, i, more)
  {}

  ghost predicate BlocksMarked(fs: Records, blocks: set<nat>) {
    forall b | b in blocks :: b >= DATA_BLOCK_START && b - DATA_BLOCK_START in fs.dataBits
  }

  /** A subtree on an image whose bitmaps mark all of it. */
  ghost predicate TreeOn(fs: Records, node: FsNode, parent: nat) {
    && Shape(fs, SUPER) && NodeOk(node) && NodeOn(fs, node, parent)
    && Inums(node) <= fs.inodeBits && 0 < parent && parent in fs.inodeBits && BlocksMarked(fs, NodeBlocks(node))
  }

  lemma ChildOn(fs: Records, node: FsNode, parent: nat, k: nat)
    requires TreeOn(fs, node, parent) && node.kind.NodeDir? && k < |node.kind.children|
    ensures TreeOn(fs, node.kind.children[k], node.inum)
    ensures NodeBlocks(node.kind.children[k]) <= NodeBlocks(node) && OwnBlocks(node) !! NodeBlocks(node.kind.children[k])
  {
    ChildWithin(node.kind.children, k);
  }

  lemma ChildWith(node: FsNode, i: nat) returns (k: nat)
    requires i in Inums(node) && i != node.inum
    ensures node.kind.NodeDir? && k < |node.kind.children| && i in Inums(node.kind.children[k])
  {
    AllFirst(node.kind.children);
    k :| 0 <= k < |node.kind.children| && i in Inums(node.kind.children[k]);
  }

  lemma SelfSound(fs: Records, node: FsNode, parent: nat)
    requires TreeOn(fs, node, parent)
    ensures InodeSound(fs, node.inum, OwnBlocks(node)) && OwnBlocks(node) <= NodeBlocks(node)
  {
    NodeInodeOk(fs, node);
    RecordBlocks(fs, node);
    if node.kind.NodeDir? { NodeEntriesOk(fs, node, parent); }
  }

  lemma {:induction false} TreeSound(fs: Records, node: FsNode, parent: nat, i: nat)
    requires TreeOn(fs, node, parent) && i in Inums(node)
    ensures InodeSound(fs, i, NodeBlocks(node))
    decreases node
  {
    hide TreeOn, InodeSound, OwnBlocks, Inums, NodeBlocks;
    if i == node.inum {
      SelfSound(fs, node, parent);
      InodeSoundMore(fs, i, OwnBlocks(node), NodeBlocks(node));
    } else {
      var k := ChildWith(node, i);
      ChildOn(fs, node, parent, k);
      TreeSound(fs, node.kind.children[k], node.inum, i);
      InodeSoundMore(fs, i, NodeBlocks(node.kind.children[k]), NodeBlocks(node));
    }
  }

  lemma OwnersApart(fs: Records, i: nat, j: nat, s: set<nat>, t: set<nat>)
    requires InodeSound(fs, i, s) && InodeSound(fs, j, t) && s !! t
    ensures i < |fs.inodes| && j < |fs.inodes| && Owned(fs, fs.inodes[i]) !! Owned(fs, fs.inodes[j])
  {}

  lemma OkChildrenApart(fs: Records, node: FsNode, parent: nat, k: nat, l: nat)
    requires TreeOn(fs, node, parent) && node.kind.NodeDir? && k < |node.kind.children| && l < |node.kind.children| && k != l
    ensures NodeBlocks(node.kind.children[k]) !! NodeBlocks(node.kind.children[l])
  {
    var cs := node.kind.children;
    if k < l { ChildrenApart(cs, k, l); } else { ChildrenApart(cs, l, k); }
  }

  /** Different inodes of the tree own different blocks. */
  lemma {:induction false} TreeApart(fs: Records, node: FsNode, parent: nat, i: nat, j: nat)
    requires TreeOn(fs, node, parent) && i in Inums(node) && j in Inums(node) && i != j
    ensures i < |fs.inodes| && j < |fs.inodes| && Owned(fs, fs.inodes[i]) !! Owned(fs, fs.inodes[j])
    decreases node
  {
    hide TreeOn, InodeSound, OwnBlocks, Inums, NodeBlocks, Owned;
    if i == node.inum || j == node.inum {
      var other := if i == node.inum then j else i;
      var k := ChildWith(node, other);
      ChildOn(fs, node, parent, k);
      SelfSound(fs, node, parent);
      TreeSound(fs, node.kind.children[k], node.inum, other);
      OwnersApart(fs, node.inum, other, OwnBlocks(node), NodeBlocks(node.kind.children[k]));
    } else {
      var k := ChildWith(node, i);
      var l := ChildWith(node, j);
      ChildOn(fs, node, parent, k);
      ChildOn(fs, node, parent, l);
      if k == l {
        TreeApart(fs, node.kind.children[k], node.inum, i, j);
      } else {
        TreeSound(fs, node.kind.children[k], node.inum, i);
        TreeSound(fs, node.kind.children[l], node.inum, j);
        OkChildrenApart(fs, node, parent, k, l);
        OwnersApart(fs, i, j, NodeBlocks(node.kind.children[k]), NodeBlocks(node.kind.children[l]));
      }
    }
  }

  lemma RootRecord(fs: Records, root: FsNode)
    requires NodeOn(fs, root, ROOT) && root.kind.NodeDir? && root.inum == ROOT
    ensures ROOT in Inums(root) && ROOT < |fs.inodes| && fs.inodes[ROOT].ty == DIRECTORY
  {}

  lemma OffsetsMark(fs: Records, blocks: set<nat>)
    requires fs.dataBits == Offsets(blocks) && forall b | b in blocks :: DATA_BLOCK_START <= b
    ensures BlocksMarked(fs, blocks)
  {}

  lemma RootOn(fs: Records, root: FsNode)
    requires Shape(fs, SUPER) && NodeOk(root) && Holds(fs, root) && root.inum == ROOT && root.kind.NodeDir?
    ensures TreeOn(fs, root, ROOT) && Live(fs, ROOT) && fs.inodes[ROOT].ty == DIRECTORY
    ensures forall i: nat :: Live(fs, i) <==> i in Inums(root)
  {
    hide NodeOn, NodeOk, Inums, NodeBlocks, Offsets, BlocksMarked;
    RootRecord(fs, root);
    InumsWithin(root);
    BlocksWithin(root);
    OffsetsMark(fs, NodeBlocks(root));
  }

  lemma SoundIs(fs: Records, i: nat, blocks: set<nat>)
    requires InodeSound(fs, i, blocks)
    ensures i < |fs.inodes| && InodeOk(fs, SUPER, fs.inodes[i]) && (fs.inodes[i].ty == DIRECTORY ==> EntriesOk(fs, fs.inodes[i]))
  {}

  /** The image satisfies the invariant of the file system. */
  lemma ImageOk(fs: Records, root: FsNode)
    requires Shape(fs, SUPER) && NodeOk(root) && Holds(fs, root) && root.inum == ROOT && root.kind.NodeDir?
    ensures FsOk(fs, SUPER)
  {
    hide Shape, NodeOk, Holds, InodeOk, EntriesOk, Owned, TreeOn, Inums, InodeSound, Live;
    RootOn(fs, root);
    forall i: nat | Live(fs, i) ensures i < |fs.inodes| && InodeOk(fs, SUPER, fs.inodes[i]) && (fs.inodes[i].ty == DIRECTORY ==> EntriesOk(fs, fs.inodes[i])) {
      TreeSound(fs, root, ROOT, i);
      SoundIs(fs, i, NodeBlocks(root));
    }
    forall i: nat, j: nat | Live(fs, i) && Live(fs, j) && i != j
      ensures i < |fs.inodes| && j < |fs.inodes| && Owned(fs, fs.inodes[i]) !! Owned(fs, fs.inodes[j])
    {
      TreeApart(fs, root, ROOT, i, j);
    }
  }

  // ---- layouts ----

  /** Names in every directory are fit to be written and all different. */
  ghost predicate LayoutOk(l: Layout)
    decreases l
  {
    l.kind.Directory? ==>
      && (forall i | 0 <= i < |l.kind.children| :: NameOk(l.kind.children[i].name) && LayoutOk(l.kind.children[i]))
      && (forall i, j | 0 <= i < j < |l.kind.children| :: l.kind.children[i].name != l.kind.children[j].name)
  }

  /** The allocated node is this layout. */
  ghost predicate SameTree(l: Layout, n: FsNode)
    decreases l
  {
    && n.name == l.name
    && (l.kind.Regular? ==> n.kind == NodeFile(l.kind.data))
    && (l.kind.Directory? ==>
          && n.kind.NodeDir? && |n.kind.children| == |l.kind.children|
          && (forall i | 0 <= i < |l.kind.children| :: SameTree(l.kind.children[i], n.kind.children[i])))
  }

  ghost predicate SameTrees(ls: seq<Layout>, ns: seq<FsNode>) {
    |ns| == |ls| && forall i | 0 <= i < |ls| :: SameTree(ls[i], ns[i])
  }

  lemma {:induction false} AllocateSame(l: Layout, c: Counters)
    requires Allocate(l, c).Some?
    ensures SameTree(l, Allocate(l, c).value.0)
    decreases l
  {
    if l.kind.Directory? { AllocateAllSame(l.kind.children, Counters(c.inum + 1, c.block)); }
  }

  lemma {:induction false} AllocateAllSame(ls: seq<Layout>, c: Counters)
    requires AllocateAll(ls, c).Some?
    ensures SameTrees(ls, AllocateAll(ls, c).value.0)
    decreases ls
  {
    if ls != [] {
      AllocateSame(ls[0], c);
      var (first, c1) := Allocate(ls[0], c).value;
      AllocateAllSame(ls[1..], c1);
      var rest := AllocateAll(ls[1..], c1).value.0;
      forall i | 0 <= i < |ls| ensures SameTree(ls[i], ([first] + rest)[i]) {
        if i > 0 { assert ls[i] == ls[1..][i - 1]; }
      }
    }
  }

  lemma {:induction false} AllocateNamed(l: Layout, n: FsNode)
    requires LayoutOk(l) && SameTree(l, n) && NodeOk(n)
    ensures Named(n)
    decreases l
  {
    if l.kind.Directory? {
      var cs := n.kind.children;
      forall i | 0 <= i < |cs| ensures NameOk(cs[i].name) && cs[i].inum < NINODES && Named(cs[i]) {
        ChildWithin(cs, i);
        AllocateNamed(l.kind.children[i], cs[i]);
      }
      forall i, j | 0 <= i < j < |cs| ensures cs[i].name != cs[j].name {
        assert SameTree(l.kind.children[i], cs[i]) && SameTree(l.kind.children[j], cs[j]);
      }
    }
  }

  // ---- paths ----

  /** The child with a name, from position `i` on. */
  function ChildFrom(ls: seq<Layout>, name: Name, i: nat): Option<nat>
    decreases |ls| - i
  {
    if i >= |ls| then None else if ls[i].name == name then Some(i) else ChildFrom(ls, name, i + 1)
  }

  lemma {:induction false} ChildFromFinds(ls: seq<Layout>, name: Name, i: nat)
    ensures match ChildFrom(ls, name, i)
            case None => forall j | i <= j < |ls| :: ls[j].name != name
            case Some(k) => i <= k < |ls| && ls[k].name == name && forall j | i <= j < k :: ls[j].name != name
    decreases |ls| - i
  {
    if i < |ls| && ls[i].name != name { ChildFromFinds(ls, name, i + 1); }
  }

  lemma {:induction false} ChildFromBound(ls: seq<Layout>, name: Name, i: nat)
    ensures ChildFrom(ls, name, i).Some? ==> ChildFrom(ls, name, i).value < |ls|
    decreases |ls| - i
  {
    if i < |ls| && ls[i].name != name { ChildFromBound(ls, name, i + 1); }
  }

  /** Where one component leads in the layout; `trail` leads from the root to where the walk is. */
  function Advance(trail: seq<Layout>, name: Name): (r: Result<seq<Layout>>)
    requires trail != []
    ensures r.Ok? ==> r.value != []
  {
    match trail[|trail| - 1].kind
    case Regular(_) => Err(Fs)
    case Directory(children) =>
      if name == DOT then Ok(trail)
      else if name == DOT_DOT then Ok(Above(trail))
      else
        var k := ChildFrom(children, name, 0);
        ChildFromBound(children, name, 0);
        if k.None? then Err(NotFound) else Ok(trail + [children[k.value]])
  }

  /** What a path means in the layout itself. */
  function Seek(trail: seq<Layout>, path: seq<Name>): Result<Layout>
    requires trail != []
    decreases |path|
  {
    if path == [] then Ok(trail[|trail| - 1])
    else
      match Advance(trail, path[0])
      case Err(e) => Err(e)
      case Ok(next) => Seek(next, path[1..])
  }

  /** One step up; the root is its own parent. */
  function Above<T>(trail: seq<T>): (up: seq<T>)
    requires trail != []
    ensures up != []
  {
    if |trail| == 1 then trail else trail[..|trail| - 1]
  }

  function NameAt(ls: seq<Layout>, i: nat): Name
    requires i < 2 + |ls|
  {
    if i == 0 then DOT else if i == 1 then DOT_DOT else ls[i - 2].name
  }

  lemma NodeEntryName(fs: Records, l: Layout, node: FsNode, parent: nat, i: nat)
    requires NodeOk(node) && NodeOn(fs, node, parent) && SameTree(l, node) && node.kind.NodeDir? && l.kind.Directory? && i < 2 + |l.kind.children|
    ensures var e := EntryAt(fs, RecordOf(node), i);
            && e.Some? && e.value.nameLen <= NAME_MAX && NameOf(e.value) == NameAt(l.kind.children, i)
            && e.value.inum == (if i == 0 then node.inum else if i == 1 then parent else node.kind.children[i - 2].inum)
  {
    NodeEntry(fs, node, parent, i);
    EntryNames(node, parent, i);
    if i >= 2 { assert SameTree(l.kind.children[i - 2], node.kind.children[i - 2]); }
  }

  lemma RecordEntries(l: Layout, node: FsNode)
    requires SameTree(l, node) && node.kind.NodeDir? && l.kind.Directory? && NodeSized(node)
    ensures EntryCount(RecordOf(node)) == 2 + |l.kind.children| && RecordOf(node).sz % DIRENT_SIZE == 0 && RecordOf(node).ty == DIRECTORY
    ensures |node.kind.children| == |l.kind.children|
  {}

  lemma OnSized(fs: Records, node: FsNode, parent: nat)
    requires NodeOn(fs, node, parent)
    ensures NodeSized(node)
  {}

  /** The entries of a directory of the image, by name. */
  ghost predicate Lists(fs: Records, ino: INode, ls: seq<Layout>) {
    && EntryCount(ino) == 2 + |ls| && ino.sz % DIRENT_SIZE == 0 && ino.ty == DIRECTORY
    && (forall i | 0 <= i < 2 + |ls| ::
          var e := EntryAt(fs, ino, i); e.Some? && e.value.nameLen <= NAME_MAX && NameOf(e.value) == NameAt(ls, i))
  }

  lemma NodeLists(fs: Records, l: Layout, node: FsNode, parent: nat)
    requires NodeOk(node) && NodeOn(fs, node, parent) && SameTree(l, node) && node.kind.NodeDir? && l.kind.Directory? && NodeSized(node)
    ensures Lists(fs, RecordOf(node), l.kind.children) && |node.kind.children| == |l.kind.children|
  {
    hide NodeOn, NodeOk, EntryAt, RecordOf, SameTree, NodeSized;
    RecordEntries(l, node);
    forall i | 0 <= i < 2 + |l.kind.children|
      ensures var e := EntryAt(fs, RecordOf(node), i); e.Some? && e.value.nameLen <= NAME_MAX && NameOf(e.value) == NameAt(l.kind.children, i)
    {
      NodeEntryName(fs, l, node, parent, i);
    }
  }

  lemma ListsFind(fs: Records, ino: INode, ls: seq<Layout>, name: Name)
    requires Lists(fs, ino, ls) && name != DOT && name != DOT_DOT
    ensures var k := ChildFrom(ls, name, 0);
            if k.None? then Find(fs, ino, name) == Err(NotFound)
            else EntryAt(fs, ino, k.value + 2).Some? && Find(fs, ino, name) == Ok(EntryAt(fs, ino, k.value + 2).value.inum)
  {
    hide EntryAt, FindFrom;
    ChildFromFinds(ls, name, 0);
    var k := ChildFrom(ls, name, 0);
    if k.Some? {
      FindFound(fs, ino, name, 0, k.value + 2);
    } else {
      FindMissing(fs, ino, name, 0);
    }
  }

  lemma ListsFindDots(fs: Records, ino: INode, ls: seq<Layout>)
    requires Lists(fs, ino, ls)
    ensures EntryAt(fs, ino, 0).Some? && Find(fs, ino, DOT) == Ok(EntryAt(fs, ino, 0).value.inum)
    ensures EntryAt(fs, ino, 1).Some? && Find(fs, ino, DOT_DOT) == Ok(EntryAt(fs, ino, 1).value.inum)
  {
    hide EntryAt, FindFrom;
    FindFound(fs, ino, DOT, 0, 0);
    FindFound(fs, ino, DOT_DOT, 0, 1);
  }

  /** Looking a name up in a directory of the image finds itself, the parent, the child with that name, or nothing. */
  lemma NodeFinds(fs: Records, l: Layout, node: FsNode, parent: nat, name: Name)
    requires NodeOk(node) && NodeOn(fs, node, parent) && SameTree(l, node) && node.kind.NodeDir? && l.kind.Directory? && node.inum < 0x1_0000_0000 && parent < 0x1_0000_0000
    ensures NodeSized(node)
    ensures var k := ChildFrom(l.kind.children, name, 0);
            Find(fs, RecordOf(node), name) ==
            if name == DOT then Ok(node.inum)
            else if name == DOT_DOT then Ok(parent)
            else if k.Some? && k.value < |node.kind.children| then Ok(node.kind.children[k.value].inum) else Err(NotFound)
  {
    hide NodeOn, NodeOk, EntryAt, RecordOf, SameTree, NodeSized, Lists, Find;
    OnSized(fs, node, parent);
    NodeLists(fs, l, node, parent);
    if name == DOT || name == DOT_DOT {
      ListsFindDots(fs, RecordOf(node), l.kind.children);
      NodeEntryName(fs, l, node, parent, if name == DOT then 0 else 1);
      return;
    }
    ListsFind(fs, RecordOf(node), l.kind.children, name);
    ChildFromBound(l.kind.children, name, 0);
    var k := ChildFrom(l.kind.children, name, 0);
    if k.Some? {
      NodeEntryName(fs, l, node, parent, k.value + 2);
    }
  }

  /** The node a path leads to is on the image and is the layout's node. */
  ghost predicate Reached(fs: Records, l: Layout, i: nat) {
    exists node: FsNode, parent: nat :: node.inum == i && NodeOk(node) && NodeOn(fs, node, parent) && SameTree(l, node)
  }

  function ParentInum(nodes: seq<FsNode>, k: nat): nat
    requires k < |nodes|
  {
    nodes[if k == 0 then 0 else k - 1].inum
  }

  /** The nodes of a trail are on the image, each the parent of the next. */
  ghost predicate OnTrail(fs: Records, trail: seq<Layout>, nodes: seq<FsNode>) {
    && trail != [] && |nodes| == |trail|
    && (forall k | 0 <= k < |nodes| :: OnStep(fs, trail[k], nodes[k], ParentInum(nodes, k)))
  }

  ghost predicate OnStep(fs: Records, l: Layout, node: FsNode, parent: nat) {
    NodeOk(node) && NodeOn(fs, node, parent) && SameTree(l, node)
  }

  lemma TrailUp(fs: Records, trail: seq<Layout>, nodes: seq<FsNode>)
    requires OnTrail(fs, trail, nodes)
    ensures OnTrail(fs, Above(trail), Above(nodes))
    ensures Above(nodes)[|Above(nodes)| - 1].inum == ParentInum(nodes, |nodes| - 1)
  {
    hide OnStep;
    var trail', nodes' := Above(trail), Above(nodes);
    forall k | 0 <= k < |nodes'| ensures OnStep(fs, trail'[k], nodes'[k], ParentInum(nodes', k)) {
      assert trail'[k] == trail[k] && nodes'[k] == nodes[k];
      assert ParentInum(nodes', k) == ParentInum(nodes, k);
      assert OnStep(fs, trail[k], nodes[k], ParentInum(nodes, k));
    }
  }

  lemma TrailDown(fs: Records, trail: seq<Layout>, nodes: seq<FsNode>, l: Layout, node: FsNode)
    requires OnTrail(fs, trail, nodes) && OnStep(fs, l, node, nodes[|nodes| - 1].inum)
    ensures OnTrail(fs, trail + [l], nodes + [node])
  {
    hide OnStep;
    var n := |nodes|;
    var trail', nodes' := trail + [l], nodes + [node];
    forall k | 0 <= k < n + 1 ensures OnStep(fs, trail'[k], nodes'[k], ParentInum(nodes', k)) {
      if k < n {
        assert trail'[k] == trail[k] && nodes'[k] == nodes[k];
        assert ParentInum(nodes', k) == ParentInum(nodes, k);
        assert OnStep(fs, trail[k], nodes[k], ParentInum(nodes, k));
      } else {
        assert ParentInum(nodes', n) == nodes[n - 1].inum;
      }
    }
  }

  /** Where one component leads from a directory of the image. */
  lemma StepFinds(fs: Records, l: Layout, node: FsNode, parent: nat, name: Name)
    requires OnStep(fs, l, node, parent)
    ensures node.inum < |fs.inodes| && (fs.inodes[node.inum].ty == FILE <==> l.kind.Regular?)
    ensures l.kind.Directory? ==>
              var r := Find(fs, fs.inodes[node.inum], name);
              var k := ChildFrom(l.kind.children, name, 0);
              if name == DOT then r.Ok? && r.value == node.inum
              else if name == DOT_DOT then r.Ok? && r.value == parent
              else if k.None? then r == Err(NotFound)
              else k.value < |l.kind.children| && node.kind.NodeDir? && k.value < |node.kind.children|
                   && r.Ok? && r.value == node.kind.children[k.value].inum
                   && OnStep(fs, l.kind.children[k.value], node.kind.children[k.value], node.inum)
  {
    assert fs.inodes[node.inum] == RecordOf(node);
    if l.kind.Directory? {
      hide Find, RecordOf, ChildFrom;
      NodeFinds(fs, l, node, parent, name);
      ChildFromBound(l.kind.children, name, 0);
      var k := ChildFrom(l.kind.children, name, 0);
      if k.Some? { ChildWithin(node.kind.children, k.value); }
    }
  }

  lemma LastStep(fs: Records, trail: seq<Layout>, nodes: seq<FsNode>)
    requires OnTrail(fs, trail, nodes)
    ensures trail != [] && |nodes| == |trail| && OnStep(fs, trail[|trail| - 1], nodes[|nodes| - 1], ParentInum(nodes, |nodes| - 1))
  {
    hide OnStep;
  }

  /** One component leads from a directory of the image where it leads in the layout. */
  lemma AdvanceAgrees(fs: Records, trail: seq<Layout>, nodes: seq<FsNode>, name: Name) returns (nodes': seq<FsNode>)
    requires OnTrail(fs, trail, nodes)
    ensures var i := nodes[|nodes| - 1].inum;
            && i < |fs.inodes|
            && match Advance(trail, name)
               case Err(e) => if fs.inodes[i].ty == FILE then e == Fs else Find(fs, fs.inodes[i], name) == Err(e)
               case Ok(next) =>
                 && OnTrail(fs, next, nodes') && fs.inodes[i].ty != FILE
                 && Find(fs, fs.inodes[i], name).Ok? && Find(fs, fs.inodes[i], name).value == nodes'[|nodes'| - 1].inum
  {
    hide OnStep, Find, OnTrail, ChildFrom, ParentInum;
    LastStep(fs, trail, nodes);
    nodes' := nodes;
    var n := |nodes| - 1;
    var l, node := trail[n], nodes[n];
    StepFinds(fs, l, node, ParentInum(nodes, n), name);
    if l.kind.Directory? && name == DOT_DOT {
      TrailUp(fs, trail, nodes);
      nodes' := Above(nodes);
    } else if l.kind.Directory? && name != DOT && ChildFrom(l.kind.children, name, 0).Some? {
      var k := ChildFrom(l.kind.children, name, 0).value;
      TrailDown(fs, trail, nodes, l.kind.children[k], node.kind.children[k]);
      nodes' := nodes + [node.kind.children[k]];
    }
  }

  /** On the image, every path leads where it leads in the layout. */
  lemma {:induction false} PathsAgree(fs: Records, trail: seq<Layout>, nodes: seq<FsNode>, path: seq<Name>)
    requires OnTrail(fs, trail, nodes)
    ensures var i := nodes[|nodes| - 1].inum;
            match Seek(trail, path)
            case Ok(m) => Resolve(fs, i, path).Ok? && Reached(fs, m, Resolve(fs, i, path).value)
            case Err(e) => Resolve(fs, i, path) == Err(e)
    decreases |path|
  {
    hide Find, Advance, OnStep;
    if path == [] {
      EndReached(fs, trail, nodes);
    } else {
      var nodes' := AdvanceAgrees(fs, trail, nodes, path[0]);
      var next := Advance(trail, path[0]);
      if next.Ok? { PathsAgree(fs, next.value, nodes', path[1..]); }
    }
  }

  lemma EndReached(fs: Records, trail: seq<Layout>, nodes: seq<FsNode>)
    requires OnTrail(fs, trail, nodes)
    ensures Reached(fs, trail[|trail| - 1], nodes[|nodes| - 1].inum)
  {
    LastStep(fs, trail, nodes);
  }

  // ---- contents ----

  lemma ContentByte(d: Disk, node: FsNode, k: nat, byte: Octet)
    requires Geometry(SUPER, d) && NodeSized(node) && ByteOn(View(d, SUPER), node, k, byte)
    requires MappedBlock(d, RecordOf(node), k / BLOCK) == node.blocks[k / BLOCK] && DataBlockNumber(SUPER, node.blocks[k / BLOCK])
    ensures Location(d, RecordOf(node), k) < Size(d) && Peek(d, Location(d, RecordOf(node), k)) == byte
  {}

  /** The kernel reads from the image exactly the data of the file. */
  lemma FileContents(d: Disk, node: FsNode, parent: nat)
    requires Geometry(SUPER, d) && NodeOk(node) && NodeOn(View(d, SUPER), node, parent) && node.kind.NodeFile?
    ensures FileOk(d, RecordOf(node)) && Contents(d, RecordOf(node)) == node.kind.data
  {
    var ino := RecordOf(node);
    var data := node.kind.data;
    assert ino.sz == |data| && BytesOn(View(d, SUPER), node, data);
    NodeBlockNumbers(d, node);
    hide View, Geometry, NodeOk, NodeOn, RecordOf, FileOk, MappedBlock, Location, ByteOn;
    forall k | 0 <= k < |data| ensures Location(d, ino, k) < Size(d) && Peek(d, Location(d, ino, k)) == data[k] {
      assert ByteOn(View(d, SUPER), node, k, data[k]);
      ByteInside(View(d, SUPER), node, k, data[k]);
      ContentByte(d, node, k, data[k]);
    }
    assert Contents(d, ino) == data;
  }

  lemma ByteInside(fs: Records, node: FsNode, k: nat, byte: Octet)
    requires ByteOn(fs, node, k, byte)
    ensures k / BLOCK < |node.blocks|
  {}

  lemma NodeBlockNumbers(d: Disk, node: FsNode)
    requires Geometry(SUPER, d) && NodeOk(node) && NodeSized(node) && IndirectOn(View(d, SUPER), node)
    ensures forall j | 0 <= j < |node.blocks| :: MappedBlock(d, RecordOf(node), j) == node.blocks[j] && DataBlockNumber(SUPER, node.blocks[j])
    ensures FileOk(d, RecordOf(node))
  {
    var ino := RecordOf(node);
    RecordBlocks(View(d, SUPER), node);
    forall j | 0 <= j < |node.blocks| ensures MappedBlock(d, ino, j) == node.blocks[j] && DataBlockNumber(SUPER, node.blocks[j]) {
      SameBlockNumber(d, SUPER, ino, j);
      assert node.blocks[j] in OwnBlocks(node);
    }
    assert |node.blocks| > DIRECT_BLOCKS ==> node.indirect in OwnBlocks(node);
    forall i, j | 0 <= i < j < |node.blocks| ensures MappedBlock(d, ino, i) != MappedBlock(d, ino, j) {
      assert node.blocks[i] != node.blocks[j];
    }
  }

  // ---- the tool as a whole ----

  /** What the tool accepts and what it makes of it. */
  lemma AcceptedTree(l: Layout)
    requires LayoutOk(l) && AllocateLayout(l).Some?
    ensures var root := AllocateLayout(l).value;
            root.inum == ROOT && NodeOk(root) && Named(root) && SameTree(l, root)
    ensures exists inums: nat, blocks: nat ::
              && Inums(AllocateLayout(l).value) == Span(ROOT, inums) && NodeBlocks(AllocateLayout(l).value) == Span(DATA_BLOCK_START, blocks)
  {
    var c := Counters(ROOT, DATA_BLOCK_START);
    AllocateExact(l, c);
    AllocateSame(l, c);
    var (root, c') := Allocate(l, c).value;
    AllocateNamed(l, root);
    assert Inums(root) == Span(ROOT, c'.inum) && NodeBlocks(root) == Span(DATA_BLOCK_START, c'.block);
  }

  lemma ViewShape(d: Disk)
    requires Geometry(SUPER, d)
    ensures Shape(View(d, SUPER), SUPER)
  {}

  /** Lays out, allocates and writes an image. */
  method MakeImage(l: Layout) returns (r: Option<Disk>)
    requires LayoutOk(l) && l.kind.Directory?
    ensures r.Some? <==> AllocateLayout(l).Some?
    ensures r.Some? ==> Geometry(SUPER, r.value) && Mounts(r.value) && FsOk(View(r.value, SUPER), SUPER)
    ensures r.Some? ==> Holds(View(r.value, SUPER), AllocateLayout(l).value)
  {
    hide View, Geometry, FsOk, Holds, NodeOk, Named, SameTree, Mounts;
    var root := AllocateLayout(l);
    if root.None? {
      return None;
    }
    AcceptedTree(l);
    DirRoot(l, root.value);
    var img := new Image();
    img.WriteImage(root.value);
    ViewShape(img.disk);
    ImageOk(View(img.disk, SUPER), root.value);
    r := Some(img.disk);
  }

  lemma DirRoot(l: Layout, node: FsNode)
    requires SameTree(l, node) && l.kind.Directory?
    ensures node.kind.NodeDir?
  {}

  /**
   Image round trip: on the image of any accepted layout, a path, "." and ".." included, leads to a
   file exactly when it does in the layout, and the kernel reads that file's bytes.
   */
  lemma RoundTrip(l: Layout, d: Disk, path: seq<Name>)
    requires LayoutOk(l) && AllocateLayout(l).Some? && Geometry(SUPER, d) && Holds(View(d, SUPER), AllocateLayout(l).value)
    ensures match Seek([l], path)
            case Err(e) => Resolve(View(d, SUPER), ROOT, path) == Err(e)
            case Ok(m) =>
              var i := Resolve(View(d, SUPER), ROOT, path);
              && i.Ok? && i.value < |View(d, SUPER).inodes|
              && var ino := View(d, SUPER).inodes[i.value];
              match m.kind
              case Directory(_) => ino.ty == DIRECTORY
              case Regular(data) => ino.ty == FILE && FileOk(d, ino) && Contents(d, ino) == data
  {
    hide View, Geometry, NodeOk, Named, SameTree, NodeOn, FileOk, RecordOf, OnStep, OnTrail, Holds, LayoutOk, Seek, Resolve, AllocateLayout, Contents;
    var root := AllocateLayout(l).value;
    var fs := View(d, SUPER);
    RootTrail(l, fs);
    PathsAgree(fs, [l], [root], path);
    match Seek([l], path)
    case Err(_) =>
    case Ok(m) =>
      var i := Resolve(fs, ROOT, path).value;
      assert Reached(fs, m, i);
      var node: FsNode, parent: nat :| node.inum == i && NodeOk(node) && NodeOn(fs, node, parent) && SameTree(m, node);
      ReachedRecord(fs, m, node, parent);
      if m.kind.Regular? { FileContents(d, node, parent); }
  }

  lemma RootTrail(l: Layout, fs: Records)
    requires LayoutOk(l) && AllocateLayout(l).Some? && Holds(fs, AllocateLayout(l).value)
    ensures OnTrail(fs, [l], [AllocateLayout(l).value]) && AllocateLayout(l).value.inum == ROOT
  {
    AcceptedTree(l);
    var root := AllocateLayout(l).value;
    assert OnStep(fs, l, root, ROOT);
    hide OnStep;
    assert OnTrail(fs, [l], [root]);
  }

  lemma ReachedRecord(fs: Records, m: Layout, node: FsNode, parent: nat)
    requires NodeOn(fs, node, parent) && SameTree(m, node)
    ensures NodeSized(node) && node.inum < |fs.inodes| && fs.inodes[node.inum] == RecordOf(node)
    ensures m.kind.Directory? ==> RecordOf(node).ty == DIRECTORY
    ensures m.kind.Regular? ==> RecordOf(node).ty == FILE && node.kind == NodeFile(m.kind.data)
  {}
}
