/**
 The image tool's encoder and its agreement with the kernel's decoder: for every layout tree the
 tool accepts, the image holds exactly that tree.
 */
module VsfsImage {
  import opened Basics
  import opened VsfsDisk
  import opened VsfsFile
  import opened VsfsRecords
  import opened VsfsTree
  import opened VsfsLayout

  const SUPER: Super := Super(NBLOCKS, NINODES, 1, 2, 3, 5, DATA_BLOCK_START)

  const DOT: Name := [46]
  const DOT_DOT: Name := [46, 46]

  // ---- what the tool writes for a node ----

  /** Names fit their field and are neither empty nor one of the two every directory has. */
  predicate NameOk(name: Name) {
    0 < |name| <= NAME_MAX && name != DOT && name != DOT_DOT
  }

  /** The inode record of a node. */
  function RecordOf(node: FsNode): INode
    requires NodeSized(node)
  {
    INode(if node.kind.NodeDir? then DIRECTORY else FILE, 1, 0, SizeOf(node),
          seq(DIRECT_BLOCKS, j requires 0 <= j < DIRECT_BLOCKS => DirectOf(node, j)), node.indirect)
  }

  /** `direct_blocks`. */
  function DirectOf(node: FsNode, j: nat): U32
    requires NodeSized(node)
  {
    if j < |node.blocks| then node.blocks[j] else 0
  }

  predicate NodeSized(node: FsNode) {
    SizeOf(node) < 0x1_0000_0000 && node.indirect < 0x1_0000_0000 && forall j | 0 <= j < |node.blocks| :: node.blocks[j] < 0x1_0000_0000
  }

  lemma OkSized(node: FsNode)
    requires NodeOk(node)
    ensures NodeSized(node)
  {
    forall j | 0 <= j < |node.blocks| ensures node.blocks[j] < 0x1_0000_0000 { assert node.blocks[j] in OwnBlocks(node); }
    assert |node.blocks| > DIRECT_BLOCKS ==> node.indirect in OwnBlocks(node);
  }

  /** The entries of a directory: itself, its parent, its children. */
  function EntriesOf(node: FsNode, parent: nat): (es: seq<DirEnt>)
    requires node.kind.NodeDir? && node.inum < 0x1_0000_0000 && parent < 0x1_0000_0000
    requires forall i | 0 <= i < |node.kind.children| :: |node.kind.children[i].name| <= NAME_MAX && node.kind.children[i].inum < 0x1_0000_0000
    ensures |es| == 2 + |node.kind.children|
  {
    var cs := node.kind.children;
    [EntryFor(node.inum, DOT), EntryFor(parent, DOT_DOT)]
    + seq(|cs|, i requires 0 <= i < |cs| => EntryFor(cs[i].inum, cs[i].name))
  }

  function EntriesBytes(es: seq<DirEnt>): (s: seq<Octet>)
    ensures |s| == DIRENT_SIZE * |es|
  {
    seq<Octet>(DIRENT_SIZE * |es|, i requires 0 <= i < DIRENT_SIZE * |es| => DirEntBytes(es[i / DIRENT_SIZE])[i % DIRENT_SIZE])
  }

  lemma EntryBytes(es: seq<DirEnt>, i: nat)
    requires i < |es|
    ensures EntriesBytes(es)[i * DIRENT_SIZE..i * DIRENT_SIZE + DIRENT_SIZE] == DirEntBytes(es[i])
  {}

  /** The names in a subtree are fit to be written, and inode numbers fit their field. */
  ghost predicate Named(node: FsNode)
    decreases node
  {
    && node.inum < NINODES
    && (node.kind.NodeDir? ==>
          && (forall i | 0 <= i < |node.kind.children| :: NameOk(node.kind.children[i].name) && node.kind.children[i].inum < NINODES && Named(node.kind.children[i]))
          && (forall i, j | 0 <= i < j < |node.kind.children| :: node.kind.children[i].name != node.kind.children[j].name))
  }

  /** The bytes of a node: the file's data, or the directory's entries. */
  function Payload(node: FsNode, parent: nat): seq<Octet>
    requires node.inum < 0x1_0000_0000 && parent < 0x1_0000_0000
    requires node.kind.NodeDir? ==> forall i | 0 <= i < |node.kind.children| ::
                 |node.kind.children[i].name| <= NAME_MAX && node.kind.children[i].inum < 0x1_0000_0000
  {
    match node.kind
    case NodeFile(data) => data
    case NodeDir(children) => EntriesBytes(EntriesOf(node, parent))
  }

  // ---- what the records must hold ----

  ghost predicate BytesOn(fs: Records, node: FsNode, s: seq<Octet>) {
    forall k | 0 <= k < |s| :: ByteOn(fs, node, k, s[k])
  }

  predicate ByteOn(fs: Records, node: FsNode, k: nat, b: Octet) {
    && k / BLOCK < |node.blocks| && node.blocks[k / BLOCK] in fs.data && |fs.data[node.blocks[k / BLOCK]]| == BLOCK
    && fs.data[node.blocks[k / BLOCK]][k % BLOCK] == b
  }

  ghost predicate IndirectOn(fs: Records, node: FsNode) {
    |node.blocks| > DIRECT_BLOCKS ==>
      && node.indirect in fs.data && |fs.data[node.indirect]| == BLOCK
      && (forall j | DIRECT_BLOCKS <= j < |node.blocks| && j < MAX_DATA_BLOCKS :: PointerOn(fs.data[node.indirect], j, node.blocks[j]))
  }

  predicate PointerOn(block: seq<Octet>, j: nat, b: nat)
    requires |block| == BLOCK && DIRECT_BLOCKS <= j < MAX_DATA_BLOCKS
  {
    WordAt(block, (j - DIRECT_BLOCKS) * 4) == b
  }

  /** The records hold this subtree. */
  ghost predicate NodeOn(fs: Records, node: FsNode, parent: nat)
    decreases node
  {
    && Named(node) && parent < NINODES && NodeSized(node)
    && node.inum < |fs.inodes| && fs.inodes[node.inum] == RecordOf(node)
    && BytesOn(fs, node, Payload(node, parent)) && IndirectOn(fs, node)
    && (node.kind.NodeDir? ==> forall i | 0 <= i < |node.kind.children| :: NodeOn(fs, node.kind.children[i], node.inum))
  }

  /** `fs'` differs from `fs` at most in the inodes and blocks given. */
  ghost predicate Only(fs: Records, fs': Records, inums: set<nat>, blocks: set<nat>) {
    && |fs'.inodes| == |fs.inodes| && fs'.inodeBits == fs.inodeBits && fs'.dataBits == fs.dataBits
    && (forall i: nat | i < |fs.inodes| && i !in inums :: fs'.inodes[i] == fs.inodes[i])
    && fs'.data.Keys == fs.data.Keys
    && (forall b | b in fs.data && b !in blocks :: fs'.data[b] == fs.data[b])
  }

  lemma OnlySame(fs: Records, inums: set<nat>, blocks: set<nat>)
    ensures Only(fs, fs, inums, blocks)
  {}

  lemma OnlyTrans(f0: Records, f1: Records, f2: Records, i1: set<nat>, b1: set<nat>, i2: set<nat>, b2: set<nat>)
    requires Only(f0, f1, i1, b1) && Only(f1, f2, i2, b2)
    ensures Only(f0, f2, i1 + i2, b1 + b2)
  {}

  lemma BytesKept(fs: Records, fs': Records, node: FsNode, s: seq<Octet>, inums: set<nat>, blocks: set<nat>)
    requires BytesOn(fs, node, s) && Only(fs, fs', inums, blocks) && blocks !! OwnBlocks(node)
    ensures BytesOn(fs', node, s)
  {}

  /** A subtree stays while others are written. */
  lemma {:induction false} NodeKept(fs: Records, fs': Records, node: FsNode, parent: nat, inums: set<nat>, blocks: set<nat>)
    requires NodeOn(fs, node, parent) && Only(fs, fs', inums, blocks)
    requires inums !! Inums(node) && blocks !! NodeBlocks(node)
    ensures NodeOn(fs', node, parent)
    decreases node
  {
    BytesKept(fs, fs', node, Payload(node, parent), inums, blocks);
    assert |node.blocks| > DIRECT_BLOCKS ==> node.indirect in OwnBlocks(node);
    if node.kind.NodeDir? {
      var cs := node.kind.children;
      forall i | 0 <= i < |cs| ensures NodeOn(fs', cs[i], node.inum) {
        ChildWithin(cs, i);
        NodeKept(fs, fs', cs[i], node.inum, inums, blocks);
      }
    }
  }

  lemma {:induction false} ChildWithin(nodes: seq<FsNode>, i: nat)
    requires i < |nodes|
    ensures Inums(nodes[i]) <= AllInums(nodes) && NodeBlocks(nodes[i]) <= AllBlocks(nodes)
    ensures AllOk(nodes) ==> NodeOk(nodes[i])
    decreases nodes
  {
    if i > 0 { ChildWithin(nodes[1..], i - 1); }
  }

  lemma {:induction false} ChildrenApart(nodes: seq<FsNode>, i: nat, j: nat)
    requires AllOk(nodes) && i < j < |nodes|
    ensures Inums(nodes[i]) !! Inums(nodes[j]) && NodeBlocks(nodes[i]) !! NodeBlocks(nodes[j])
    decreases nodes
  {
    if i > 0 {
      ChildrenApart(nodes[1..], i - 1, j - 1);
    } else {
      ChildWithin(nodes[1..], j - 1);
    }
  }

  // ---- writing ----

  /** The `j`-th block's worth of a payload. */
  function Chunk(s: seq<Octet>, j: nat): (c: seq<Octet>)
    requires j * BLOCK <= |s|
    ensures |c| <= BLOCK
  {
    s[j * BLOCK..if (j + 1) * BLOCK <= |s| then (j + 1) * BLOCK else |s|]
  }

  /** The pointers that do not fit the record, padded with zeros. */
  function IndirectPointers(node: FsNode): (ws: seq<U32>)
    requires NodeSized(node)
    ensures |ws| == INDIRECT_ENTRIES && forall i | 0 <= i < INDIRECT_ENTRIES :: ws[i] == DirectOf(node, DIRECT_BLOCKS + i)
  {
    seq<U32>(INDIRECT_ENTRIES, i requires 0 <= i < INDIRECT_ENTRIES => DirectOf(node, DIRECT_BLOCKS + i))
  }

  /** The indirect block of a node. */
  function IndirectBytes(node: FsNode): (s: seq<Octet>)
    requires NodeSized(node)
    ensures |s| == BLOCK
  {
    WordsBytes(IndirectPointers(node))
  }

  lemma IndirectPointer(node: FsNode, j: nat)
    requires NodeSized(node) && DIRECT_BLOCKS <= j < |node.blocks| <= MAX_DATA_BLOCKS
    ensures PointerOn(IndirectBytes(node), j, node.blocks[j])
  {}

  /** The first block, which holds the superblock, is the same. */
  ghost predicate SameBoot(d: Disk, d': Disk) {
    |d'| == |d| && forall x: nat | x < BLOCK && x < Size(d) :: Peek(d', x) == Peek(d, x)
  }

  lemma PatchBoot(d: Disk, a: nat, bytes: seq<Octet>, d': Disk)
    requires Patched(d, a, bytes, d') && BLOCK <= a
    ensures SameBoot(d, d')
  {}

  lemma BootTrans(d: Disk, d1: Disk, d2: Disk)
    requires SameBoot(d, d1) && SameBoot(d1, d2)
    ensures SameBoot(d, d2)
  {}

  class Image {
    var disk: Disk

    /** A new image file: the right length, all zero. */
    constructor ()
      ensures Geometry(SUPER, disk)
      ensures forall a: nat | a < Size(disk) :: Peek(disk, a) == 0
    {
      disk := seq(NBLOCKS * SECTORS_PER_BLOCK, _ => seq(SECTOR, _ => 0));
    }

    /** `write_struct` and `write_at_block`: bytes at an offset of the file. */
    method WriteAt(a: nat, bytes: seq<Octet>)
      requires a + |bytes| <= Size(disk)
      modifies this
      ensures Patched(old(disk), a, bytes, disk)
    {
      disk := Patch(disk, a, bytes);
    }

    /** `write_dir_inode` and the inode part of `write_file`. */
    method WriteRecord(node: FsNode)
      requires Geometry(SUPER, disk) && NodeOk(node) && NodeSized(node)
      modifies this
      ensures Geometry(SUPER, disk) && node.inum < |View(disk, SUPER).inodes| && View(disk, SUPER).inodes[node.inum] == RecordOf(node)
      ensures Only(old(View(disk, SUPER)), View(disk, SUPER), {node.inum}, {}) && SameBoot(old(disk), disk)
    {
      hide Patched, NodeOk, View, SameBoot;
      InumInTable(node);
      ghost var d := disk;
      WriteAt(3 * BLOCK + node.inum * INODE_SIZE, InodeBytes(RecordOf(node)));
      InodeWritten(d, disk, SUPER, node.inum, RecordOf(node));
      PatchBoot(d, InodeAddress(SUPER, node.inum), InodeBytes(RecordOf(node)), disk);
      ViewTable(d);
    }

    /** One block of a node's payload. */
    method WriteBlock(b: nat, bytes: seq<Octet>)
      requires Geometry(SUPER, disk) && DataBlockNumber(SUPER, b) && |bytes| <= BLOCK
      modifies this
      ensures Geometry(SUPER, disk) && Only(old(View(disk, SUPER)), View(disk, SUPER), {}, {b}) && SameBoot(old(disk), disk)
      ensures b in View(disk, SUPER).data && |View(disk, SUPER).data[b]| == BLOCK
      ensures forall o | 0 <= o < |bytes| :: View(disk, SUPER).data[b][o] == bytes[o]
    {
      hide Patched, View, SameBoot;
      ghost var d := disk;
      WriteAt(b * BLOCK, bytes);
      DataWritten(d, disk, SUPER, b, 0, bytes);
      PatchBoot(d, b * BLOCK, bytes, disk);
    }

    /** `write_indirect_block`. */
    method WriteIndirect(node: FsNode)
      requires Geometry(SUPER, disk) && NodeOk(node) && NodeSized(node)
      modifies this
      ensures Geometry(SUPER, disk) && IndirectOn(View(disk, SUPER), node) && SameBoot(old(disk), disk)
      ensures Only(old(View(disk, SUPER)), View(disk, SUPER), {}, if |node.blocks| > DIRECT_BLOCKS then {node.indirect} else {})
    {
      hide View, Geometry;
      if |node.blocks| > DIRECT_BLOCKS {
        assert node.indirect in OwnBlocks(node);
        WriteBlock(node.indirect, IndirectBytes(node));
        ghost var block := View(disk, SUPER).data[node.indirect];
        assert block == IndirectBytes(node);
        forall j | DIRECT_BLOCKS <= j < |node.blocks| ensures PointerOn(block, j, node.blocks[j]) {
          IndirectPointer(node, j);
        }
      }
    }

    /** The loops of `write_file` and `write_dir_blocks`: a payload, block by block. */
    method WritePayload(node: FsNode, s: seq<Octet>)
      requires Geometry(SUPER, disk) && NodeOk(node) && |s| == SizeOf(node)
      modifies this
      ensures Geometry(SUPER, disk) && BytesOn(View(disk, SUPER), node, s) && SameBoot(old(disk), disk)
      ensures Only(old(View(disk, SUPER)), View(disk, SUPER), {}, FirstBlocks(node, |node.blocks|))
    {
      hide View, Geometry, NodeOk;
      ghost var d := disk;
      PayloadFits(node, s);
      ghost var fs := View(disk, SUPER);
      var j := 0;
      while j < |node.blocks|
        invariant 0 <= j <= |node.blocks| && Geometry(SUPER, disk) && SameBoot(d, disk)
        invariant Only(fs, View(disk, SUPER), {}, FirstBlocks(node, j))
        invariant forall k | 0 <= k < |s| && k < j * BLOCK :: ByteOn(View(disk, SUPER), node, k, s[k])
      {
        ghost var f1 := View(disk, SUPER);
        BlockOfPayload(node, s, j);
        WriteBlock(node.blocks[j], Chunk(s, j));
        PayloadNext(fs, f1, View(disk, SUPER), node, s, j);
        j := j + 1;
      }
    }

    /** `write_inode_bitmap`. */
    method WriteInodeBitmap(root: FsNode)
      requires Geometry(SUPER, disk) && NodeOk(root)
      modifies this
      ensures Geometry(SUPER, disk) && View(disk, SUPER) == old(View(disk, SUPER)).(inodeBits := Inums(root)) && SameBoot(old(disk), disk)
    {
      hide View, Geometry, Patched, NodeOk;
      var bitmap := new Octet[BLOCK](_ => 0);
      NoBits(bitmap[..]);
      MarkInums(root, bitmap);
      InumsWithin(root);
      ghost var d := disk;
      BitmapPlace(d);
      WriteAt(SUPER.inodeBitmap * BLOCK, bitmap[..]);
      InodeBitmapWritten(d, disk, bitmap[..], Inums(root));
      PatchBoot(d, SUPER.inodeBitmap * BLOCK, bitmap[..], disk);
    }

    /** `write_data_bitmap`. */
    method WriteDataBitmap(root: FsNode)
      requires Geometry(SUPER, disk) && NodeOk(root)
      modifies this
      ensures Geometry(SUPER, disk) && View(disk, SUPER) == old(View(disk, SUPER)).(dataBits := Offsets(NodeBlocks(root))) && SameBoot(old(disk), disk)
    {
      hide View, Geometry, Patched, NodeOk;
      var bitmap := new Octet[BLOCK](_ => 0);
      NoBits(bitmap[..]);
      MarkBlocks(root, bitmap);
      BlocksWithin(root);
      OffsetsSmall(NodeBlocks(root));
      ghost var d := disk;
      BitmapPlace(d);
      WriteAt(SUPER.dataBitmap * BLOCK, bitmap[..]);
      DataBitmapWritten(d, disk, bitmap[..], Offsets(NodeBlocks(root)));
      PatchBoot(d, SUPER.dataBitmap * BLOCK, bitmap[..], disk);
    }

    /** `write_node`: the node and everything below it. */
    method WriteNode(node: FsNode, parent: nat)
      requires Geometry(SUPER, disk) && NodeOk(node) && Named(node) && parent < NINODES
      modifies this
      ensures Geometry(SUPER, disk) && NodeOn(View(disk, SUPER), node, parent) && SameBoot(old(disk), disk)
      ensures Only(old(View(disk, SUPER)), View(disk, SUPER), Inums(node), NodeBlocks(node))
      decreases node
    {
      hide View, Geometry, NodeOk, Only, BytesOn, IndirectOn;
      OkSized(node);
      ghost var d := disk;
      ghost var f0 := View(disk, SUPER);
      WriteIndirect(node);
      ghost var f1 := View(disk, SUPER);
      WriteRecord(node);
      ghost var f2 := View(disk, SUPER);
      PayloadSize(node, parent);
      WritePayload(node, Payload(node, parent));
      ghost var f3 := View(disk, SUPER);
      SelfWritten(f0, f1, f2, f3, node, parent);
      if node.kind.NodeDir? {
        var cs := node.kind.children;
        OnlySame(f3, AllInums(cs), AllBlocks(cs));
        var i := 0;
        while i < |cs|
          invariant 0 <= i <= |cs| && Geometry(SUPER, disk) && SameBoot(d, disk)
          invariant Only(f3, View(disk, SUPER), AllInums(cs), AllBlocks(cs))
          invariant forall j | 0 <= j < i :: NodeOn(View(disk, SUPER), cs[j], node.inum)
        {
          ghost var g := View(disk, SUPER);
          ChildReady(node, i);
          WriteNode(cs[i], node.inum);
          ChildWritten(f3, g, View(disk, SUPER), node, i);
          i := i + 1;
        }
        DirWritten(f0, f3, View(disk, SUPER), node, parent);
      } else {
        FileWritten(f0, f3, node, parent);
      }
    }

    /** `write_superblock`. */
    method WriteSuper()
      requires Geometry(SUPER, disk)
      modifies this
      ensures Geometry(SUPER, disk) && View(disk, SUPER) == old(View(disk, SUPER)) && Bytes(disk, 0, 32) == SuperBytes(SUPER)
    {
      ghost var d := disk;
      WriteAt(0, SuperBytes(SUPER));
      SuperWritten(d, disk);
    }

    /** `write_image`: the superblock, the bitmaps, then the tree. */
    method WriteImage(root: FsNode)
      requires Geometry(SUPER, disk) && NodeOk(root) && Named(root)
      modifies this
      ensures Geometry(SUPER, disk) && Mounts(disk)
      ensures Holds(View(disk, SUPER), root)
    {
      hide View, Geometry, NodeOk, NodeOn, Only, SameBoot, SuperBytes;
      WriteSuper();
      ghost var d := disk;
      BootSize(d);
      WriteInodeBitmap(root);
      BootTrans(d, d, disk);
      ghost var d1 := disk;
      WriteDataBitmap(root);
      BootTrans(d, d1, disk);
      ghost var d2 := disk;
      ghost var fs := View(disk, SUPER);
      WriteNode(root, ROOT);
      BootTrans(d, d2, disk);
      BootMounts(d, disk);
      OnlyBits(fs, View(disk, SUPER), Inums(root), NodeBlocks(root));
    }
  }

  lemma InumInTable(node: FsNode)
    requires NodeOk(node)
    ensures 0 < node.inum < NINODES
  {}

  lemma ViewTable(d: Disk)
    requires Geometry(SUPER, d)
    ensures |View(d, SUPER).inodes| == NINODES
  {}

  ghost function FirstBlocks(node: FsNode, n: nat): set<nat>
    requires n <= |node.blocks|
  {
    set j | 0 <= j < n :: node.blocks[j]
  }

  lemma PayloadFits(node: FsNode, s: seq<Octet>)
    requires NodeOk(node) && |s| == SizeOf(node)
    ensures |s| <= |node.blocks| * BLOCK
  {}

  lemma BlockOfPayload(node: FsNode, s: seq<Octet>, j: nat)
    requires NodeOk(node) && |s| == SizeOf(node) && j < |node.blocks|
    ensures j * BLOCK <= |s| && DataBlockNumber(SUPER, node.blocks[j])
    ensures forall i | 0 <= i < |node.blocks| && i != j :: node.blocks[i] != node.blocks[j]
  {
    assert node.blocks[j] in OwnBlocks(node);
  }

  lemma PayloadNext(fs: Records, f1: Records, f2: Records, node: FsNode, s: seq<Octet>, j: nat)
    requires j < |node.blocks| && j * BLOCK <= |s|
    requires forall i | 0 <= i < |node.blocks| && i != j :: node.blocks[i] != node.blocks[j]
    requires Only(fs, f1, {}, FirstBlocks(node, j)) && Only(f1, f2, {}, {node.blocks[j]})
    requires node.blocks[j] in f2.data && |f2.data[node.blocks[j]]| == BLOCK
    requires forall o | 0 <= o < |Chunk(s, j)| :: f2.data[node.blocks[j]][o] == Chunk(s, j)[o]
    requires forall k | 0 <= k < |s| && k < j * BLOCK :: ByteOn(f1, node, k, s[k])
    ensures Only(fs, f2, {}, FirstBlocks(node, j + 1))
    ensures forall k | 0 <= k < |s| && k < (j + 1) * BLOCK :: ByteOn(f2, node, k, s[k])
  {
    assert FirstBlocks(node, j + 1) == FirstBlocks(node, j) + {node.blocks[j]};
    OnlyTrans(fs, f1, f2, {}, FirstBlocks(node, j), {}, {node.blocks[j]});
    forall k | 0 <= k < |s| && k < (j + 1) * BLOCK ensures ByteOn(f2, node, k, s[k]) {
      if k < j * BLOCK {
        assert ByteOn(f1, node, k, s[k]);
        assert k / BLOCK < j;
      } else {
        assert k / BLOCK == j && k % BLOCK == k - j * BLOCK;
        assert Chunk(s, j)[k - j * BLOCK] == s[k];
      }
    }
  }

  lemma PayloadSize(node: FsNode, parent: nat)
    requires Named(node) && parent < NINODES
    ensures |Payload(node, parent)| == SizeOf(node)
  {}

  /** The node itself is on the image, its children aside. */
  ghost predicate SelfOn(fs: Records, node: FsNode, parent: nat) {
    && Named(node) && parent < NINODES && NodeSized(node)
    && node.inum < |fs.inodes| && fs.inodes[node.inum] == RecordOf(node)
    && BytesOn(fs, node, Payload(node, parent)) && IndirectOn(fs, node)
  }

  lemma SelfWritten(f0: Records, f1: Records, f2: Records, f3: Records, node: FsNode, parent: nat)
    requires NodeOk(node) && Named(node) && parent < NINODES && NodeSized(node)
    requires Only(f0, f1, {}, if |node.blocks| > DIRECT_BLOCKS then {node.indirect} else {}) && IndirectOn(f1, node)
    requires Only(f1, f2, {node.inum}, {}) && node.inum < |f2.inodes| && f2.inodes[node.inum] == RecordOf(node)
    requires Only(f2, f3, {}, FirstBlocks(node, |node.blocks|)) && BytesOn(f3, node, Payload(node, parent))
    ensures SelfOn(f3, node, parent) && Only(f0, f3, {node.inum}, OwnBlocks(node))
  {}

  lemma ChildReady(node: FsNode, i: nat)
    requires NodeOk(node) && Named(node) && node.kind.NodeDir? && i < |node.kind.children|
    ensures NodeOk(node.kind.children[i]) && Named(node.kind.children[i]) && node.inum < NINODES
  {
    ChildWithin(node.kind.children, i);
  }

  lemma ChildWritten(f3: Records, g: Records, g': Records, node: FsNode, i: nat)
    requires NodeOk(node) && node.kind.NodeDir? && i < |node.kind.children|
    requires var cs := node.kind.children;
             && Only(f3, g, AllInums(cs), AllBlocks(cs)) && Only(g, g', Inums(cs[i]), NodeBlocks(cs[i]))
             && (forall j | 0 <= j < i :: NodeOn(g, cs[j], node.inum))
    ensures var cs := node.kind.children;
            && Only(f3, g', AllInums(cs), AllBlocks(cs))
            && (forall j | 0 <= j < i :: NodeOn(g', cs[j], node.inum))
  {
    var cs := node.kind.children;
    ChildWithin(cs, i);
    OnlyTrans(f3, g, g', AllInums(cs), AllBlocks(cs), Inums(cs[i]), NodeBlocks(cs[i]));
    assert AllInums(cs) + Inums(cs[i]) == AllInums(cs) && AllBlocks(cs) + NodeBlocks(cs[i]) == AllBlocks(cs);
    forall j | 0 <= j < i ensures NodeOn(g', cs[j], node.inum) {
      ChildrenApart(cs, j, i);
      NodeKept(g, g', cs[j], node.inum, Inums(cs[i]), NodeBlocks(cs[i]));
    }
  }

  lemma DirWritten(f0: Records, f3: Records, f4: Records, node: FsNode, parent: nat)
    requires NodeOk(node) && node.kind.NodeDir? && SelfOn(f3, node, parent) && Only(f0, f3, {node.inum}, OwnBlocks(node))
    requires var cs := node.kind.children;
             Only(f3, f4, AllInums(cs), AllBlocks(cs)) && forall j | 0 <= j < |cs| :: NodeOn(f4, cs[j], node.inum)
    ensures NodeOn(f4, node, parent) && Only(f0, f4, Inums(node), NodeBlocks(node))
  {}

  lemma FileWritten(f0: Records, f3: Records, node: FsNode, parent: nat)
    requires node.kind.NodeFile? && SelfOn(f3, node, parent) && Only(f0, f3, {node.inum}, OwnBlocks(node))
    ensures NodeOn(f3, node, parent) && Only(f0, f3, Inums(node), NodeBlocks(node))
  {}

  // ---- bitmaps ----

  /** The bits set in a bitmap. */
  ghost function BitsOf(s: seq<Octet>): (r: set<nat>)
    ensures forall k: nat :: k in r <==> k < 8 * |s| && BitOf(s[k / 8], k % 8)
  {
    set k: nat | k < 8 * |s| && BitOf(s[k / 8], k % 8)
  }

  lemma NoBits(s: seq<Octet>)
    requires forall i | 0 <= i < |s| :: s[i] == 0
    ensures BitsOf(s) == {}
  {
    forall k: nat | k < 8 * |s| ensures !BitOf(s[k / 8], k % 8) { ZeroBits(k % 8); }
  }

  lemma BitSet(s: seq<Octet>, k: nat)
    requires k < 8 * |s|
    ensures BitsOf(s[k / 8 := SetBit(s[k / 8], k % 8, true)]) == BitsOf(s) + {k}
  {}

  /** `set_bit`. */
  method MarkBit(bitmap: array<Octet>, k: nat)
    requires k < 8 * bitmap.Length
    modifies bitmap
    ensures BitsOf(bitmap[..]) == old(BitsOf(bitmap[..])) + {k}
  {
    BitSet(bitmap[..], k);
    bitmap[k / 8] := SetBit(bitmap[k / 8], k % 8, true);
    assert bitmap[..] == old(bitmap[..])[k / 8 := SetBit(old(bitmap[..])[k / 8], k % 8, true)];
  }

  /** `visit_nodes` with the closure of `write_inode_bitmap`. */
  method MarkInums(node: FsNode, bitmap: array<Octet>)
    requires bitmap.Length == BLOCK && NodeOk(node)
    modifies bitmap
    ensures BitsOf(bitmap[..]) == old(BitsOf(bitmap[..])) + Inums(node)
    decreases node
  {
    hide BitsOf, AllInums, InumsOf;
    MarkBit(bitmap, node.inum);
    if node.kind.NodeDir? {
      var cs := node.kind.children;
      ghost var bits := BitsOf(bitmap[..]);
      var i := 0;
      FirstInums(cs, 0);
      while i < |cs|
        invariant 0 <= i <= |cs| && BitsOf(bitmap[..]) == bits + InumsOf(cs, i)
      {
        ChildWithin(cs, i);
        FirstInums(cs, i);
        MarkInums(cs[i], bitmap);
        i := i + 1;
      }
      AllFirst(cs);
    }
  }

  ghost function InumsOf(cs: seq<FsNode>, n: nat): set<nat>
    requires n <= |cs|
  {
    set j, x | 0 <= j < n && x in Inums(cs[j]) :: x
  }

  lemma FirstInums(cs: seq<FsNode>, n: nat)
    requires n <= |cs|
    ensures n == 0 ==> InumsOf(cs, n) == {}
    ensures n < |cs| ==> InumsOf(cs, n + 1) == InumsOf(cs, n) + Inums(cs[n])
  {}

  ghost function BlocksOf(cs: seq<FsNode>, n: nat): set<nat>
    requires n <= |cs|
  {
    set j, x | 0 <= j < n && x in NodeBlocks(cs[j]) :: x
  }

  lemma FirstNodeBlocks(cs: seq<FsNode>, n: nat)
    requires n <= |cs|
    ensures n == 0 ==> BlocksOf(cs, n) == {}
    ensures n < |cs| ==> BlocksOf(cs, n + 1) == BlocksOf(cs, n) + NodeBlocks(cs[n])
  {}

  lemma {:induction false} AllFirst(cs: seq<FsNode>)
    ensures InumsOf(cs, |cs|) == AllInums(cs) && BlocksOf(cs, |cs|) == AllBlocks(cs)
    decreases cs
  {
    if cs != [] {
      AllFirst(cs[1..]);
      forall x ensures x in InumsOf(cs, |cs|) <==> x in Inums(cs[0]) || x in InumsOf(cs[1..], |cs| - 1) {
        if x in InumsOf(cs, |cs|) {
          var j :| 0 <= j < |cs| && x in Inums(cs[j]);
          if j > 0 { assert cs[1..][j - 1] == cs[j]; }
        }
        if x in InumsOf(cs[1..], |cs| - 1) {
          var j :| 0 <= j < |cs| - 1 && x in Inums(cs[1..][j]);
          assert cs[j + 1] == cs[1..][j];
        }
      }
      forall x ensures x in BlocksOf(cs, |cs|) <==> x in NodeBlocks(cs[0]) || x in BlocksOf(cs[1..], |cs| - 1) {
        if x in BlocksOf(cs, |cs|) {
          var j :| 0 <= j < |cs| && x in NodeBlocks(cs[j]);
          if j > 0 { assert cs[1..][j - 1] == cs[j]; }
        }
        if x in BlocksOf(cs[1..], |cs| - 1) {
          var j :| 0 <= j < |cs| - 1 && x in NodeBlocks(cs[1..][j]);
          assert cs[j + 1] == cs[1..][j];
        }
      }
    }
  }

  /** Bit numbers of data blocks. */
  ghost function Offsets(blocks: set<nat>): set<nat> {
    set b | b in blocks && b >= DATA_BLOCK_START :: b - DATA_BLOCK_START
  }

  lemma OffsetsMore(s: set<nat>, b: nat)
    requires b >= DATA_BLOCK_START
    ensures Offsets(s + {b}) == Offsets(s) + {b - DATA_BLOCK_START}
  {}

  lemma OffsetsUnion(s: set<nat>, t: set<nat>)
    ensures Offsets(s + t) == Offsets(s) + Offsets(t)
  {}

  /** `visit_nodes` with the closure of `write_data_bitmap`. */
  method MarkBlocks(node: FsNode, bitmap: array<Octet>)
    requires bitmap.Length == BLOCK && NodeOk(node)
    modifies bitmap
    ensures BitsOf(bitmap[..]) == old(BitsOf(bitmap[..])) + Offsets(NodeBlocks(node))
    decreases node
  {
    hide BitsOf, AllBlocks, Offsets, BlocksOf, OwnBlocks;
    ghost var before := BitsOf(bitmap[..]);
    MarkOwn(node, bitmap);
    if node.kind.NodeDir? {
      var cs := node.kind.children;
      ghost var bits := BitsOf(bitmap[..]);
      var i := 0;
      FirstNodeBlocks(cs, 0);
      OffsetsNone();
      while i < |cs|
        invariant 0 <= i <= |cs| && BitsOf(bitmap[..]) == bits + Offsets(BlocksOf(cs, i))
      {
        ChildWithin(cs, i);
        FirstNodeBlocks(cs, i);
        OffsetsUnion(BlocksOf(cs, i), NodeBlocks(cs[i]));
        MarkBlocks(cs[i], bitmap);
        i := i + 1;
      }
      AllFirst(cs);
      OffsetsUnion(OwnBlocks(node), AllBlocks(cs));
    } else {
      assert NodeBlocks(node) == OwnBlocks(node);
    }
  }

  lemma OffsetsNone()
    ensures Offsets({}) == {}
  {}

  method MarkOwn(node: FsNode, bitmap: array<Octet>)
    requires bitmap.Length == BLOCK && NodeOk(node)
    modifies bitmap
    ensures BitsOf(bitmap[..]) == old(BitsOf(bitmap[..])) + Offsets(OwnBlocks(node))
  {
    hide BitsOf, Offsets;
    ghost var before := BitsOf(bitmap[..]);
    var j := 0;
    assert FirstBlocks(node, 0) == {};
    OffsetsNone();
    while j < |node.blocks|
      invariant 0 <= j <= |node.blocks| && BitsOf(bitmap[..]) == before + Offsets(FirstBlocks(node, j))
    {
      assert node.blocks[j] in OwnBlocks(node);
      assert FirstBlocks(node, j + 1) == FirstBlocks(node, j) + {node.blocks[j]};
      OffsetsMore(FirstBlocks(node, j), node.blocks[j]);
      MarkBit(bitmap, node.blocks[j] - DATA_BLOCK_START);
      j := j + 1;
    }
    if node.indirect != 0 {
      assert node.indirect in OwnBlocks(node);
      OffsetsMore(FirstBlocks(node, |node.blocks|), node.indirect);
      MarkBit(bitmap, node.indirect - DATA_BLOCK_START);
      assert OwnBlocks(node) == FirstBlocks(node, |node.blocks|) + {node.indirect};
    } else {
      IndirectNonzero(node);
      assert OwnBlocks(node) == FirstBlocks(node, |node.blocks|);
    }
  }

  lemma IndirectNonzero(node: FsNode)
    requires NodeOk(node)
    ensures node.indirect == 0 <==> |node.blocks| <= DIRECT_BLOCKS
  {}

  lemma {:induction false} InumsWithin(node: FsNode)
    requires NodeOk(node)
    ensures forall i | i in Inums(node) :: 0 < i < NINODES
    decreases node
  {
    if node.kind.NodeDir? { AllInumsWithin(node.kind.children); }
  }

  lemma {:induction false} AllInumsWithin(nodes: seq<FsNode>)
    requires AllOk(nodes)
    ensures forall i | i in AllInums(nodes) :: 0 < i < NINODES
    decreases nodes
  {
    if nodes != [] {
      InumsWithin(nodes[0]);
      AllInumsWithin(nodes[1..]);
    }
  }

  lemma {:induction false} BlocksWithin(node: FsNode)
    requires NodeOk(node)
    ensures forall b | b in NodeBlocks(node) :: DATA_BLOCK_START <= b < NBLOCKS
    decreases node
  {
    if node.kind.NodeDir? { AllBlocksWithin(node.kind.children); }
  }

  lemma {:induction false} AllBlocksWithin(nodes: seq<FsNode>)
    requires AllOk(nodes)
    ensures forall b | b in AllBlocks(nodes) :: DATA_BLOCK_START <= b < NBLOCKS
    decreases nodes
  {
    if nodes != [] {
      BlocksWithin(nodes[0]);
      AllBlocksWithin(nodes[1..]);
    }
  }

  lemma OffsetsSmall(s: set<nat>)
    requires forall b | b in s :: DATA_BLOCK_START <= b < NBLOCKS
    ensures forall k | k in Offsets(s) :: k < NBLOCKS - DATA_BLOCK_START
  {}

  lemma BitmapPlace(d: Disk)
    requires Geometry(SUPER, d)
    ensures SUPER.inodeBitmap * BLOCK + BLOCK <= Size(d) && SUPER.dataBitmap * BLOCK + BLOCK <= Size(d)
  {}

  lemma BitmapBits(d: Disk, d': Disk, block: nat, n: nat, bitmap: seq<Octet>, bits: set<nat>)
    requires n <= BITS_PER_BLOCK && block * BLOCK + BLOCK <= Size(d) && |bitmap| == BLOCK
    requires Patched(d, block * BLOCK, bitmap, d') && BitsOf(bitmap) == bits && forall k | k in bits :: k < n
    ensures Bits(d', block, n) == bits
  {}

  lemma InodeBitmapWritten(d: Disk, d': Disk, bitmap: seq<Octet>, bits: set<nat>)
    requires Geometry(SUPER, d) && |bitmap| == BLOCK && Patched(d, SUPER.inodeBitmap * BLOCK, bitmap, d')
    requires BitsOf(bitmap) == bits && forall k | k in bits :: k < NINODES
    ensures Geometry(SUPER, d') && View(d', SUPER) == View(d, SUPER).(inodeBits := bits)
  {
    BitmapBits(d, d', SUPER.inodeBitmap, NINODES, bitmap, bits);
    BitsKept(d, SUPER.inodeBitmap * BLOCK, bitmap, d', SUPER.dataBitmap, SUPER.nblocks - SUPER.dataStart);
    InodesKept(d, SUPER.inodeBitmap * BLOCK, bitmap, d', SUPER);
    BlocksKept(d, SUPER.inodeBitmap * BLOCK, bitmap, d', SUPER);
  }

  lemma DataBitmapWritten(d: Disk, d': Disk, bitmap: seq<Octet>, bits: set<nat>)
    requires Geometry(SUPER, d) && |bitmap| == BLOCK && Patched(d, SUPER.dataBitmap * BLOCK, bitmap, d')
    requires BitsOf(bitmap) == bits && forall k | k in bits :: k < NBLOCKS - DATA_BLOCK_START
    ensures Geometry(SUPER, d') && View(d', SUPER) == View(d, SUPER).(dataBits := bits)
  {
    BitmapBits(d, d', SUPER.dataBitmap, NBLOCKS - DATA_BLOCK_START, bitmap, bits);
    BitsKept(d, SUPER.dataBitmap * BLOCK, bitmap, d', SUPER.inodeBitmap, SUPER.ninodes);
    InodesKept(d, SUPER.dataBitmap * BLOCK, bitmap, d', SUPER);
    BlocksKept(d, SUPER.dataBitmap * BLOCK, bitmap, d', SUPER);
  }

  // ---- the finished image ----

  /** Mounting the disk gives the tool's superblock. */
  ghost predicate Mounts(d: Disk) {
    |d| > 0 && SuperOf(d[0]) == Ok(SUPER)
  }

  /** The records hold the whole tree, and the bitmaps mark exactly what it uses. */
  ghost predicate Holds(fs: Records, root: FsNode) {
    && NodeOn(fs, root, ROOT)
    && fs.inodeBits == Inums(root) && fs.dataBits == Offsets(NodeBlocks(root))
  }

  lemma OnlyBits(fs: Records, fs': Records, inums: set<nat>, blocks: set<nat>)
    requires Only(fs, fs', inums, blocks)
    ensures fs'.inodeBits == fs.inodeBits && fs'.dataBits == fs.dataBits
  {}

  lemma SuperWritten(d: Disk, d': Disk)
    requires Geometry(SUPER, d) && Patched(d, 0, SuperBytes(SUPER), d')
    ensures Geometry(SUPER, d') && View(d', SUPER) == View(d, SUPER) && Bytes(d', 0, 32) == SuperBytes(SUPER)
  {
    hide SuperBytes;
    BitsKept(d, 0, SuperBytes(SUPER), d', SUPER.inodeBitmap, SUPER.ninodes);
    BitsKept(d, 0, SuperBytes(SUPER), d', SUPER.dataBitmap, SUPER.nblocks - SUPER.dataStart);
    InodesKept(d, 0, SuperBytes(SUPER), d', SUPER);
    BlocksKept(d, 0, SuperBytes(SUPER), d', SUPER);
    PatchHere(d, 0, SuperBytes(SUPER), d');
  }

  lemma BootSize(d: Disk)
    requires Geometry(SUPER, d)
    ensures 32 <= Size(d) && SameBoot(d, d)
  {}

  lemma BootMounts(d: Disk, d': Disk)
    requires 32 <= Size(d) && SameBoot(d, d') && Bytes(d, 0, 32) == SuperBytes(SUPER)
    ensures Mounts(d')
  {
    hide SuperBytes, SuperOf;
    var s := d'[0];
    forall k | 0 <= k < 32 ensures s[k] == SuperBytes(SUPER)[k] {
      assert Peek(d', k) == Peek(d, k) && Peek(d', k) == s[k];
      assert Bytes(d, 0, 32)[k] == Peek(d, 0 + k);
    }
    assert s == SuperBytes(SUPER) + s[32..];
    SuperRoundTrip(SUPER, s[32..]);
  }
}
