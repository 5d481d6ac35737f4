/**
 The image tool's allocation: every node of a layout tree gets an inode number and the blocks it
 needs, from two counters that only grow.  No number is given twice, and none is skipped.
 */
module VsfsLayout {
  import opened Basics
  import opened VsfsDisk
  import opened VsfsFile
  import opened VsfsTree

  const NBLOCKS: nat := 128
  const NINODES: nat := 80
  const DATA_BLOCK_START: nat := 8
  const MAX_DATA_BLOCKS: nat := DIRECT_BLOCKS + INDIRECT_ENTRIES

  datatype LayoutKind = Directory(children: seq<Layout>) | Regular(data: seq<Octet>)
  datatype Layout = Layout(name: Name, kind: LayoutKind)

  datatype NodeKind = NodeDir(children: seq<FsNode>) | NodeFile(data: seq<Octet>)
  datatype FsNode = FsNode(inum: nat, blocks: seq<nat>, indirect: nat, name: Name, kind: NodeKind)

  datatype Counters = Counters(inum: nat, block: nat)

  // ---- allocation ----

  function BlockRun(block: nat, count: nat): (s: seq<nat>)
    ensures |s| == count && forall i | 0 <= i < count :: s[i] == block + i
  {
    seq<nat>(count, i requires 0 <= i < count => block + i)
  }

  /** `allocate_node_blocks`: `count` data blocks, then one for the indirect pointers if they are needed. */
  function AllocateBlocks(count: nat, block: nat): Option<(seq<nat>, nat, nat)> {
    if count > MAX_DATA_BLOCKS || block + count > NBLOCKS then None
    else if count <= DIRECT_BLOCKS then Some((BlockRun(block, count), 0, block + count))
    else if block + count + 1 > NBLOCKS then None
    else Some((BlockRun(block, count), block + count, block + count + 1))
  }

  /** `allocate_node`: the node, then its children, then its own blocks. */
  function Allocate(node: Layout, c: Counters): Option<(FsNode, Counters)>
    decreases node
  {
    if c.inum >= NINODES then None
    else
      match node.kind
      case Regular(data) =>
        (match AllocateBlocks(BlockCount(|data|), c.block)
         case None => None
         case Some((blocks, indirect, next)) =>
           Some((FsNode(c.inum, blocks, indirect, node.name, NodeFile(data)), Counters(c.inum + 1, next))))
      case Directory(children) =>
        (match AllocateAll(children, Counters(c.inum + 1, c.block))
         case None => None
         case Some((nodes, c')) =>
           match AllocateBlocks(BlockCount((2 + |nodes|) * DIRENT_SIZE), c'.block)
           case None => None
           case Some((blocks, indirect, next)) =>
             Some((FsNode(c.inum, blocks, indirect, node.name, NodeDir(nodes)), Counters(c'.inum, next))))
  }

  function AllocateAll(children: seq<Layout>, c: Counters): (r: Option<(seq<FsNode>, Counters)>)
    ensures r.Some? ==> |r.value.0| == |children|
    decreases children
  {
    if children == [] then Some(([], c))
    else
      match Allocate(children[0], c)
      case None => None
      case Some((first, c1)) =>
        match AllocateAll(children[1..], c1)
        case None => None
        case Some((rest, c2)) => Some(([first] + rest, c2))
  }

  /** `allocate_layout`. */
  function AllocateLayout(root: Layout): Option<FsNode> {
    match Allocate(root, Counters(ROOT, DATA_BLOCK_START))
    case None => None
    case Some((node, _)) => Some(node)
  }

  // ---- what a node uses ----

  ghost function Inums(node: FsNode): set<nat>
    decreases node
  {
    {node.inum} + (if node.kind.NodeDir? then AllInums(node.kind.children) else {})
  }

  ghost function AllInums(nodes: seq<FsNode>): set<nat>
    decreases nodes
  {
    if nodes == [] then {} else Inums(nodes[0]) + AllInums(nodes[1..])
  }

  /** The blocks of one node, without its children's. */
  ghost function OwnBlocks(node: FsNode): set<nat> {
    (set j | 0 <= j < |node.blocks| :: node.blocks[j]) + (if |node.blocks| > DIRECT_BLOCKS then {node.indirect} else {})
  }

  ghost function NodeBlocks(node: FsNode): set<nat>
    decreases node
  {
    OwnBlocks(node) + (if node.kind.NodeDir? then AllBlocks(node.kind.children) else {})
  }

  ghost function AllBlocks(nodes: seq<FsNode>): set<nat>
    decreases nodes
  {
    if nodes == [] then {} else NodeBlocks(nodes[0]) + AllBlocks(nodes[1..])
  }

  function SizeOf(node: FsNode): nat {
    match node.kind
    case NodeDir(children) => (2 + |children|) * DIRENT_SIZE
    case NodeFile(data) => |data|
  }

  /** A node has the blocks its size asks for, all different, and nothing in its subtree uses anything twice. */
  ghost predicate NodeOk(node: FsNode)
    decreases node
  {
    && |node.blocks| == BlockCount(SizeOf(node)) && |node.blocks| <= MAX_DATA_BLOCKS
    && 0 < node.inum < NINODES
    && (forall b | b in OwnBlocks(node) :: DATA_BLOCK_START <= b < NBLOCKS)
    && (forall i, j | 0 <= i < j < |node.blocks| :: node.blocks[i] != node.blocks[j])
    && (|node.blocks| > DIRECT_BLOCKS ==> forall j | 0 <= j < |node.blocks| :: node.blocks[j] != node.indirect)
    && (|node.blocks| <= DIRECT_BLOCKS ==> node.indirect == 0)
    && (node.kind.NodeDir? ==>
          && node.inum !in AllInums(node.kind.children) && OwnBlocks(node) !! AllBlocks(node.kind.children)
          && AllOk(node.kind.children))
  }

  ghost predicate AllOk(nodes: seq<FsNode>)
    decreases nodes
  {
    nodes != [] ==>
      && NodeOk(nodes[0]) && AllOk(nodes[1..])
      && Inums(nodes[0]) !! AllInums(nodes[1..]) && NodeBlocks(nodes[0]) !! AllBlocks(nodes[1..])
  }

  // ---- allocation is exact ----

  lemma BlocksExact(count: nat, block: nat, node: FsNode)
    requires AllocateBlocks(count, block).Some?
    requires var (blocks, indirect, next) := AllocateBlocks(count, block).value; node.blocks == blocks && node.indirect == indirect
    ensures OwnBlocks(node) == Span(block, AllocateBlocks(count, block).value.2)
    ensures |node.blocks| == count && block <= AllocateBlocks(count, block).value.2 <= NBLOCKS
  {
    var next := AllocateBlocks(count, block).value.2;
    forall b: nat ensures b in OwnBlocks(node) <==> block <= b < next {
      if block <= b < block + count { assert node.blocks[b - block] == b; }
    }
  }

  ghost predicate Exact(node: FsNode, c: Counters, c': Counters) {
    && NodeOk(node) && c.inum <= c'.inum && c.block <= c'.block <= NBLOCKS
    && Inums(node) == Span(c.inum, c'.inum) && NodeBlocks(node) == Span(c.block, c'.block)
  }

  ghost predicate AllExact(nodes: seq<FsNode>, c: Counters, c': Counters) {
    && AllOk(nodes) && c.inum <= c'.inum && c.block <= c'.block <= NBLOCKS
    && AllInums(nodes) == Span(c.inum, c'.inum) && AllBlocks(nodes) == Span(c.block, c'.block)
  }

  /** The numbers given to a subtree are exactly those the counters passed over, each given once. */
  lemma {:induction false} AllocateExact(node: Layout, c: Counters)
    requires 0 < c.inum && DATA_BLOCK_START <= c.block <= NBLOCKS && Allocate(node, c).Some?
    ensures Exact(Allocate(node, c).value.0, c, Allocate(node, c).value.1)
    ensures Allocate(node, c).value.0.name == node.name
    decreases node
  {
    var (n, c') := Allocate(node, c).value;
    match node.kind
    case Regular(data) =>
      BlocksExact(BlockCount(|data|), c.block, n);
    case Directory(children) =>
      var c0 := Counters(c.inum + 1, c.block);
      AllocateAllExact(children, c0);
      var (nodes, c1) := AllocateAll(children, c0).value;
      BlocksExact(BlockCount((2 + |nodes|) * DIRENT_SIZE), c1.block, n);
      SpanJoin(c.inum, c.inum + 1, c'.inum);
      SpanJoin(c.block, c1.block, c'.block);
      SpanOne(c.inum);
      hide Span, AllOk, AllInums, AllBlocks, AllocateBlocks;
  }

  lemma SpanJoin(lo: nat, mid: nat, hi: nat)
    requires lo <= mid <= hi
    ensures Span(lo, hi) == Span(lo, mid) + Span(mid, hi) && Span(lo, mid) !! Span(mid, hi)
  {}

  lemma SpanOne(x: nat)
    ensures Span(x, x + 1) == {x}
  {}

  lemma {:induction false} AllocateAllExact(children: seq<Layout>, c: Counters)
    requires 0 < c.inum && DATA_BLOCK_START <= c.block <= NBLOCKS && AllocateAll(children, c).Some?
    ensures AllExact(AllocateAll(children, c).value.0, c, AllocateAll(children, c).value.1)
    decreases children
  {
    if children != [] {
      AllocateExact(children[0], c);
      var (first, c1) := Allocate(children[0], c).value;
      AllocateAllExact(children[1..], c1);
      var (rest, c2) := AllocateAll(children[1..], c1).value;
      var nodes := [first] + rest;
      assert nodes[0] == first && nodes[1..] == rest;
      assert Span(c.inum, c2.inum) == Span(c.inum, c1.inum) + Span(c1.inum, c2.inum);
      assert Span(c.block, c2.block) == Span(c.block, c1.block) + Span(c1.block, c2.block);
    } else {
      assert Span(c.inum, c.inum) == {} && Span(c.block, c.block) == {};
    }
  }
}
