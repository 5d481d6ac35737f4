/**
 `create_file` with its rollback, on a device that may fail at any sector operation and whose
 failed writes may or may not have landed.  It works from the parent's record in memory, which need not
 be the one on disk; its contract says exactly what it can leave on disk.
 */
module VsfsCreateFile {
  import opened Basics
  import opened VsfsDisk
  import opened VsfsFile
  import opened VsfsRecords
  import opened VsfsTree
  import opened VsfsCreate
  import opened VsfsKernel

  // ---- one write at a time ----

  lemma SpliceOver(s: seq<Octet>, off: nat, x: seq<Octet>, y: seq<Octet>)
    requires |x| == |y| && off + |x| <= |s|
    ensures Spliced(Spliced(s, off, x), off, y) == Spliced(s, off, y)
  {}

  lemma AfterFacts(g: Records, sb: Super, p: nat, ino: INode, name: Name, inum: U32, block: U32, left: Left)
    requires Begun(g, sb, p, ino, name, inum, block)
    ensures var g' := After(g, sb, p, ino, name, inum, block, left);
            && |g'.inodes| == |g.inodes| && p < |g.inodes| && inum < |g.inodes| && inum !in g.inodeBits
            && block in g'.data && |g'.data[block]| == BLOCK && TailOffset(ino) + DIRENT_SIZE <= BLOCK && sb.dataStart <= block
            && TailBlock(ino) < DIRECT_BLOCKS && ino.sz + DIRENT_SIZE < 0x1_0000_0000 && |name| <= NAME_MAX
  {
    hide Usable, Find, Chosen;
  }

  lemma AfterRecord(g: Records, sb: Super, p: nat, ino: INode, name: Name, inum: U32, block: U32, left: Left)
    requires Begun(g, sb, p, ino, name, inum, block)
    ensures InodeSet(After(g, sb, p, ino, name, inum, block, left), inum, EmptyFile())
         == After(g, sb, p, ino, name, inum, block, left.(recorded := true))
  {
    hide Usable, Find, Chosen;
  }

  lemma AfterEntry(g: Records, sb: Super, p: nat, ino: INode, name: Name, inum: U32, block: U32, left: Left, entry: EntryLeft)
    requires Begun(g, sb, p, ino, name, inum, block) && !entry.OldEntry?
    ensures var g' := After(g, sb, p, ino, name, inum, block, left);
            && block in g'.data && TailOffset(ino) + DIRENT_SIZE <= |g'.data[block]|
            && DataSet(g', block, TailOffset(ino), DirEntBytes(if entry.NewEntry? then EntryFor(inum, name) else EmptyEntry()))
               == After(g, sb, p, ino, name, inum, block, left.(entry := entry))
  {
    hide Usable, Find, Chosen;
    if !left.entry.OldEntry? {
      SpliceOver(g.data[block], TailOffset(ino), DirEntBytes(if left.entry.NewEntry? then EntryFor(inum, name) else EmptyEntry()),
                 DirEntBytes(if entry.NewEntry? then EntryFor(inum, name) else EmptyEntry()));
    }
  }

  lemma AfterParent(g: Records, sb: Super, p: nat, ino: INode, name: Name, inum: U32, block: U32, left: Left)
    requires Begun(g, sb, p, ino, name, inum, block)
    ensures var g' := After(g, sb, p, ino, name, inum, block, left);
            && InodeSet(g', p, Extended(ino, block)) == After(g, sb, p, ino, name, inum, block, left.(parent := Longer))
            && InodeSet(g', p, ino) == After(g, sb, p, ino, name, inum, block, left.(parent := Restored))
  {
    hide Usable, Find, Chosen;
  }

  lemma AfterBits(g: Records, sb: Super, p: nat, ino: INode, name: Name, inum: U32, block: U32, left: Left)
    requires Begun(g, sb, p, ino, name, inum, block)
    ensures var g' := After(g, sb, p, ino, name, inum, block, left);
            && g'.(inodeBits := g'.inodeBits - {inum as nat}) == After(g, sb, p, ino, name, inum, block, left.(inodeKept := false))
            && (block - sb.dataStart !in g.dataBits ==>
                  g'.(dataBits := g'.dataBits - {block - sb.dataStart}) == After(g, sb, p, ino, name, inum, block, left.(blockKept := false)))
            && (left.inodeKept ==> inum as nat in g'.inodeBits) && (left.blockKept ==> block - sb.dataStart in g'.dataBits)
  {
    hide Usable, Find, Chosen;
  }

  /** `free_create_allocations`: best effort; whatever fails is leaked. */
  method FreeCreate(dev: BlockDevice, sb: Super, ghost g: Records, ghost p: nat, ghost ino: INode, ghost name: Name,
                    inum: U32, block: U32, taken: bool, ghost left: Left) returns (ghost left': Left)
    requires Geometry(sb, dev.disk) && Begun(g, sb, p, ino, name, inum, block) && View(dev.disk, sb) == After(g, sb, p, ino, name, inum, block, left)
    requires inum < sb.ninodes && DataBlockNumber(sb, block) && (taken ==> block - sb.dataStart !in g.dataBits)
    modifies dev`disk
    ensures Geometry(sb, dev.disk) && View(dev.disk, sb) == After(g, sb, p, ino, name, inum, block, left')
    ensures left' == left.(inodeKept := left'.inodeKept, blockKept := left'.blockKept)
    ensures dev.reliable && left.inodeKept && left.blockKept ==> !left'.inodeKept && (taken ==> !left'.blockKept)
  {
    hide View, Geometry, After, Begun;
    left' := left;
    AfterBits(g, sb, p, ino, name, inum, block, left);
    var freed := FreeInode(dev, sb, inum);
    if freed.Ok? || View(dev.disk, sb) != After(g, sb, p, ino, name, inum, block, left) {
      left' := left.(inodeKept := false);
    }
    if taken {
      AfterBits(g, sb, p, ino, name, inum, block, left');
      ghost var before := View(dev.disk, sb);
      freed := FreeDataBlock(dev, sb, block);
      if freed.Ok? || View(dev.disk, sb) != before {
        left' := left'.(blockKept := false);
      }
    }
  }

  /** The block for the new entry has been chosen and is marked. */
  ghost predicate BlockTaken(g: Records, g': Records, sb: Super, ino: INode, block: U32) {
    && TailBlock(ino) < DIRECT_BLOCKS && Chosen(g, sb, ino, block) && DataBlockNumber(sb, block)
    && (ino.direct[TailBlock(ino)] == 0 ==> FirstClear(g.dataBits, 0, block - sb.dataStart))
    && g' == g.(dataBits := g.dataBits + {block - sb.dataStart})
  }

  lemma TailTaken(g: Records, sb: Super, p: nat, ino: INode)
    requires Usable(g, sb, p, ino) && ino.ty == DIRECTORY && TailBlock(ino) < DIRECT_BLOCKS && ino.direct[TailBlock(ino)] != 0
    ensures BlockTaken(g, g, sb, ino, ino.direct[TailBlock(ino)])
  {
    var tail := ino.direct[TailBlock(ino)];
    BlockFacts(g, sb, ino, tail);
    assert g.dataBits + {tail - sb.dataStart} == g.dataBits;
  }

  lemma FreshTaken(g: Records, g': Records, sb: Super, ino: INode, b: nat)
    requires TailBlock(ino) < DIRECT_BLOCKS && DataTaken(g, g', sb, b) && ino.direct[TailBlock(ino)] == 0 && b < 0x1_0000_0000 && 0 < b
    ensures BlockTaken(g, g', sb, ino, b)
  {}

  /** The block for the new entry: the directory's tail block, or a newly taken one. */
  method ChooseBlock(dev: BlockDevice, sb: Super, ghost p: nat, ino: INode) returns (r: Result<U32>)
    requires Geometry(sb, dev.disk) && Usable(View(dev.disk, sb), sb, p, ino) && ino.ty == DIRECTORY
    requires TailBlock(ino) < DIRECT_BLOCKS && sb.nblocks < 0x1_0000_0000
    modifies dev`disk
    ensures Geometry(sb, dev.disk)
    ensures r.Err? ==> OnlyMarks(old(View(dev.disk, sb)), View(dev.disk, sb))
    ensures r.Ok? ==> BlockTaken(old(View(dev.disk, sb)), View(dev.disk, sb), sb, ino, r.value)
    ensures r.Err? && dev.reliable ==> ino.direct[TailBlock(ino)] == 0 && NoBlockLeft(old(View(dev.disk, sb)), sb) && dev.disk == old(dev.disk)
    ensures r.Ok? && ino.direct[TailBlock(ino)] != 0 ==> dev.disk == old(dev.disk)
  {
    hide View, Geometry, Usable, BlockTaken;
    ghost var g := View(dev.disk, sb);
    var tail := ino.direct[TailBlock(ino)];
    if tail != 0 {
      TailTaken(g, sb, p, ino);
      return Ok(tail);
    }
    assert 0 < sb.dataStart by { UsableFacts(g, sb, p, ino); }
    var b := AllocateDataBlock(dev, sb);
    if b.Err? {
      return Err(b.error);
    }
    FreshTaken(g, View(dev.disk, sb), sb, ino, b.value);
    r := Ok(b.value);
  }

  lemma UsableFacts(g: Records, sb: Super, p: nat, ino: INode)
    requires Usable(g, sb, p, ino)
    ensures 0 < sb.dataStart && |g.inodes| == sb.ninodes && p < sb.ninodes && Listable(g, sb, ino)
    ensures ino.ty == DIRECTORY ==> ino.sz % DIRENT_SIZE == 0
  {}

  /** Both the block and the inode are taken. */
  lemma BothTaken(g: Records, f1: Records, f2: Records, sb: Super, p: nat, ino: INode, name: Name, block: U32, inum: nat)
    requires Usable(g, sb, p, ino) && BlockTaken(g, f1, sb, ino, block) && InodeTaken(f1, f2, sb, inum) && ino.ty == DIRECTORY
    requires 0 < |name| <= NAME_MAX && Find(g, ino, name) == Err(NotFound) && ino.sz + DIRENT_SIZE < 0x1_0000_0000
    ensures inum < 0x1_0000_0000 ==>
              && Begun(g, sb, p, ino, name, inum, block) && f2 == After(g, sb, p, ino, name, inum, block, BEGUN)
    ensures FirstClear(g.inodeBits, 1, inum) && TailOffset(ino) % DIRENT_SIZE == 0 && DataBlockNumber(sb, block)
  {
    hide Find;
    BlockFacts(g, sb, ino, block);
    TailFits(ino);
    if inum < 0x1_0000_0000 {
      assert g.inodes[inum := g.inodes[inum]][p := g.inodes[p]] == g.inodes;
    }
  }

  /**
   The parent's record could not be written, or so the device says: erase the entry, put the old
   record back, and give back the inode and the block only if that succeeded.
   */
  method RollBack(dev: BlockDevice, sb: Super, ghost g: Records, p: nat, ino: INode, ghost name: Name,
                  inum: U32, block: U32, taken: bool, ghost left: Left) returns (ghost left': Left)
    requires Geometry(sb, dev.disk) && Begun(g, sb, p, ino, name, inum, block) && View(dev.disk, sb) == After(g, sb, p, ino, name, inum, block, left)
    requires left == Left(true, NewEntry, left.parent, true, true) && !left.parent.Restored?
    requires p < sb.ninodes && inum < sb.ninodes && DataBlockNumber(sb, block) && (taken ==> block - sb.dataStart !in g.dataBits)
    requires TailOffset(ino) + DIRENT_SIZE <= BLOCK && TailOffset(ino) % DIRENT_SIZE == 0
    modifies dev`disk
    ensures Geometry(sb, dev.disk) && View(dev.disk, sb) == After(g, sb, p, ino, name, inum, block, left') && Possible(left')
    ensures !left'.inodeKept || !left'.blockKept ==> left'.parent.Restored?
  {
    hide View, Geometry, After, Begun;
    left' := left;
    AfterEntry(g, sb, p, ino, name, inum, block, left', ErasedEntry);
    var w := WriteDirEnt(dev, sb, block, TailOffset(ino), EmptyEntry());
    if View(dev.disk, sb) != After(g, sb, p, ino, name, inum, block, left') {
      left' := left'.(entry := ErasedEntry);
    }
    AfterParent(g, sb, p, ino, name, inum, block, left');
    w := WriteInode(dev, sb, p, ino);
    if w.Ok? || View(dev.disk, sb) != After(g, sb, p, ino, name, inum, block, left') {
      left' := left'.(parent := Restored);
    }
    if w.Ok? {
      left' := FreeCreate(dev, sb, g, p, ino, name, inum, block, taken, left');
    }
  }

  /** The three writes of a creation whose inode and block are taken. */
  method Commit(dev: BlockDevice, sb: Super, ghost g: Records, p: nat, ino: INode, name: Name, inum: U32, block: U32, taken: bool)
    returns (r: Result<INode>, ghost left: Left)
    requires Geometry(sb, dev.disk) && Begun(g, sb, p, ino, name, inum, block) && View(dev.disk, sb) == After(g, sb, p, ino, name, inum, block, BEGUN)
    requires TailBlock(ino) < DIRECT_BLOCKS && ino.sz + DIRENT_SIZE < 0x1_0000_0000 && |name| <= NAME_MAX
    requires p < sb.ninodes && inum < sb.ninodes && DataBlockNumber(sb, block) && (taken ==> block - sb.dataStart !in g.dataBits)
    requires TailOffset(ino) + DIRENT_SIZE <= BLOCK && TailOffset(ino) % DIRENT_SIZE == 0
    modifies dev`disk
    ensures Geometry(sb, dev.disk) && View(dev.disk, sb) == After(g, sb, p, ino, name, inum, block, left) && Possible(left)
    ensures r.Ok? ==> r.value == Extended(ino, block) && left == DONE
    ensures dev.reliable ==> r.Ok?
  {
    hide View, Geometry, After, Begun;
    left := BEGUN;
    AfterFacts(g, sb, p, ino, name, inum, block, left);
    AfterRecord(g, sb, p, ino, name, inum, block, left);
    var w := WriteInode(dev, sb, inum, EmptyFile());
    if w.Ok? || View(dev.disk, sb) != After(g, sb, p, ino, name, inum, block, left) {
      left := left.(recorded := true);
    }
    if w.Err? {
      left := FreeCreate(dev, sb, g, p, ino, name, inum, block, taken, left);
      r := Err(w.error);
      return;
    }
    AfterEntry(g, sb, p, ino, name, inum, block, left, NewEntry);
    w := WriteDirEnt(dev, sb, block, TailOffset(ino), EntryFor(inum, name));
    if w.Ok? || View(dev.disk, sb) != After(g, sb, p, ino, name, inum, block, left) {
      left := left.(entry := NewEntry);
    }
    if w.Err? {
      left := FreeCreate(dev, sb, g, p, ino, name, inum, block, taken, left);
      r := Err(w.error);
      return;
    }
    AfterFacts(g, sb, p, ino, name, inum, block, left);
    AfterParent(g, sb, p, ino, name, inum, block, left);
    w := WriteInode(dev, sb, p, Extended(ino, block));
    if w.Ok? || View(dev.disk, sb) != After(g, sb, p, ino, name, inum, block, left) {
      left := left.(parent := Longer);
    }
    if w.Err? {
      left := RollBack(dev, sb, g, p, ino, name, inum, block, taken, left);
      r := Err(w.error);
      return;
    }
    r := Ok(Extended(ino, block));
  }

  // ---- the whole ----

  /** The creation has happened, with the first free inode and the tail block or the first free block. */
  ghost predicate CreatedFirst(g: Records, g': Records, sb: Super, p: nat, ino: INode, name: Name, inum: U32, block: U32) {
    && Tried(g, g', sb, p, ino, name, inum, block, DONE) && FirstClear(g.inodeBits, 1, inum)
    && (ino.direct[TailBlock(ino)] == 0 ==> FirstClear(g.dataBits, 0, block - sb.dataStart))
  }

  /** The checks pass, an inode is free, and so is a block if the directory needs another one. */
  ghost predicate CanCreate(g: Records, sb: Super, ino: INode, name: Name) {
    && ino.ty == DIRECTORY && 0 < |name| <= NAME_MAX && Find(g, ino, name) == Err(NotFound)
    && ino.sz + DIRENT_SIZE < 0x1_0000_0000 && TailBlock(ino) < DIRECT_BLOCKS
    && !NoInodeLeft(g, sb) && (ino.direct[TailBlock(ino)] == 0 ==> !NoBlockLeft(g, sb))
  }

  lemma TakenFacts(g: Records, f1: Records, sb: Super, ino: INode, block: U32)
    requires BlockTaken(g, f1, sb, ino, block)
    ensures DataBlockNumber(sb, block) && f1 == g.(dataBits := g.dataBits + {block - sb.dataStart}) && OnlyMarks(g, f1)
    ensures NoInodeLeft(f1, sb) ==> NoInodeLeft(g, sb)
    ensures ino.direct[TailBlock(ino)] == 0 ==> block - sb.dataStart !in g.dataBits
  {}

  /**
   `create_file`, from the parent's record in memory.  When it succeeds the file exists on disk, made from
   the first free inode and block.  When it fails, at whatever sector operation, the disk is in one of the
   states an attempt can leave.
   */
  method CreateFile(dev: BlockDevice, sb: Super, p: nat, ino: INode, name: Name) returns (r: Result<(U32, INode)>, ghost block: U32)
    requires Geometry(sb, dev.disk) && sb.nblocks < 0x1_0000_0000 && Usable(View(dev.disk, sb), sb, p, ino)
    modifies dev`disk
    ensures Geometry(sb, dev.disk)
    ensures r.Ok? ==> CreatedFirst(old(View(dev.disk, sb)), View(dev.disk, sb), sb, p, ino, name, r.value.0, block)
    ensures r.Ok? ==> NewFile(View(dev.disk, sb), r.value.0 as nat)
    ensures r.Ok? ==> TailBlock(ino) < DIRECT_BLOCKS && ino.sz + DIRENT_SIZE < 0x1_0000_0000 && r.value.1 == Extended(ino, block)
    ensures r.Err? ==> FailedOn(old(View(dev.disk, sb)), View(dev.disk, sb), sb, p, ino, name)
    ensures r.Err? && dev.reliable ==> !CanCreate(old(View(dev.disk, sb)), sb, ino, name) && View(dev.disk, sb) == old(View(dev.disk, sb))
  {
    hide View, Geometry, Usable, Find, NoInodeLeft, NoBlockLeft, BlockTaken, Tried, CreatedFirst, Listable, NewFile;
    ghost var g := View(dev.disk, sb);
    block := 0;
    UsableFacts(g, sb, p, ino);
    if name == [] || |name| > NAME_MAX {
      r := Err(Fs);
      return;
    }
    if ino.ty != DIRECTORY || ino.sz % DIRENT_SIZE != 0 {
      r := Err(Fs);
      return;
    }
    var found := FindEntry(dev, sb, ino, name);
    if found.Ok? {
      r := Err(Fs);
      return;
    } else if found.error != NotFound {
      r := Err(found.error);
      return;
    }
    if ino.sz + DIRENT_SIZE >= 0x1_0000_0000 || TailBlock(ino) >= DIRECT_BLOCKS {
      r := Err(Fs);
      return;
    }
    var chosen := ChooseBlock(dev, sb, p, ino);
    if chosen.Err? {
      r := Err(chosen.error);
      return;
    }
    block := chosen.value;
    TakenFacts(g, View(dev.disk, sb), sb, ino, block);
    r := FinishCreate(dev, sb, g, p, ino, name, chosen.value);
    if r.Ok? { FirstIsNew(g, View(dev.disk, sb), sb, p, ino, name, r.value.0, block); }
  }

  lemma FirstIsNew(g: Records, g': Records, sb: Super, p: nat, ino: INode, name: Name, inum: U32, block: U32)
    requires CreatedFirst(g, g', sb, p, ino, name, inum, block)
    ensures NewFile(g', inum)
  {
    hide NewFile, FirstClear, Find, Usable;
    EmptyIsNew(g', inum);
  }

  /** The rest of `create_file`, once the block is chosen. */
  method FinishCreate(dev: BlockDevice, sb: Super, ghost g: Records, p: nat, ino: INode, name: Name, block: U32) returns (r: Result<(U32, INode)>)
    requires Geometry(sb, dev.disk) && Usable(g, sb, p, ino) && ino.ty == DIRECTORY && BlockTaken(g, View(dev.disk, sb), sb, ino, block)
    requires 0 < |name| <= NAME_MAX && Find(g, ino, name) == Err(NotFound)
    requires ino.sz + DIRENT_SIZE < 0x1_0000_0000 && TailBlock(ino) < DIRECT_BLOCKS
    requires ino.direct[TailBlock(ino)] != 0 ==> View(dev.disk, sb) == g
    modifies dev`disk
    ensures Geometry(sb, dev.disk)
    ensures r.Ok? ==> CreatedFirst(g, View(dev.disk, sb), sb, p, ino, name, r.value.0, block) && r.value.1 == Extended(ino, block)
    ensures r.Err? ==> FailedOn(g, View(dev.disk, sb), sb, p, ino, name)
    ensures r.Err? && dev.reliable ==> NoInodeLeft(g, sb) && View(dev.disk, sb) == g
  {
    hide View, Usable, Find, BlockTaken, Begun, After, NoInodeLeft;
    ghost var f1 := View(dev.disk, sb);
    var taken := ino.direct[TailBlock(ino)] == 0;
    UsableFacts(g, sb, p, ino);
    TakenFacts(g, f1, sb, ino, block);
    var i := AllocateInode(dev, sb);
    if i.Err? {
      if taken {
        var _ := FreeDataBlock(dev, sb, block);
        assert f1.dataBits - {block - sb.dataStart} == g.dataBits;
      }
      r := Err(i.error);
      return;
    }
    var inum: U32 := i.value;
    BothTaken(g, f1, View(dev.disk, sb), sb, p, ino, name, block, inum);
    AfterFacts(g, sb, p, ino, name, inum, block, BEGUN);
    var done;
    ghost var left;
    done, left := Commit(dev, sb, g, p, ino, name, inum, block, taken);
    assert Tried(g, View(dev.disk, sb), sb, p, ino, name, inum, block, left);
    if done.Err? {
      r := Err(done.error);
      return;
    }
    BlockFirst(g, f1, sb, ino, block);
    r := Ok((inum, done.value));
  }

  lemma BlockFirst(g: Records, f1: Records, sb: Super, ino: INode, block: U32)
    requires BlockTaken(g, f1, sb, ino, block)
    ensures ino.direct[TailBlock(ino)] == 0 ==> FirstClear(g.dataBits, 0, block - sb.dataStart)
  {}
}
