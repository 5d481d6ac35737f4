/**
 What a creation of a file does to the file system: one more directory entry in the parent, one more
 inode, perhaps one more block.  The invariant is kept, the new name resolves to the new empty file,
 and every other path resolves as before.  A creation that fails passes through states from which
 everything that was there survives.
 */
module VsfsCreate {
  import opened Basics
  import opened VsfsDisk
  import opened VsfsFile
  import opened VsfsRecords
  import opened VsfsTree
  import opened VsfsKept

  /** The inode record of a file just created. */
  function EmptyFile(): INode {
    INode(FILE, 1, 0, 0, seq(DIRECT_BLOCKS, _ => 0), 0)
  }

  /** The first free position of a directory: which block, and where in it. */
  function TailBlock(ino: INode): nat {
    ino.sz / BLOCK
  }

  function TailOffset(ino: INode): nat {
    ino.sz % BLOCK
  }

  /** The checks of `create_file` pass. */
  ghost predicate Creatable(fs: Records, sb: Super, p: nat, name: Name) {
    && FsOk(fs, sb) && Live(fs, p) && fs.inodes[p].ty == DIRECTORY
    && 0 < |name| <= NAME_MAX && Find(fs, fs.inodes[p], name) == Err(NotFound)
    && fs.inodes[p].sz + DIRENT_SIZE < 0x1_0000_0000 && TailBlock(fs.inodes[p]) < DIRECT_BLOCKS
  }

  /** The directory's own tail block, or a free data block when it has none. */
  ghost predicate Chosen(fs: Records, sb: Super, ino: INode, block: U32)
    requires TailBlock(ino) < DIRECT_BLOCKS
  {
    var tail := ino.direct[TailBlock(ino)];
    if tail == 0 then 0 < block && DataBlockNumber(sb, block) && block - sb.dataStart !in fs.dataBits else block == tail
  }

  function Extended(ino: INode, block: U32): INode
    requires TailBlock(ino) < DIRECT_BLOCKS && ino.sz + DIRENT_SIZE < 0x1_0000_0000
  {
    ino.(sz := ino.sz + DIRENT_SIZE, direct := ino.direct[TailBlock(ino) := block])
  }

  /** The records after the entry `e` has been added to directory `p` and inode `inum` written. */
  ghost function Created(fs: Records, sb: Super, p: nat, e: DirEnt, inum: U32, block: U32): Records
    requires p < |fs.inodes| && inum < |fs.inodes| && TailBlock(fs.inodes[p]) < DIRECT_BLOCKS
    requires fs.inodes[p].sz + DIRENT_SIZE < 0x1_0000_0000 && sb.dataStart <= block
    requires block in fs.data && |fs.data[block]| == BLOCK && TailOffset(fs.inodes[p]) + DIRENT_SIZE <= BLOCK
  {
    var ino := fs.inodes[p];
    Records(fs.inodes[inum := EmptyFile()][p := Extended(ino, block)],
            fs.inodeBits + {inum as nat},
            fs.dataBits + {block - sb.dataStart},
            fs.data[block := Spliced(fs.data[block], TailOffset(ino), DirEntBytes(e))])
  }

  /** Everything a creation needs. */
  ghost predicate Ready(fs: Records, sb: Super, p: nat, name: Name, inum: U32, block: U32) {
    && Creatable(fs, sb, p, name) && Chosen(fs, sb, fs.inodes[p], block)
    && 0 < inum < |fs.inodes| && inum !in fs.inodeBits
  }

  // ---- sizes ----

  /** The entry fits the tail of its block, and the directory has that many blocks afterwards. */
  lemma TailFits(ino: INode)
    requires ino.sz % DIRENT_SIZE == 0
    ensures TailOffset(ino) + DIRENT_SIZE <= BLOCK && TailOffset(ino) % DIRENT_SIZE == 0
    ensures BlockCount(ino.sz + DIRENT_SIZE) == TailBlock(ino) + 1
    ensures Count(ino) == if TailOffset(ino) == 0 then TailBlock(ino) else TailBlock(ino) + 1
    ensures EntryCount(ino) * DIRENT_SIZE == ino.sz && (ino.sz + DIRENT_SIZE) / DIRENT_SIZE == EntryCount(ino) + 1
  {}

  /** A block is chosen fresh exactly when the directory ends on a block boundary. */
  lemma BlockFacts(fs: Records, sb: Super, ino: INode, block: U32)
    requires Shape(fs, sb) && InodeOk(fs, sb, ino) && ino.sz % DIRENT_SIZE == 0 && TailBlock(ino) < DIRECT_BLOCKS && Chosen(fs, sb, ino, block)
    ensures block in fs.data && |fs.data[block]| == BLOCK && sb.dataStart <= block && 0 < block && DataBlockNumber(sb, block)
    ensures ino.direct[TailBlock(ino)] == 0 <==> TailOffset(ino) == 0
    ensures TailOffset(ino) == 0 ==> Count(ino) == TailBlock(ino) && block - sb.dataStart !in fs.dataBits
    ensures TailOffset(ino) != 0 ==> Count(ino) == TailBlock(ino) + 1 && block == ino.direct[TailBlock(ino)] && block - sb.dataStart in fs.dataBits
  {
    TailFits(ino);
    if TailOffset(ino) != 0 {
      assert InUse(fs, sb, BlockNo(fs, ino, TailBlock(ino)));
    }
  }

  lemma ChosenFacts(fs: Records, sb: Super, p: nat, name: Name, inum: U32, block: U32)
    requires Ready(fs, sb, p, name, inum, block)
    ensures block in fs.data && |fs.data[block]| == BLOCK && sb.dataStart <= block && 0 < block
    ensures fs.inodes[p].sz % DIRENT_SIZE == 0
    ensures TailOffset(fs.inodes[p]) == 0 ==> Count(fs.inodes[p]) == TailBlock(fs.inodes[p]) && block - sb.dataStart !in fs.dataBits
    ensures TailOffset(fs.inodes[p]) != 0 ==>
              && Count(fs.inodes[p]) == TailBlock(fs.inodes[p]) + 1 && block == fs.inodes[p].direct[TailBlock(fs.inodes[p])]
              && block - sb.dataStart in fs.dataBits
  {
    var ino := fs.inodes[p];
    assert InodeOk(fs, sb, ino) && EntriesOk(fs, ino);
    BlockFacts(fs, sb, ino, block);
  }

  /** No other live inode owns the chosen block. */
  lemma ChosenElsewhere(fs: Records, sb: Super, p: nat, name: Name, inum: U32, block: U32, i: nat)
    requires Ready(fs, sb, p, name, inum, block) && Live(fs, i) && i != p
    ensures block as nat !in Owned(fs, fs.inodes[i])
  {
    ChosenFacts(fs, sb, p, name, inum, block);
    var ino := fs.inodes[p];
    if TailOffset(ino) != 0 {
      assert BlockNo(fs, ino, TailBlock(ino)) in Owned(fs, ino);
    } else {
      assert InodeOk(fs, sb, fs.inodes[i]);
      forall b | b in Owned(fs, fs.inodes[i]) ensures InUse(fs, sb, b) { OwnedInUse(fs, sb, fs.inodes[i], b); }
    }
  }

  lemma OwnedInUse(fs: Records, sb: Super, ino: INode, b: nat)
    requires InodeOk(fs, sb, ino) && b in Owned(fs, ino)
    ensures InUse(fs, sb, b)
  {}

  // ---- the parent ----

  /** The parent after the creation owns what it owned, and the chosen block. */
  lemma ParentBlocks(fs: Records, sb: Super, p: nat, name: Name, inum: U32, block: U32, fs': Records)
    requires Ready(fs, sb, p, name, inum, block)
    ensures var ino := fs.inodes[p];
            var ino' := Extended(ino, block);
            && Count(ino') == TailBlock(ino) + 1 && !HasIndirect(ino) && !HasIndirect(ino')
            && (forall j | 0 <= j < Count(ino) :: BlockNo(fs', ino', j) == BlockNo(fs, ino, j))
            && BlockNo(fs', ino', TailBlock(ino)) == block
            && Owned(fs', ino') == Owned(fs, ino) + {block as nat}
            && EntryCount(ino') == EntryCount(ino) + 1 && ino'.sz % DIRENT_SIZE == 0
  {}

  lemma ParentOk(fs: Records, sb: Super, p: nat, name: Name, inum: U32, block: U32, fs': Records)
    requires Ready(fs, sb, p, name, inum, block)
    requires fs'.data.Keys == fs.data.Keys && fs'.dataBits == fs.dataBits + {block - sb.dataStart}
    ensures InodeOk(fs', sb, Extended(fs.inodes[p], block))
  {
    var ino := fs.inodes[p];
    var ino' := Extended(ino, block);
    ChosenFacts(fs, sb, p, name, inum, block);
    ParentBlocks(fs, sb, p, name, inum, block, fs');
    assert InodeOk(fs, sb, ino);
    hide FsOk, Creatable, Find, Owned, Chosen;
    forall j | 0 <= j < Count(ino') ensures InUse(fs', sb, BlockNo(fs', ino', j)) {
      if j < Count(ino) { assert InUse(fs, sb, BlockNo(fs, ino, j)); }
    }
    forall i, j | 0 <= i < j < Count(ino') ensures BlockNo(fs', ino', i) != BlockNo(fs', ino', j) {
      if TailOffset(ino) == 0 && j == TailBlock(ino) {
        assert InUse(fs, sb, BlockNo(fs, ino, i));
      } else {
        assert BlockNo(fs, ino, i) != BlockNo(fs, ino, j);
      }
    }
  }

  /** Where the entries of the parent are: the old ones before the tail, in other blocks or lower in the same one. */
  lemma OldEntryPlace(ino: INode, i: nat)
    requires ino.sz % DIRENT_SIZE == 0 && i < EntryCount(ino)
    ensures i * DIRENT_SIZE / BLOCK < Count(ino) && i * DIRENT_SIZE / BLOCK <= TailBlock(ino)
    ensures i * DIRENT_SIZE / BLOCK == TailBlock(ino) ==> i * DIRENT_SIZE % BLOCK + DIRENT_SIZE <= TailOffset(ino)
  {}

  lemma SplicedEntry(block: seq<Octet>, at: nat, e: DirEnt, i: nat)
    requires |block| == BLOCK && at + DIRENT_SIZE <= BLOCK && i * DIRENT_SIZE % BLOCK + DIRENT_SIZE <= BLOCK
    ensures i * DIRENT_SIZE % BLOCK == at ==> EntryIn(Spliced(block, at, DirEntBytes(e)), i) == e
    ensures i * DIRENT_SIZE % BLOCK + DIRENT_SIZE <= at ==> EntryIn(Spliced(block, at, DirEntBytes(e)), i) == EntryIn(block, i)
  {
    var x := i * DIRENT_SIZE % BLOCK;
    var s := Spliced(block, at, DirEntBytes(e));
    DirEntRoundTrip(e);
    if x == at {
      assert s[x..x + DIRENT_SIZE] == DirEntBytes(e);
    } else if x + DIRENT_SIZE <= at {
      assert s[x..x + DIRENT_SIZE] == block[x..x + DIRENT_SIZE];
    }
  }

  lemma ParentEntry(fs: Records, sb: Super, p: nat, name: Name, inum: U32, block: U32, e: DirEnt, i: nat)
    requires Ready(fs, sb, p, name, inum, block) && i <= EntryCount(fs.inodes[p])
    requires block in fs.data && |fs.data[block]| == BLOCK && sb.dataStart <= block && TailOffset(fs.inodes[p]) + DIRENT_SIZE <= BLOCK
    ensures var ino := fs.inodes[p];
            EntryAt(Created(fs, sb, p, e, inum, block), Extended(ino, block), i) ==
            if i < EntryCount(ino) then EntryAt(fs, ino, i) else Some(e)
  {
    var ino := fs.inodes[p];
    var ino' := Extended(ino, block);
    var fs' := Created(fs, sb, p, e, inum, block);
    ChosenFacts(fs, sb, p, name, inum, block);
    ParentBlocks(fs, sb, p, name, inum, block, fs');
    TailFits(ino);
    assert InodeOk(fs, sb, ino);
    hide FsOk, Creatable, Find, Owned, Chosen, InodeOk, DirEntBytes, DirEntOf;
    if i < EntryCount(ino) {
      OldEntryPlace(ino, i);
      var j := i * DIRENT_SIZE / BLOCK;
      var b := BlockNo(fs, ino, j);
      if b == block {
        TailOnly(fs, sb, ino, block, j);
        SplicedEntry(fs.data[block], TailOffset(ino), e, i);
      }
    } else {
      assert i * DIRENT_SIZE == ino.sz;
      SplicedEntry(fs.data[block], TailOffset(ino), e, i);
    }
  }

  /** An old block that is the chosen one is the tail block. */
  lemma TailOnly(fs: Records, sb: Super, ino: INode, block: U32, j: nat)
    requires InodeOk(fs, sb, ino) && j < Count(ino) && BlockNo(fs, ino, j) == block && TailBlock(ino) < DIRECT_BLOCKS
    requires Count(ino) == if TailOffset(ino) == 0 then TailBlock(ino) else TailBlock(ino) + 1
    requires TailOffset(ino) == 0 ==> !InUse(fs, sb, block)
    requires TailOffset(ino) != 0 ==> block == ino.direct[TailBlock(ino)]
    ensures j == TailBlock(ino)
  {
    assert InUse(fs, sb, BlockNo(fs, ino, j));
    assert j < TailBlock(ino) < Count(ino) ==> BlockNo(fs, ino, j) != BlockNo(fs, ino, TailBlock(ino));
  }

  // ---- the whole file system ----

  /** What the creation leaves of another live inode: its record, its blocks, its entries. */
  lemma OtherKept(fs: Records, sb: Super, p: nat, name: Name, inum: U32, block: U32, fs': Records, i: nat)
    requires Ready(fs, sb, p, name, inum, block) && Live(fs, i) && i != p
    requires sb.dataStart <= block && block in fs.data && fs'.dataBits == fs.dataBits + {block - sb.dataStart}
    requires fs'.data.Keys == fs.data.Keys && fs'.data == fs.data[block := fs'.data[block]]
    ensures Keeps(fs, fs', fs.inodes[i])
  {
    ChosenElsewhere(fs, sb, p, name, inum, block, i);
  }

  /**
   Directory `p` has the entry `e` more, inode `inum` and the block are taken.  The entry is the one
   for the new name or, after a rollback that did not get through, an empty one.
   */
  ghost predicate Step(fs: Records, sb: Super, p: nat, name: Name, inum: U32, block: U32, e: DirEnt, fs': Records) {
    && Ready(fs, sb, p, name, inum, block) && (e == EntryFor(inum, name) || e.nameLen == 0)
    && block in fs.data && |fs.data[block]| == BLOCK && sb.dataStart <= block && TailOffset(fs.inodes[p]) + DIRENT_SIZE <= BLOCK
    && fs' == Created(fs, sb, p, e, inum, block)
  }

  lemma StepShape(fs: Records, sb: Super, p: nat, name: Name, inum: U32, block: U32, e: DirEnt, fs': Records)
    requires Step(fs, sb, p, name, inum, block, e, fs')
    ensures Shape(fs', sb) && Live(fs', ROOT) && fs'.inodes[ROOT].ty == DIRECTORY && p != inum
    ensures fs'.inodes[p] == Extended(fs.inodes[p], block) && fs'.inodes[inum] == EmptyFile()
    ensures forall i: nat :: Live(fs', i) <==> Live(fs, i) || i == inum
    ensures forall i: nat | Live(fs, i) && i != p :: fs'.inodes[i] == fs.inodes[i]
  {}

  lemma StepInode(fs: Records, sb: Super, p: nat, name: Name, inum: U32, block: U32, e: DirEnt, fs': Records, i: nat)
    requires Step(fs, sb, p, name, inum, block, e, fs') && Live(fs', i)
    ensures InodeOk(fs', sb, fs'.inodes[i])
    ensures Owned(fs', fs'.inodes[i]) ==
            if i == p then Owned(fs, fs.inodes[p]) + {block as nat} else if i == inum then {} else Owned(fs, fs.inodes[i])
  {
    StepShape(fs, sb, p, name, inum, block, e, fs');
    if i == p {
      hide Find, EntriesOk;
      ParentOk(fs, sb, p, name, inum, block, fs');
      ParentBlocks(fs, sb, p, name, inum, block, fs');
    } else if i == inum {
      hide Find, EntriesOk;
      assert Count(EmptyFile()) == 0;
    } else {
      OtherKept(fs, sb, p, name, inum, block, fs', i);
      SameInode(fs, fs', sb, fs.inodes[i]);
      assert InodeOk(fs, sb, fs.inodes[i]);
    }
  }

  lemma StepParentEntries(fs: Records, sb: Super, p: nat, name: Name, inum: U32, block: U32, e: DirEnt, fs': Records)
    requires Step(fs, sb, p, name, inum, block, e, fs')
    ensures EntriesOk(fs', fs'.inodes[p])
  {
    var ino := fs.inodes[p];
    var ino' := Extended(ino, block);
    var n := EntryCount(ino);
    StepShape(fs, sb, p, name, inum, block, e, fs');
    ParentBlocks(fs, sb, p, name, inum, block, fs');
    assert EntriesOk(fs, ino);
    FindSawAll(fs, ino, name, 0);
    EntryName(inum, name);
    forall i | 0 <= i < EntryCount(ino') ensures EntryAt(fs', ino', i) == if i < n then EntryAt(fs, ino, i) else Some(e) {
      ParentEntry(fs, sb, p, name, inum, block, e, i);
    }
    hide FsOk, Ready, Find, Owned, EntryAt;
    forall i | 0 <= i < EntryCount(ino') ensures EntryOk(fs', EntryAt(fs', ino', i)) {
      if i < n { assert EntryOk(fs, EntryAt(fs, ino, i)); }
    }
    forall i, j | 0 <= i < j < EntryCount(ino') ensures NamesDiffer(EntryAt(fs', ino', i), EntryAt(fs', ino', j)) {
      if j < n { assert NamesDiffer(EntryAt(fs, ino, i), EntryAt(fs, ino, j)); }
    }
  }

  lemma StepEntries(fs: Records, sb: Super, p: nat, name: Name, inum: U32, block: U32, e: DirEnt, fs': Records, i: nat)
    requires Step(fs, sb, p, name, inum, block, e, fs') && Live(fs', i) && fs'.inodes[i].ty == DIRECTORY
    ensures EntriesOk(fs', fs'.inodes[i])
  {
    StepShape(fs, sb, p, name, inum, block, e, fs');
    if i == p {
      StepParentEntries(fs, sb, p, name, inum, block, e, fs');
    } else {
      OtherKept(fs, sb, p, name, inum, block, fs', i);
      SameEntries(fs, fs', fs.inodes[i]);
      assert EntriesOk(fs, fs.inodes[i]);
    }
  }

  /** A successful creation keeps the invariant of the file system. */
  lemma CreateKeepsFs(fs: Records, sb: Super, p: nat, name: Name, inum: U32, block: U32, e: DirEnt, fs': Records)
    requires Step(fs, sb, p, name, inum, block, e, fs')
    ensures FsOk(fs', sb)
  {
    StepShape(fs, sb, p, name, inum, block, e, fs');
    forall i: nat | Live(fs', i) ensures InodeOk(fs', sb, fs'.inodes[i]) {
      StepInode(fs, sb, p, name, inum, block, e, fs', i);
    }
    forall i: nat | Live(fs', i) && fs'.inodes[i].ty == DIRECTORY ensures EntriesOk(fs', fs'.inodes[i]) {
      StepEntries(fs, sb, p, name, inum, block, e, fs', i);
    }
    forall i: nat, j: nat | Live(fs', i) && Live(fs', j) && i != j ensures Owned(fs', fs'.inodes[i]) !! Owned(fs', fs'.inodes[j]) {
      StepApart(fs, sb, p, name, inum, block, e, fs', i, j);
    }
  }

  lemma StepApart(fs: Records, sb: Super, p: nat, name: Name, inum: U32, block: U32, e: DirEnt, fs': Records, i: nat, j: nat)
    requires Step(fs, sb, p, name, inum, block, e, fs') && Live(fs', i) && Live(fs', j) && i != j
    ensures Owned(fs', fs'.inodes[i]) !! Owned(fs', fs'.inodes[j])
  {
    StepShape(fs, sb, p, name, inum, block, e, fs');
    StepInode(fs, sb, p, name, inum, block, e, fs', i);
    StepInode(fs, sb, p, name, inum, block, e, fs', j);
    if i != inum && i != p { ChosenElsewhere(fs, sb, p, name, inum, block, i); }
    if j != inum && j != p { ChosenElsewhere(fs, sb, p, name, inum, block, j); }
    if i != inum && j != inum { assert Owned(fs, fs.inodes[i]) !! Owned(fs, fs.inodes[j]); }
  }

  // ---- what paths resolve to ----

  /** The new name is found, and every other name in the parent gives what it gave. */
  lemma CreateFinds(fs: Records, sb: Super, p: nat, name: Name, inum: U32, block: U32, e: DirEnt, fs': Records, other: Name)
    requires Step(fs, sb, p, name, inum, block, e, fs') && e == EntryFor(inum, name)
    ensures Find(fs', fs'.inodes[p], name) == Ok(inum)
    ensures other != name ==> Find(fs', fs'.inodes[p], other) == Find(fs, fs.inodes[p], other)
  {
    var ino := fs.inodes[p];
    var ino' := Extended(ino, block);
    var n := EntryCount(ino);
    StepShape(fs, sb, p, name, inum, block, e, fs');
    ParentBlocks(fs, sb, p, name, inum, block, fs');
    assert EntriesOk(fs, ino);
    FindSawAll(fs, ino, name, 0);
    EntryName(inum, name);
    forall i | 0 <= i < EntryCount(ino') ensures EntryAt(fs', ino', i) == if i < n then EntryAt(fs, ino, i) else Some(e) {
      ParentEntry(fs, sb, p, name, inum, block, e, i);
    }
    hide FsOk, Ready, Owned, EntryAt, FindFrom;
    FindFound(fs', ino', name, 0, n);
    if other != name { FindAppended(fs, ino, fs', ino', other, 0); }
  }

  /** One more entry at the end with another name does not change the answer. */
  lemma {:induction false} FindAppended(fs: Records, ino: INode, fs': Records, ino': INode, name: Name, i: nat)
    requires EntryCount(ino') == EntryCount(ino) + 1 && i <= EntryCount(ino)
    requires forall j | i <= j < EntryCount(ino) :: EntryAt(fs', ino', j) == EntryAt(fs, ino, j)
    requires var e := EntryAt(fs', ino', EntryCount(ino)); e.Some? && e.value.nameLen <= NAME_MAX && NameOf(e.value) != name
    ensures FindFrom(fs', ino', name, i) == FindFrom(fs, ino, name, i)
    decreases EntryCount(ino) - i
  {
    if i < EntryCount(ino) { FindAppended(fs, ino, fs', ino', name, i + 1); }
  }

  /** The walk along `path` from inode `i` asks directory `p` for `name`. */
  ghost predicate Asks(fs: Records, i: nat, path: seq<Name>, p: nat, name: Name)
    decreases |path|
  {
    path != [] && i < |fs.inodes| && fs.inodes[i].ty != FILE
    && ((i == p && path[0] == name)
        || (Find(fs, fs.inodes[i], path[0]).Ok? && Asks(fs, Find(fs, fs.inodes[i], path[0]).value, path[1..], p, name)))
  }

  lemma CreateOther(fs: Records, sb: Super, p: nat, name: Name, inum: U32, block: U32, e: DirEnt, fs': Records, i: nat, other: Name)
    requires Step(fs, sb, p, name, inum, block, e, fs') && e == EntryFor(inum, name) && Live(fs, i) && !(i == p && other == name)
    ensures i < |fs'.inodes| && fs'.inodes[i].ty == fs.inodes[i].ty
    ensures Find(fs', fs'.inodes[i], other) == Find(fs, fs.inodes[i], other)
  {
    StepShape(fs, sb, p, name, inum, block, e, fs');
    if i == p {
      CreateFinds(fs, sb, p, name, inum, block, e, fs', other);
    } else {
      OtherKept(fs, sb, p, name, inum, block, fs', i);
      SameEntries(fs, fs', fs.inodes[i]);
    }
  }

  /** Every path that does not ask the parent for the new name resolves as before. */
  lemma {:induction false} CreateKeepsPaths(fs: Records, sb: Super, p: nat, name: Name, inum: U32, block: U32, e: DirEnt, fs': Records, i: nat, path: seq<Name>)
    requires Step(fs, sb, p, name, inum, block, e, fs') && e == EntryFor(inum, name) && Live(fs, i) && !Asks(fs, i, path, p, name)
    requires forall k | 0 <= k < |path| :: path[k] != []
    ensures Resolve(fs', i, path) == Resolve(fs, i, path)
    decreases |path|
  {
    assert FsOk(fs, sb);
    hide Step, FsOk, Find, InodeOk, EntriesOk;
    if path != [] && fs.inodes[i].ty != FILE {
      CreateOther(fs, sb, p, name, inum, block, e, fs', i, path[0]);
      var r := Find(fs, fs.inodes[i], path[0]);
      if r.Ok? {
        FoundLive(fs, sb, i, path[0]);
        CreateKeepsPaths(fs, sb, p, name, inum, block, e, fs', r.value, path[1..]);
      }
    } else if path != [] {
      StepShape(fs, sb, p, name, inum, block, e, fs');
    }
  }

  /** The new path resolves to the new inode. */
  lemma {:induction false} CreateResolves(fs: Records, sb: Super, p: nat, name: Name, inum: U32, block: U32, e: DirEnt, fs': Records, i: nat, path: seq<Name>)
    requires Step(fs, sb, p, name, inum, block, e, fs') && e == EntryFor(inum, name) && Live(fs, i) && Resolve(fs, i, path) == Ok(p)
    requires forall k | 0 <= k < |path| :: path[k] != []
    ensures Resolve(fs', i, path + [name]) == Ok(inum)
    decreases |path|
  {
    assert FsOk(fs, sb) && fs.inodes[p].ty == DIRECTORY && Find(fs, fs.inodes[p], name) == Err(NotFound);
    StepShape(fs, sb, p, name, inum, block, e, fs');
    var full := path + [name];
    hide Step, FsOk, Find, InodeOk, EntriesOk;
    if path == [] {
      CreateFinds(fs, sb, p, name, inum, block, e, fs', name);
      assert full[0] == name && full[1..] == [];
    } else {
      assert full[0] == path[0] && full[1..] == path[1..] + [name];
      CreateOther(fs, sb, p, name, inum, block, e, fs', i, path[0]);
      FoundLive(fs, sb, i, path[0]);
      CreateResolves(fs, sb, p, name, inum, block, e, fs', Find(fs, fs.inodes[i], path[0]).value, path[1..]);
    }
  }

  /** A file with nothing in it: no byte, no block, one name. */
  ghost predicate NewFile(fs: Records, i: nat) {
    && i < |fs.inodes| && fs.inodes[i].ty == FILE && fs.inodes[i].links == 1 && fs.inodes[i].sz == 0
    && Body(fs, fs.inodes[i]) == [] && Owned(fs, fs.inodes[i]) == {}
    && fs.inodes[i].indirect == 0 && forall j | 0 <= j < DIRECT_BLOCKS :: fs.inodes[i].direct[j] == 0
  }

  /** The path opens a file with nothing in it, and no path goes on through it. */
  ghost predicate NewPath(fs: Records, i: nat, names: seq<Name>, inum: nat) {
    && Resolve(fs, i, names) == Ok(inum) && NewFile(fs, inum)
    && forall more: seq<Name> | more != [] :: Resolve(fs, i, names + more) == Err(Fs)
  }

  lemma EmptyIsNew(fs: Records, i: nat)
    requires i < |fs.inodes| && fs.inodes[i] == EmptyFile()
    ensures NewFile(fs, i)
  {
    assert Count(EmptyFile()) == 0;
  }

  lemma NewEnds(fs: Records, i: nat, names: seq<Name>, inum: nat)
    requires Resolve(fs, i, names) == Ok(inum) && NewFile(fs, inum)
    ensures NewPath(fs, i, names, inum)
  {
    hide NewFile;
    assert inum < |fs.inodes| && fs.inodes[inum].ty == FILE by { NewIsFile(fs, inum); }
    forall more: seq<Name> | more != [] ensures Resolve(fs, i, names + more) == Err(Fs) {
      ResolveConcat(fs, i, names, more);
    }
  }

  lemma NewIsFile(fs: Records, i: nat)
    requires NewFile(fs, i)
    ensures i < |fs.inodes| && fs.inodes[i].ty == FILE
  {}

  /** A creation leaves an empty file at the new path. */
  lemma CreatesEmpty(fs: Records, sb: Super, p: nat, name: Name, inum: U32, block: U32, e: DirEnt, fs': Records, i: nat, path: seq<Name>)
    requires Step(fs, sb, p, name, inum, block, e, fs') && e == EntryFor(inum, name) && Live(fs, i) && Resolve(fs, i, path) == Ok(p)
    requires forall k | 0 <= k < |path| :: path[k] != []
    ensures NewPath(fs', i, path + [name], inum)
  {
    CreateResolves(fs, sb, p, name, inum, block, e, fs', i, path);
    StepShape(fs, sb, p, name, inum, block, e, fs');
    hide Step, Find, NewPath, NewFile, EmptyFile, Resolve, Shape;
    EmptyIsNew(fs', inum);
    NewEnds(fs', i, path + [name], inum);
  }

  // ---- what survives ----

  /** A walk that asks for the missing name got nowhere. */
  lemma {:induction false} AsksInVain(fs: Records, i: nat, path: seq<Name>, p: nat, name: Name)
    requires p < |fs.inodes| && Find(fs, fs.inodes[p], name).Err? && Asks(fs, i, path, p, name)
    ensures Resolve(fs, i, path).Err?
    decreases |path|
  {
    if !(i == p && path[0] == name) {
      AsksInVain(fs, Find(fs, fs.inodes[i], path[0]).value, path[1..], p, name);
    }
  }

  lemma StepFile(fs: Records, sb: Super, p: nat, name: Name, inum: U32, block: U32, e: DirEnt, fs': Records, i: nat)
    requires Step(fs, sb, p, name, inum, block, e, fs') && Live(fs, i) && fs.inodes[i].ty == FILE
    ensures FileKept(fs, fs', i, {})
  {
    StepShape(fs, sb, p, name, inum, block, e, fs');
    OtherKept(fs, sb, p, name, inum, block, fs', i);
    SameBody(fs, fs', fs.inodes[i]);
  }

  lemma StepInodes(fs: Records, sb: Super, p: nat, name: Name, inum: U32, block: U32, e: DirEnt, fs': Records)
    requires Step(fs, sb, p, name, inum, block, e, fs')
    ensures |fs'.inodes| == |fs.inodes| && fs.inodeBits <= fs'.inodeBits
    ensures forall i: nat | Live(fs, i) :: fs'.inodes[i].ty == fs.inodes[i].ty
  {
    StepShape(fs, sb, p, name, inum, block, e, fs');
  }

  /** Everything survives a step of a creation; paths at least as far as they led somewhere. */
  lemma StepSurvives(fs: Records, sb: Super, p: nat, name: Name, inum: U32, block: U32, e: DirEnt, fs': Records)
    requires Step(fs, sb, p, name, inum, block, e, fs')
    ensures Survives(fs, fs', sb, {}) && (e.nameLen == 0 ==> SamePaths(fs, fs'))
  {
    CreateKeepsFs(fs, sb, p, name, inum, block, e, fs');
    StepInodes(fs, sb, p, name, inum, block, e, fs');
    if e.nameLen == 0 {
      EmptyKeepsPaths(fs, sb, p, name, inum, block, e, fs');
    } else {
      NewKeepsPaths(fs, sb, p, name, inum, block, e, fs');
    }
    hide Step, FsOk, Resolve, FileKept;
    forall i: nat | Live(fs, i) && fs.inodes[i].ty == FILE ensures FileKept(fs, fs', i, {}) {
      StepFile(fs, sb, p, name, inum, block, e, fs', i);
    }
  }

  lemma NewKeepsPaths(fs: Records, sb: Super, p: nat, name: Name, inum: U32, block: U32, e: DirEnt, fs': Records)
    requires Step(fs, sb, p, name, inum, block, e, fs') && e == EntryFor(inum, name)
    ensures PathsKept(fs, fs')
  {
    assert p < |fs.inodes| && Find(fs, fs.inodes[p], name).Err?;
    hide Step, Resolve, Asks, Find;
    forall i: nat, path | Live(fs, i) && Nonempty(path) && Resolve(fs, i, path).Ok? ensures Resolve(fs', i, path) == Resolve(fs, i, path) {
      if Asks(fs, i, path, p, name) {
        AsksInVain(fs, i, path, p, name);
      } else {
        CreateKeepsPaths(fs, sb, p, name, inum, block, e, fs', i, path);
      }
    }
  }

  /** An entry with an empty name is not found by any path. */
  lemma EmptyKeepsPaths(fs: Records, sb: Super, p: nat, name: Name, inum: U32, block: U32, e: DirEnt, fs': Records)
    requires Step(fs, sb, p, name, inum, block, e, fs') && e.nameLen == 0
    ensures SamePaths(fs, fs') && PathsKept(fs, fs')
  {
    assert FsOk(fs, sb);
    forall i: nat | Live(fs, i) ensures SameFinds(fs, fs', i) { EmptyFinds(fs, sb, p, name, inum, block, e, fs', i); }
    hide Step, FsOk;
    PathsSame(fs, fs', sb);
  }

  lemma EmptyFinds(fs: Records, sb: Super, p: nat, name: Name, inum: U32, block: U32, e: DirEnt, fs': Records, i: nat)
    requires Step(fs, sb, p, name, inum, block, e, fs') && e.nameLen == 0 && Live(fs, i)
    ensures SameFinds(fs, fs', i)
  {
    StepShape(fs, sb, p, name, inum, block, e, fs');
    if i == p {
      EmptyParent(fs, sb, p, name, inum, block, e, fs');
    } else {
      OtherKept(fs, sb, p, name, inum, block, fs', i);
      SameEntries(fs, fs', fs.inodes[i]);
    }
  }

  lemma EmptyParent(fs: Records, sb: Super, p: nat, name: Name, inum: U32, block: U32, e: DirEnt, fs': Records)
    requires Step(fs, sb, p, name, inum, block, e, fs') && e.nameLen == 0
    ensures SameFinds(fs, fs', p)
  {
    var ino := fs.inodes[p];
    var ino' := Extended(ino, block);
    var n := EntryCount(ino);
    StepShape(fs, sb, p, name, inum, block, e, fs');
    ParentBlocks(fs, sb, p, name, inum, block, fs');
    assert EntriesOk(fs, ino);
    forall i | 0 <= i < EntryCount(ino') ensures EntryAt(fs', ino', i) == if i < n then EntryAt(fs, ino, i) else Some(e) {
      ParentEntry(fs, sb, p, name, inum, block, e, i);
    }
    hide FsOk, Ready, Owned, EntryAt, FindFrom;
    forall other: Name | other != [] ensures Find(fs', ino', other) == Find(fs, ino, other) {
      FindAppended(fs, ino, fs', ino', other, 0);
    }
  }

  // ---- creations that fail ----

  /** What a failed creation may leave when the parent's record is as it was. */
  ghost predicate Untouched(fs: Records, fs': Records, sb: Super, p: nat) {
    && Shape(fs', sb) && |fs'.inodes| == |fs.inodes| && Live(fs, p)
    && fs.inodeBits <= fs'.inodeBits && fs.dataBits <= fs'.dataBits
    && (forall i: nat | Live(fs, i) :: fs'.inodes[i] == fs.inodes[i])
    && (forall b | b in fs.data :: SameFront(fs, fs', sb, p, b))
  }

  /** Block `b` is not in use, or is unchanged, or is the parent's tail block and unchanged before the tail. */
  ghost predicate SameFront(fs: Records, fs': Records, sb: Super, p: nat, b: nat)
    requires b in fs.data && p < |fs.inodes|
  {
    var ino := fs.inodes[p];
    || !InUse(fs, sb, b)
    || (b in fs'.data && fs'.data[b] == fs.data[b])
    || (TailBlock(ino) < Count(ino) && !HasIndirect(ino) && b == BlockNo(fs, ino, TailBlock(ino))
        && b in fs'.data && |fs'.data[b]| == |fs.data[b]|
        && forall o | 0 <= o < TailOffset(ino) && o < |fs.data[b]| :: fs'.data[b][o] == fs.data[b][o])
  }

  lemma UntouchedOther(fs: Records, fs': Records, sb: Super, p: nat, i: nat)
    requires FsOk(fs, sb) && Untouched(fs, fs', sb, p) && Live(fs, i) && i != p
    ensures Keeps(fs, fs', fs.inodes[i])
  {}

  lemma UntouchedParentEntry(fs: Records, fs': Records, sb: Super, p: nat, i: nat)
    requires FsOk(fs, sb) && Untouched(fs, fs', sb, p) && fs.inodes[p].ty == DIRECTORY
    requires i < EntryCount(fs.inodes[p]) && !HasIndirect(fs.inodes[p])
    ensures EntryAt(fs', fs.inodes[p], i) == EntryAt(fs, fs.inodes[p], i)
  {
    var ino := fs.inodes[p];
    assert InodeOk(fs, sb, ino) && EntriesOk(fs, ino);
    OldEntryPlace(ino, i);
    EntryInside(ino, i);
    var j := i * DIRENT_SIZE / BLOCK;
    var b := BlockNo(fs, ino, j);
    assert InUse(fs, sb, b) && SameFront(fs, fs', sb, p, b);
    assert j < TailBlock(ino) < Count(ino) ==> b != BlockNo(fs, ino, TailBlock(ino));
    var x := i * DIRENT_SIZE % BLOCK;
    assert fs'.data[b][x..x + DIRENT_SIZE] == fs.data[b][x..x + DIRENT_SIZE];
  }

  lemma UntouchedParent(fs: Records, fs': Records, sb: Super, p: nat)
    requires FsOk(fs, sb) && Untouched(fs, fs', sb, p) && fs.inodes[p].ty == DIRECTORY && !HasIndirect(fs.inodes[p])
    ensures InodeOk(fs', sb, fs.inodes[p]) && EntriesOk(fs', fs.inodes[p])
  {
    var ino := fs.inodes[p];
    assert InodeOk(fs, sb, ino) && EntriesOk(fs, ino);
    forall i | 0 <= i < EntryCount(ino) ensures EntryAt(fs', ino, i) == EntryAt(fs, ino, i) {
      UntouchedParentEntry(fs, fs', sb, p, i);
    }
    hide FsOk;
    forall j | 0 <= j < Count(ino) ensures InUse(fs', sb, BlockNo(fs', ino, j)) {
      assert InUse(fs, sb, BlockNo(fs, ino, j));
    }
    forall i, j | 0 <= i < j < Count(ino) ensures BlockNo(fs', ino, i) != BlockNo(fs', ino, j) {
      assert BlockNo(fs, ino, i) != BlockNo(fs, ino, j);
    }
    forall i | 0 <= i < EntryCount(ino) ensures EntryOk(fs', EntryAt(fs', ino, i)) {
      assert EntryOk(fs, EntryAt(fs, ino, i));
    }
    forall i, j | 0 <= i < j < EntryCount(ino) ensures NamesDiffer(EntryAt(fs', ino, i), EntryAt(fs', ino, j)) {
      assert NamesDiffer(EntryAt(fs, ino, i), EntryAt(fs, ino, j));
    }
  }

  lemma UntouchedFinds(fs: Records, fs': Records, sb: Super, p: nat, i: nat)
    requires FsOk(fs, sb) && Untouched(fs, fs', sb, p) && fs.inodes[p].ty == DIRECTORY && !HasIndirect(fs.inodes[p]) && Live(fs, i)
    ensures SameFinds(fs, fs', i) && InodeOk(fs', sb, fs.inodes[i]) && Owned(fs', fs.inodes[i]) == Owned(fs, fs.inodes[i])
    ensures fs.inodes[i].ty == DIRECTORY ==> EntriesOk(fs', fs.inodes[i])
  {
    var ino := fs.inodes[i];
    if i == p {
      UntouchedParent(fs, fs', sb, p);
      forall j | 0 <= j < Count(ino) ensures BlockNo(fs', ino, j) == BlockNo(fs, ino, j) {}
      assert (set j | 0 <= j < Count(ino) :: BlockNo(fs', ino, j)) == (set j | 0 <= j < Count(ino) :: BlockNo(fs, ino, j));
      forall k | 0 <= k < EntryCount(ino) ensures EntryAt(fs', ino, k) == EntryAt(fs, ino, k) { UntouchedParentEntry(fs, fs', sb, p, k); }
      forall name ensures Find(fs', ino, name) == Find(fs, ino, name) { FindSame(fs, ino, fs', ino, name, 0); }
    } else {
      UntouchedOther(fs, fs', sb, p, i);
      assert InodeOk(fs, sb, ino) && (ino.ty == DIRECTORY ==> EntriesOk(fs, ino));
      SameInode(fs, fs', sb, ino);
      SameEntries(fs, fs', ino);
    }
  }

  lemma UntouchedFile(fs: Records, fs': Records, sb: Super, p: nat, i: nat)
    requires FsOk(fs, sb) && Untouched(fs, fs', sb, p) && fs.inodes[p].ty == DIRECTORY && Live(fs, i) && fs.inodes[i].ty == FILE
    ensures FileKept(fs, fs', i, {})
  {
    UntouchedOther(fs, fs', sb, p, i);
    SameBody(fs, fs', fs.inodes[i]);
  }

  /** When the parent's record is as it was, everything survives, and nothing has changed for any path. */
  lemma UntouchedSurvives(fs: Records, fs': Records, sb: Super, p: nat)
    requires FsOk(fs, sb) && Untouched(fs, fs', sb, p) && fs.inodes[p].ty == DIRECTORY && !HasIndirect(fs.inodes[p])
    ensures fs.inodeBits <= fs'.inodeBits && Survives(fs, Limited(fs', fs.inodeBits), sb, {}) && SamePaths(fs, Limited(fs', fs.inodeBits))
  {
    var v := Limited(fs', fs.inodeBits);
    UntouchedBits(fs, fs', sb, p, fs.inodeBits, fs'.dataBits);
    assert Untouched(fs, v, sb, p) && fs.inodeBits <= fs'.inodeBits;
    forall i: nat | Live(fs, i)
      ensures SameFinds(fs, v, i) && InodeOk(v, sb, fs.inodes[i]) && Owned(v, fs.inodes[i]) == Owned(fs, fs.inodes[i])
      ensures fs.inodes[i].ty == DIRECTORY ==> EntriesOk(v, fs.inodes[i])
    {
      UntouchedFinds(fs, v, sb, p, i);
    }
    forall i: nat | Live(fs, i) && fs.inodes[i].ty == FILE ensures FileKept(fs, v, i, {}) { UntouchedFile(fs, v, sb, p, i); }
    hide InodeOk, EntriesOk, Owned, SameFinds, FileKept, SameFront, Find, Resolve;
    forall i: nat ensures Live(v, i) <==> Live(fs, i) {}
    PathsSame(fs, v, sb);
  }

  lemma UntouchedStart(fs: Records, g: Records, sb: Super, p: nat)
    requires FsOk(fs, sb) && Live(fs, p) && fs == Limited(g, fs.inodeBits) && fs.inodeBits <= g.inodeBits
    ensures Untouched(fs, g, sb, p)
  {}

  /** Bits that were clear may come and go. */
  lemma UntouchedBits(fs: Records, fs': Records, sb: Super, p: nat, inodeBits: set<nat>, dataBits: set<nat>)
    requires Untouched(fs, fs', sb, p) && fs.inodeBits <= inodeBits && fs.dataBits <= dataBits
    ensures Untouched(fs, fs'.(inodeBits := inodeBits, dataBits := dataBits), sb, p)
  {}

  /** The record of an inode that was free may change. */
  lemma UntouchedInode(fs: Records, fs': Records, sb: Super, p: nat, i: nat, x: INode)
    requires Untouched(fs, fs', sb, p) && i < |fs.inodes| && i !in fs.inodeBits
    ensures Untouched(fs, fs'.(inodes := fs'.inodes[i := x]), sb, p)
  {}

  /** The tail of the chosen block may change. */
  lemma UntouchedTail(fs: Records, fs': Records, sb: Super, p: nat, name: Name, inum: U32, block: U32, e: DirEnt)
    requires Ready(fs, sb, p, name, inum, block) && Untouched(fs, fs', sb, p)
    ensures block in fs'.data && TailOffset(fs.inodes[p]) + DIRENT_SIZE <= |fs'.data[block]|
    ensures Untouched(fs, fs'.(data := fs'.data[block := Spliced(fs'.data[block], TailOffset(fs.inodes[p]), DirEntBytes(e))]), sb, p)
  {
    var ino := fs.inodes[p];
    ChosenFacts(fs, sb, p, name, inum, block);
    TailFits(ino);
    assert Shape(fs, sb) && InodeOk(fs, sb, ino);
    hide FsOk, Creatable, Find, EntriesOk;
    var fs1 := fs'.(data := fs'.data[block := Spliced(fs'.data[block], TailOffset(ino), DirEntBytes(e))]);
    forall b | b in fs.data ensures SameFront(fs, fs1, sb, p, b) {
      assert SameFront(fs, fs', sb, p, b);
      if b == block && InUse(fs, sb, b) {
        assert BlockNo(fs, ino, TailBlock(ino)) == block && TailBlock(ino) < Count(ino);
      }
    }
  }

  /** A block that nothing owns may change. */
  lemma UntouchedFree(fs: Records, fs': Records, sb: Super, p: nat, b: nat, bytes: seq<Octet>)
    requires Untouched(fs, fs', sb, p) && DataBlockNumber(sb, b) && b - sb.dataStart !in fs.dataBits && |bytes| == BLOCK
    ensures Untouched(fs, fs'.(data := fs'.data[b := bytes]), sb, p)
  {
    forall c | c in fs.data ensures SameFront(fs, fs'.(data := fs'.data[b := bytes]), sb, p, c) {
      assert SameFront(fs, fs', sb, p, c);
    }
  }

  // ---- what an attempt leaves on disk ----

  /** The empty entry a rollback writes over the new one. */
  function EmptyEntry(): DirEnt {
    DirEnt(0, 0, seq(NAME_MAX, _ => 0))
  }

  datatype EntryLeft = OldEntry | NewEntry | ErasedEntry
  datatype ParentLeft = AsWas | Longer | Restored

  /**
   What the writes of a creation left: whether the new inode's record is written, what is in the slot of
   the entry, what the parent's record is, and whether the inode and the block are still marked.
   */
  datatype Left = Left(recorded: bool, entry: EntryLeft, parent: ParentLeft, inodeKept: bool, blockKept: bool)

  const BEGUN: Left := Left(false, OldEntry, AsWas, true, true)
  const DONE: Left := Left(true, NewEntry, Longer, true, true)

  /**
   What a creation can leave.  The record is written before the entry and the entry before the parent; the
   entry is erased only after the parent's write failed; and the inode and the block are given back only
   if the parent's write was not tried or the old record is restored.
   */
  predicate Possible(left: Left) {
    && (left.entry.OldEntry? || left.recorded) && (left.parent.AsWas? || !left.entry.OldEntry?)
    && (left.parent.Longer? || (left.parent.AsWas? && left.entry.ErasedEntry?) ==> left.inodeKept && left.blockKept)
  }

  /** `ino` can be used as the record of inode `p`: its blocks are there and, for a directory, its entries. */
  ghost predicate Usable(g: Records, sb: Super, p: nat, ino: INode) {
    && Shape(g, sb) && 0 < p < |g.inodes| && p in g.inodeBits && InodeOk(g, sb, ino)
    && (ino.ty == DIRECTORY ==> ino.sz % DIRENT_SIZE == 0)
  }

  /** The checks on the parent's record `ino` passed, and an inode and a block are chosen. */
  ghost predicate Begun(g: Records, sb: Super, p: nat, ino: INode, name: Name, inum: U32, block: U32) {
    && Usable(g, sb, p, ino) && ino.ty == DIRECTORY && 0 < |name| <= NAME_MAX && Find(g, ino, name) == Err(NotFound)
    && ino.sz + DIRENT_SIZE < 0x1_0000_0000 && TailBlock(ino) < DIRECT_BLOCKS && Chosen(g, sb, ino, block)
    && p < |g.inodes| && 0 < inum < |g.inodes| && inum !in g.inodeBits && p != inum
    && block in g.data && |g.data[block]| == BLOCK && sb.dataStart <= block && TailOffset(ino) + DIRENT_SIZE <= BLOCK
  }

  ghost function SlotWritten(data: map<nat, seq<Octet>>, ino: INode, block: nat, e: DirEnt): map<nat, seq<Octet>>
    requires block in data && |data[block]| == BLOCK && TailOffset(ino) + DIRENT_SIZE <= BLOCK
  {
    data[block := Spliced(data[block], TailOffset(ino), DirEntBytes(e))]
  }

  /** The records after an attempt. */
  ghost function After(g: Records, sb: Super, p: nat, ino: INode, name: Name, inum: U32, block: U32, left: Left): Records
    requires Begun(g, sb, p, ino, name, inum, block)
  {
    var parent := if left.parent.AsWas? then g.inodes[p] else if left.parent.Longer? then Extended(ino, block) else ino;
    Records(g.inodes[inum := if left.recorded then EmptyFile() else g.inodes[inum]][p := parent],
            if left.inodeKept then g.inodeBits + {inum as nat} else g.inodeBits,
            if left.blockKept then g.dataBits + {block - sb.dataStart} else g.dataBits,
            if left.entry.OldEntry? then g.data
            else SlotWritten(g.data, ino, block, if left.entry.NewEntry? then EntryFor(inum, name) else EmptyEntry()))
  }

  lemma BegunReady(fs: Records, g: Records, sb: Super, p: nat, name: Name, inum: U32, block: U32)
    requires FsOk(fs, sb) && fs == Limited(g, fs.inodeBits) && fs.inodeBits <= g.inodeBits && Live(fs, p)
    requires Begun(g, sb, p, fs.inodes[p], name, inum, block)
    ensures Ready(fs, sb, p, name, inum, block)
  {
    FindLimited(g, fs.inodeBits, fs.inodes[p], name);
  }

  /** As long as the parent's record is the old one, nothing that counts is touched. */
  lemma AfterUntouched(fs: Records, g: Records, sb: Super, p: nat, name: Name, inum: U32, block: U32, left: Left)
    requires FsOk(fs, sb) && fs == Limited(g, fs.inodeBits) && fs.inodeBits <= g.inodeBits && Live(fs, p)
    requires Begun(g, sb, p, fs.inodes[p], name, inum, block) && !left.parent.Longer?
    ensures Untouched(fs, After(g, sb, p, fs.inodes[p], name, inum, block, left), sb, p)
  {
    var ino := fs.inodes[p];
    BegunReady(fs, g, sb, p, name, inum, block);
    UntouchedStart(fs, g, sb, p);
    hide FsOk, Ready, Untouched, Find;
    var g' := After(g, sb, p, ino, name, inum, block, left);
    UntouchedInode(fs, g, sb, p, inum, g'.inodes[inum]);
    var f1 := g.(inodes := g.inodes[inum := g'.inodes[inum]]);
    assert f1.inodes == g'.inodes;
    if !left.entry.OldEntry? {
      UntouchedTail(fs, f1, sb, p, name, inum, block, if left.entry.NewEntry? then EntryFor(inum, name) else EmptyEntry());
    }
    UntouchedBits(fs, f1.(data := g'.data), sb, p, g'.inodeBits, g'.dataBits);
    assert f1.(data := g'.data).(inodeBits := g'.inodeBits, dataBits := g'.dataBits) == g';
  }

  /** Once the parent's record is the longer one, the creation has happened, with the new entry or an empty one. */
  lemma AfterStep(fs: Records, g: Records, sb: Super, p: nat, name: Name, inum: U32, block: U32, left: Left)
    requires FsOk(fs, sb) && fs == Limited(g, fs.inodeBits) && fs.inodeBits <= g.inodeBits && Live(fs, p)
    requires Begun(g, sb, p, fs.inodes[p], name, inum, block) && Possible(left) && left.parent.Longer?
    ensures var g' := After(g, sb, p, fs.inodes[p], name, inum, block, left);
            && fs.inodeBits + {inum as nat} <= g'.inodeBits
            && Step(fs, sb, p, name, inum, block, if left.entry.NewEntry? then EntryFor(inum, name) else EmptyEntry(),
                    Limited(g', fs.inodeBits + {inum as nat}))
  {
    BegunReady(fs, g, sb, p, name, inum, block);
    hide Ready, FsOk;
  }

  /** At most bits have been set. */
  ghost predicate OnlyMarks(g: Records, g': Records) {
    g' == g.(inodeBits := g'.inodeBits, dataBits := g'.dataBits) && g.inodeBits <= g'.inodeBits && g.dataBits <= g'.dataBits
  }

  /** An attempt with this inode and block left this. */
  ghost predicate Tried(g: Records, g': Records, sb: Super, p: nat, ino: INode, name: Name, inum: U32, block: U32, left: Left) {
    Begun(g, sb, p, ino, name, inum, block) && Possible(left) && g' == After(g, sb, p, ino, name, inum, block, left)
  }

  /** What a creation that failed can leave: some bits set, or what some attempt leaves. */
  ghost predicate FailedOn(g: Records, g': Records, sb: Super, p: nat, ino: INode, name: Name) {
    OnlyMarks(g, g') || exists inum: U32, block: U32, left: Left :: Tried(g, g', sb, p, ino, name, inum, block, left)
  }
}
