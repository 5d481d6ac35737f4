/**
 The inode records in memory.  The kernel reads a record from disk once and from then on uses its copy;
 a creation that fails leaves the copy of the parent as it was, whatever it left on disk.  What the
 kernel sees is the disk with the copies in place of the records.
 */
module VsfsCached {
  import opened Basics
  import opened VsfsDisk
  import opened VsfsRecords
  import opened VsfsTree
  import opened VsfsKept
  import opened VsfsCreate

  type Cache = map<nat, INode>

  /** The file system as the kernel sees it. */
  ghost function InMemory(g: Records, cache: Cache): Records {
    g.(inodes := seq<INode>(|g.inodes|, i requires 0 <= i < |g.inodes| => if i in cache then cache[i] else g.inodes[i]))
  }

  /** What the record on disk can be when the copy is `c`: the same, or longer by the one entry of a failed creation. */
  predicate Behind(c: INode, d: INode) {
    d == c || Outgrown(c, d)
  }

  predicate Outgrown(c: INode, d: INode) {
    && c.ty == DIRECTORY && c.sz % DIRENT_SIZE == 0 && TailBlock(c) < DIRECT_BLOCKS && c.sz + DIRENT_SIZE < 0x1_0000_0000
    && d == Extended(c, d.direct[TailBlock(c)])
    && (if TailOffset(c) == 0 then c.direct[TailBlock(c)] == 0 else d.direct[TailBlock(c)] == c.direct[TailBlock(c)])
  }

  /**
   What the kernel keeps: the invariant holds of the file system as it sees it, and each copy is the record
   on disk, or behind it by one entry.
   */
  ghost predicate KernelOk(g: Records, cache: Cache, sb: Super, live: set<nat>) {
    && Sound(InMemory(g, cache), sb, live)
    && (forall i | i in cache :: i in live && 0 < i < |g.inodes| && Behind(cache[i], g.inodes[i]))
  }

  /** The file system as the kernel sees it, with the inodes that count. */
  ghost function Now(g: Records, cache: Cache, live: set<nat>): Records {
    Limited(InMemory(g, cache), live)
  }

  lemma NothingCached(g: Records, sb: Super, live: set<nat>)
    requires Sound(g, sb, live)
    ensures InMemory(g, map[]) == g && KernelOk(g, map[], sb, live)
  {
    assert InMemory(g, map[]).inodes == g.inodes;
  }

  /** Caching a record just read changes nothing. */
  lemma CacheRead(g: Records, cache: Cache, sb: Super, live: set<nat>, i: nat)
    requires KernelOk(g, cache, sb, live) && Live(Now(g, cache, live), i) && i !in cache
    ensures InMemory(g, cache[i := g.inodes[i]]) == InMemory(g, cache) && KernelOk(g, cache[i := g.inodes[i]], sb, live)
  {
    assert InMemory(g, cache[i := g.inodes[i]]).inodes == InMemory(g, cache).inodes;
  }

  /** A copy of a live inode can be used. */
  lemma CachedUsable(g: Records, cache: Cache, sb: Super, live: set<nat>, i: nat)
    requires KernelOk(g, cache, sb, live) && Live(Now(g, cache, live), i)
    ensures Usable(g, sb, i, InMemory(g, cache).inodes[i])
  {
    var k := InMemory(g, cache);
    var ino := k.inodes[i];
    assert InodeOk(Limited(k, live), sb, ino) && (ino.ty == DIRECTORY ==> EntriesOk(Limited(k, live), ino));
    SameDataOk(Limited(k, live), g, sb, ino);
  }

  /** Whether an inode is sound depends on the data and its bitmap only. */
  lemma SameDataOk(fs: Records, fs': Records, sb: Super, ino: INode)
    requires fs'.data == fs.data && fs'.dataBits == fs.dataBits
    ensures InodeOk(fs, sb, ino) <==> InodeOk(fs', sb, ino)
    ensures Owned(fs', ino) == Owned(fs, ino)
    ensures forall j: nat :: BlockNo(fs', ino, j) == BlockNo(fs, ino, j)
  {
    forall j: nat ensures BlockNo(fs', ino, j) == BlockNo(fs, ino, j) {}
    assert (set j | 0 <= j < Count(ino) :: BlockNo(fs', ino, j)) == (set j | 0 <= j < Count(ino) :: BlockNo(fs, ino, j));
  }

  lemma SameDataFind(fs: Records, fs': Records, ino: INode, name: Name)
    requires fs'.data == fs.data
    ensures Find(fs', ino, name) == Find(fs, ino, name)
  {
    FindSame(fs, ino, fs', ino, name, 0);
  }

  // ---- attempts ----

  /** What an attempt began on disk it began in the kernel's view. */
  lemma BegunInMemory(g: Records, cache: Cache, sb: Super, live: set<nat>, p: nat, name: Name, inum: U32, block: U32)
    requires KernelOk(g, cache, sb, live) && p in cache && Begun(g, sb, p, cache[p], name, inum, block)
    ensures Begun(InMemory(g, cache), sb, p, cache[p], name, inum, block) && InMemory(g, cache).inodes[p] == cache[p]
    ensures FsOk(Now(g, cache, live), sb) && Live(Now(g, cache, live), p) && Now(g, cache, live).inodes[p] == cache[p]
    ensures live <= InMemory(g, cache).inodeBits && inum !in cache
  {
    hide FsOk;
    SameDataOk(g, InMemory(g, cache), sb, cache[p]);
    SameDataFind(g, InMemory(g, cache), cache[p], name);
  }

  /** Whatever the attempt did to the parent's record on disk, the kernel sees it as it was. */
  lemma AfterInMemory(g: Records, cache: Cache, sb: Super, p: nat, name: Name, inum: U32, block: U32, left: Left)
    requires p in cache && inum !in cache && Begun(g, sb, p, cache[p], name, inum, block) && Begun(InMemory(g, cache), sb, p, cache[p], name, inum, block)
    ensures InMemory(After(g, sb, p, cache[p], name, inum, block, left), cache)
         == After(InMemory(g, cache), sb, p, cache[p], name, inum, block, left.(parent := AsWas))
  {
    hide Usable, Find, Chosen;
    assert InMemory(After(g, sb, p, cache[p], name, inum, block, left), cache).inodes
        == After(InMemory(g, cache), sb, p, cache[p], name, inum, block, left.(parent := AsWas)).inodes;
  }

  /** Once the copy of the parent is updated and the new inode is cached, the creation has happened for the kernel. */
  lemma DoneInMemory(g: Records, cache: Cache, sb: Super, p: nat, name: Name, inum: U32, block: U32)
    requires p in cache && inum !in cache && Begun(g, sb, p, cache[p], name, inum, block) && Begun(InMemory(g, cache), sb, p, cache[p], name, inum, block)
    ensures InMemory(After(g, sb, p, cache[p], name, inum, block, DONE), cache[p := Extended(cache[p], block)][inum := EmptyFile()])
         == After(InMemory(g, cache), sb, p, cache[p], name, inum, block, DONE)
  {
    hide Usable, Find, Chosen;
    assert InMemory(After(g, sb, p, cache[p], name, inum, block, DONE), cache[p := Extended(cache[p], block)][inum := EmptyFile()]).inodes
        == After(InMemory(g, cache), sb, p, cache[p], name, inum, block, DONE).inodes;
  }

  lemma BegunOutgrown(g: Records, sb: Super, p: nat, ino: INode, name: Name, inum: U32, block: U32)
    requires Begun(g, sb, p, ino, name, inum, block)
    ensures Outgrown(ino, Extended(ino, block)) && !HasIndirect(ino)
  {
    hide Find;
    BlockFacts(g, sb, ino, block);
  }

  /** What a failed attempt does to the records on disk that have copies. */
  lemma StillBehind(g: Records, cache: Cache, sb: Super, live: set<nat>, p: nat, name: Name, inum: U32, block: U32, left: Left, i: nat)
    requires KernelOk(g, cache, sb, live) && p in cache && inum !in cache && Begun(g, sb, p, cache[p], name, inum, block) && i in cache
    ensures var g' := After(g, sb, p, cache[p], name, inum, block, left);
            i < |g'.inodes| && Behind(cache[i], g'.inodes[i])
  {
    BegunOutgrown(g, sb, p, cache[p], name, inum, block);
    hide Usable, Find, Chosen, Sound, Outgrown;
  }

  /** A creation that failed is not seen by the kernel: everything survives, and every path resolves or fails as before. */
  lemma FailureUnseen(g: Records, cache: Cache, g': Records, sb: Super, live: set<nat>, p: nat, name: Name)
    requires KernelOk(g, cache, sb, live) && p in cache && FailedOn(g, g', sb, p, cache[p], name)
    ensures KernelOk(g', cache, sb, live)
    ensures Survives(Now(g, cache, live), Now(g', cache, live), sb, {}) && SamePaths(Now(g, cache, live), Now(g', cache, live))
  {
    if OnlyMarks(g, g') {
      MarksUnseen(g, cache, g', sb, live);
    } else {
      var inum: U32, block: U32, left: Left :| Tried(g, g', sb, p, cache[p], name, inum, block, left);
      AttemptUnseen(g, cache, sb, live, p, name, inum, block, left);
    }
  }

  lemma AttemptUnseen(g: Records, cache: Cache, sb: Super, live: set<nat>, p: nat, name: Name, inum: U32, block: U32, left: Left)
    requires KernelOk(g, cache, sb, live) && p in cache && Begun(g, sb, p, cache[p], name, inum, block)
    ensures var g' := After(g, sb, p, cache[p], name, inum, block, left);
            && KernelOk(g', cache, sb, live)
            && Survives(Now(g, cache, live), Now(g', cache, live), sb, {}) && SamePaths(Now(g, cache, live), Now(g', cache, live))
  {
    var g' := After(g, sb, p, cache[p], name, inum, block, left);
    var fs, k := Now(g, cache, live), InMemory(g, cache);
    BegunInMemory(g, cache, sb, live, p, name, inum, block);
    AfterInMemory(g, cache, sb, p, name, inum, block, left);
    BegunOutgrown(g, sb, p, cache[p], name, inum, block);
    forall i | i in cache ensures i < |g'.inodes| && Behind(cache[i], g'.inodes[i]) {
      StillBehind(g, cache, sb, live, p, name, inum, block, left, i);
    }
    assert cache[p].ty == DIRECTORY;
    hide Begun, After, FsOk, Survives, SamePaths, InMemory, Behind;
    AfterUntouched(fs, k, sb, p, name, inum, block, left.(parent := AsWas));
    UntouchedSurvives(fs, InMemory(g', cache), sb, p);
    SurvivesOk(fs, Now(g', cache, live), sb, {});
  }

  lemma MarksUnseen(g: Records, cache: Cache, g': Records, sb: Super, live: set<nat>)
    requires KernelOk(g, cache, sb, live) && OnlyMarks(g, g')
    ensures KernelOk(g', cache, sb, live)
    ensures Survives(Now(g, cache, live), Now(g', cache, live), sb, {}) && SamePaths(Now(g, cache, live), Now(g', cache, live))
  {
    var fs, fs' := Now(g, cache, live), Now(g', cache, live);
    assert fs' == fs.(dataBits := fs'.dataBits) && fs.dataBits <= fs'.dataBits;
    assert FsOk(fs, sb) && Live(fs, ROOT);
    MoreBlocksMarked(fs, fs', sb);
  }

  /** Marking blocks that nothing owns changes nothing. */
  lemma MoreBlocksMarked(fs: Records, fs': Records, sb: Super)
    requires FsOk(fs, sb) && fs' == fs.(dataBits := fs'.dataBits) && fs.dataBits <= fs'.dataBits
    ensures Survives(fs, fs', sb, {}) && SamePaths(fs, fs') && FsOk(fs', sb)
  {
    forall i: nat | Live(fs, i)
      ensures SameFinds(fs, fs', i) && InodeOk(fs', sb, fs.inodes[i]) && Owned(fs', fs.inodes[i]) == Owned(fs, fs.inodes[i])
      ensures fs.inodes[i].ty == DIRECTORY ==> EntriesOk(fs', fs.inodes[i])
      ensures FileKept(fs, fs', i, {})
    {
      assert InodeOk(fs, sb, fs.inodes[i]) && (fs.inodes[i].ty == DIRECTORY ==> EntriesOk(fs, fs.inodes[i]));
      assert Keeps(fs, fs', fs.inodes[i]);
      SameInode(fs, fs', sb, fs.inodes[i]);
      SameEntries(fs, fs', fs.inodes[i]);
      SameBody(fs, fs', fs.inodes[i]);
    }
    hide InodeOk, EntriesOk, Owned, SameFinds, FileKept, Find, Resolve;
    PathsSame(fs, fs', sb);
  }

  /** A creation that succeeded: the kernel sees exactly the new file, and everything else survives. */
  lemma SuccessSeen(g: Records, cache: Cache, sb: Super, live: set<nat>, p: nat, name: Name, inum: U32, block: U32)
    requires KernelOk(g, cache, sb, live) && p in cache && Begun(g, sb, p, cache[p], name, inum, block)
    ensures var g' := After(g, sb, p, cache[p], name, inum, block, DONE);
            var cache' := cache[p := Extended(cache[p], block)][inum := EmptyFile()];
            var live' := live + {inum as nat};
            && KernelOk(g', cache', sb, live')
            && Step(Now(g, cache, live), sb, p, name, inum, block, EntryFor(inum, name), Now(g', cache', live'))
            && Survives(Now(g, cache, live), Now(g', cache', live'), sb, {}) && NewFile(Now(g', cache', live'), inum)
  {
    var g' := After(g, sb, p, cache[p], name, inum, block, DONE);
    var cache' := cache[p := Extended(cache[p], block)][inum := EmptyFile()];
    var fs, k := Now(g, cache, live), InMemory(g, cache);
    BegunInMemory(g, cache, sb, live, p, name, inum, block);
    DoneInMemory(g, cache, sb, p, name, inum, block);
    assert forall i | i in cache' :: i in live + {inum as nat} && 0 < i < |g'.inodes| && Behind(cache'[i], g'.inodes[i]) by {
      DoneBehind(g, cache, sb, live, p, name, inum, block);
    }
    hide Begun, After, FsOk, Survives, InMemory, Behind, Step, NewFile;
    AfterStep(fs, k, sb, p, name, inum, block, DONE);
    EmptyIsNew(Now(g', cache', live + {inum as nat}), inum);
    StepSurvives(fs, sb, p, name, inum, block, EntryFor(inum, name), Now(g', cache', live + {inum as nat}));
    SurvivesOk(fs, Now(g', cache', live + {inum as nat}), sb, {});
  }

  lemma DoneBehind(g: Records, cache: Cache, sb: Super, live: set<nat>, p: nat, name: Name, inum: U32, block: U32)
    requires KernelOk(g, cache, sb, live) && p in cache && inum !in cache && Begun(g, sb, p, cache[p], name, inum, block)
    ensures var g' := After(g, sb, p, cache[p], name, inum, block, DONE);
            var cache' := cache[p := Extended(cache[p], block)][inum := EmptyFile()];
            forall i | i in cache' :: i in live + {inum as nat} && 0 < i < |g'.inodes| && Behind(cache'[i], g'.inodes[i])
  {
    hide Usable, Find, Chosen, Sound, Outgrown;
  }
}
