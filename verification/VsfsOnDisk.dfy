/**
 The file system on disk, as the next mount will read it.  After a creation whose rollback failed, the
 parent's record on disk is longer by one entry than the copy the kernel works from.  The next creation
 in that directory writes its entry over the extra one.  This module says exactly when the invariant and
 the paths on disk survive that.
 */
module VsfsOnDisk {
  import opened Basics
  import opened VsfsDisk
  import opened VsfsFile
  import opened VsfsRecords
  import opened VsfsTree
  import opened VsfsKept
  import opened VsfsCreate
  import opened VsfsCached

  /** The disk is sound for some choice of inodes. */
  ghost predicate SomeSound(g: Records, sb: Super) {
    exists live: set<nat> :: Sound(g, sb, live)
  }

  /** The disk with the copy of the parent's record put back. */
  ghost function PutBack(g: Records, p: nat, ino: INode): Records
    requires p < |g.inodes|
  {
    g.(inodes := g.inodes[p := ino])
  }

  // ---- dropping the extra entry ----

  lemma ShorterBlocks(fs: Records, fs': Records, sb: Super, c: INode, d: INode)
    requires Outgrown(c, d) && InodeOk(fs, sb, d) && fs'.data == fs.data && fs'.dataBits == fs.dataBits
    ensures forall j: nat | j < Count(c) :: BlockNo(fs', c, j) == BlockNo(fs, d, j)
    ensures Count(c) <= Count(d) == TailBlock(c) + 1 && !HasIndirect(c) && EntryCount(d) == EntryCount(c) + 1
    ensures InodeOk(fs', sb, c) && Owned(fs', c) <= Owned(fs, d)
  {
    TailFits(c);
    forall j: nat | j < Count(c) ensures BlockNo(fs', c, j) == BlockNo(fs, d, j) {}
    forall j | 0 <= j < Count(c) ensures InUse(fs', sb, BlockNo(fs', c, j)) { assert InUse(fs, sb, BlockNo(fs, d, j)); }
    forall i, j | 0 <= i < j < Count(c) ensures BlockNo(fs', c, i) != BlockNo(fs', c, j) {
      assert BlockNo(fs, d, i) != BlockNo(fs, d, j);
    }
    forall j | Count(c) <= j < DIRECT_BLOCKS ensures c.direct[j] == 0 {
      if j != TailBlock(c) { assert d.direct[j] == c.direct[j]; }
    }
  }

  lemma ShorterEntries(fs: Records, fs': Records, sb: Super, c: INode, d: INode)
    requires Outgrown(c, d) && InodeOk(fs, sb, d) && fs'.data == fs.data && fs'.dataBits == fs.dataBits
    ensures EntryCount(d) == EntryCount(c) + 1
    ensures forall i | 0 <= i < EntryCount(c) :: EntryAt(fs', c, i) == EntryAt(fs, d, i)
    ensures fs'.inodeBits == fs.inodeBits && |fs'.inodes| == |fs.inodes| && EntriesOk(fs, d) ==> EntriesOk(fs', c)
  {
    ShorterBlocks(fs, fs', sb, c, d);
    forall i | 0 <= i < EntryCount(c) ensures EntryAt(fs', c, i) == EntryAt(fs, d, i) { EntryInside(c, i); }
    hide EntryAt, InodeOk;
    if fs'.inodeBits == fs.inodeBits && |fs'.inodes| == |fs.inodes| && EntriesOk(fs, d) {
      forall i | 0 <= i < EntryCount(c) ensures EntryOk(fs', EntryAt(fs', c, i)) { assert EntryOk(fs, EntryAt(fs, d, i)); }
      forall i, j | 0 <= i < j < EntryCount(c) ensures NamesDiffer(EntryAt(fs', c, i), EntryAt(fs', c, j)) {
        assert NamesDiffer(EntryAt(fs, d, i), EntryAt(fs, d, j));
      }
    }
  }

  lemma OtherSame(fs: Records, fs': Records, sb: Super, ino: INode)
    requires fs'.data == fs.data && fs'.dataBits == fs.dataBits && fs'.inodeBits == fs.inodeBits && |fs'.inodes| == |fs.inodes|
    ensures InodeOk(fs, sb, ino) ==> InodeOk(fs', sb, ino)
    ensures Owned(fs', ino) == Owned(fs, ino)
    ensures EntriesOk(fs, ino) ==> EntriesOk(fs', ino)
    ensures forall name :: Find(fs', ino, name) == Find(fs, ino, name)
  {
    SameInode(fs, fs', sb, ino);
    SameEntries(fs, fs', ino);
  }

  /** Putting the copy back in place of the longer record keeps the invariant. */
  lemma PutBackOk(fs: Records, sb: Super, p: nat, ino: INode)
    requires FsOk(fs, sb) && Live(fs, p) && Behind(ino, fs.inodes[p])
    ensures FsOk(PutBack(fs, p, ino), sb)
  {
    var fs' := PutBack(fs, p, ino);
    var d := fs.inodes[p];
    if d == ino {
      assert fs'.inodes == fs.inodes;
    } else {
      assert InodeOk(fs, sb, d) && EntriesOk(fs, d);
      ShorterBlocks(fs, fs', sb, ino, d);
      ShorterEntries(fs, fs', sb, ino, d);
      hide InodeOk, EntriesOk, Owned, Outgrown;
      forall i: nat | Live(fs', i)
        ensures InodeOk(fs', sb, fs'.inodes[i]) && (fs'.inodes[i].ty == DIRECTORY ==> EntriesOk(fs', fs'.inodes[i]))
        ensures Owned(fs', fs'.inodes[i]) <= Owned(fs, fs.inodes[i])
      {
        assert Live(fs, i);
        if i != p { OtherSame(fs, fs', sb, fs.inodes[i]); }
      }
      forall i: nat, j: nat | Live(fs', i) && Live(fs', j) && i != j ensures Owned(fs', fs'.inodes[i]) !! Owned(fs', fs'.inodes[j]) {
        assert Owned(fs, fs.inodes[i]) !! Owned(fs, fs.inodes[j]);
      }
      assert ino.ty == DIRECTORY by { assert Outgrown(ino, d); OutgrownType(ino, d); }
    }
  }

  lemma OutgrownType(c: INode, d: INode)
    requires Outgrown(c, d)
    ensures c.ty == DIRECTORY && d.ty == DIRECTORY
  {}

  // ---- what an attempt from the copy leaves on disk ----

  /** The disk is sound, `p` counts, and an attempt has begun from a copy that is the record on disk or behind it. */
  ghost predicate FromCopy(g: Records, sb: Super, live: set<nat>, p: nat, ino: INode, name: Name, inum: U32, block: U32) {
    && Sound(g, sb, live) && Live(Limited(g, live), p) && Behind(ino, g.inodes[p])
    && Begun(g, sb, p, ino, name, inum, block)
  }

  /** The entry landed over the extra one, the parent was not written, and the inode was given back. */
  predicate Torn(ino: INode, d: INode, left: Left) {
    d != ino && TailOffset(ino) != 0 && left.parent.AsWas? && left.entry.NewEntry? && !left.inodeKept
  }

  /** The attempt could as well have begun with the copy on disk. */
  lemma BegunBack(g: Records, sb: Super, live: set<nat>, p: nat, ino: INode, name: Name, inum: U32, block: U32)
    requires FromCopy(g, sb, live, p, ino, name, inum, block)
    ensures var b := PutBack(g, p, ino);
            && Begun(b, sb, p, ino, name, inum, block) && FsOk(Limited(b, live), sb) && Live(Limited(b, live), p) && live <= b.inodeBits
            && Limited(b, live).inodes[p] == ino
  {
    var b := PutBack(g, p, ino);
    PutBackOk(Limited(g, live), sb, p, ino);
    assert Limited(b, live) == PutBack(Limited(g, live), p, ino);
    hide FsOk;
    SameDataOk(g, b, sb, ino);
    SameDataFind(g, b, ino, name);
  }

  /** Once the parent's record is written again, what it was before does not matter. */
  lemma AfterBack(g: Records, sb: Super, p: nat, ino: INode, name: Name, inum: U32, block: U32, left: Left)
    requires Begun(g, sb, p, ino, name, inum, block) && Begun(PutBack(g, p, ino), sb, p, ino, name, inum, block) && !left.parent.AsWas?
    ensures After(g, sb, p, ino, name, inum, block, left) == After(PutBack(g, p, ino), sb, p, ino, name, inum, block, left)
  {
    hide Usable, Find, Chosen;
  }

  /** The longer record with the slot written is what a landed write of the parent would have left. */
  lemma AfterLonger(g: Records, sb: Super, p: nat, ino: INode, name: Name, inum: U32, block: U32, left: Left)
    requires Begun(g, sb, p, ino, name, inum, block) && Begun(PutBack(g, p, ino), sb, p, ino, name, inum, block)
    requires left.parent.AsWas? && Outgrown(ino, g.inodes[p]) && TailOffset(ino) != 0
    ensures g.inodes[p] == Extended(ino, block)
    ensures After(g, sb, p, ino, name, inum, block, left)
         == After(PutBack(g, p, ino), sb, p, ino, name, inum, block, left.(parent := Longer, blockKept := true))
  {
    BlockFacts(g, sb, ino, block);
    hide Usable, Find, Chosen;
    assert g.dataBits + {block - sb.dataStart} == g.dataBits;
  }

  /** At a block boundary the new entry goes to a block that nothing on disk owns. */
  lemma AfterElsewhere(g: Records, sb: Super, live: set<nat>, p: nat, ino: INode, name: Name, inum: U32, block: U32, left: Left)
    requires FromCopy(g, sb, live, p, ino, name, inum, block) && left.parent.AsWas? && (TailOffset(ino) == 0 || left.entry.OldEntry?)
    ensures Untouched(Limited(g, live), After(g, sb, p, ino, name, inum, block, left), sb, p)
  {
    var fs := Limited(g, live);
    var g' := After(g, sb, p, ino, name, inum, block, left);
    BlockFacts(g, sb, ino, block);
    UntouchedStart(fs, g, sb, p);
    assert |g'.data[block]| == BLOCK;
    hide FsOk, Find, Untouched, Usable, Chosen;
    UntouchedInode(fs, g, sb, p, inum, g'.inodes[inum]);
    var f1 := g.(inodes := g.inodes[inum := g'.inodes[inum]]);
    assert f1.inodes == g'.inodes;
    if !left.entry.OldEntry? { UntouchedFree(fs, f1, sb, p, block, g'.data[block]); }
    assert f1.(data := g'.data) == if left.entry.OldEntry? then f1 else f1.(data := f1.data[block := g'.data[block]]);
    UntouchedBits(fs, f1.(data := g'.data), sb, p, g'.inodeBits, g'.dataBits);
    assert f1.(data := g'.data).(inodeBits := g'.inodeBits, dataBits := g'.dataBits) == g';
  }

  /** Which inodes count on disk after the attempt. */
  ghost function LiveOn(live: set<nat>, ino: INode, d: INode, inum: U32, left: Left): set<nat> {
    if left.parent.Longer? || (left.parent.AsWas? && d != ino && TailOffset(ino) != 0 && !left.entry.OldEntry?) then live + {inum as nat} else live
  }

  lemma DirectoryFacts(g: Records, sb: Super, live: set<nat>, p: nat, ino: INode, name: Name, inum: U32, block: U32)
    requires FromCopy(g, sb, live, p, ino, name, inum, block)
    ensures FsOk(Limited(g, live), sb) && live <= g.inodeBits && g.inodes[p].ty == DIRECTORY && !HasIndirect(g.inodes[p])
    ensures ino.ty == DIRECTORY && !HasIndirect(ino) && Behind(ino, g.inodes[p]) && Live(Limited(g, live), p) && inum !in live
    ensures Limited(PutBack(g, p, ino), live) == PutBack(Limited(g, live), p, ino) && name != [] && |name| <= NAME_MAX
    ensures g.inodes[p] == ino ==> PutBack(g, p, ino) == g
  {
    assert g.inodes[p := g.inodes[p]] == g.inodes;
    BegunOutgrown(g, sb, p, ino, name, inum, block);
    if g.inodes[p] != ino {
      assert InodeOk(Limited(g, live), sb, g.inodes[p]);
      ShorterBlocks(Limited(g, live), Limited(g, live), sb, ino, g.inodes[p]);
    }
  }

  lemma StepSound(fs: Records, b: Records, sb: Super, p: nat, name: Name, inum: U32, block: U32, left: Left)
    requires FsOk(fs, sb) && fs == Limited(b, fs.inodeBits) && fs.inodeBits <= b.inodeBits && Live(fs, p)
    requires Begun(b, sb, p, fs.inodes[p], name, inum, block) && Possible(left) && left.parent.Longer?
    ensures Sound(After(b, sb, p, fs.inodes[p], name, inum, block, left), sb, fs.inodeBits + {inum as nat})
  {
    hide FsOk, Begun, After, Step;
    AfterStep(fs, b, sb, p, name, inum, block, left);
    CreateKeepsFs(fs, sb, p, name, inum, block, if left.entry.NewEntry? then EntryFor(inum, name) else EmptyEntry(),
                  Limited(After(b, sb, p, fs.inodes[p], name, inum, block, left), fs.inodeBits + {inum as nat}));
  }

  lemma UntouchedSound(fs: Records, g': Records, sb: Super, p: nat)
    requires FsOk(fs, sb) && Untouched(fs, g', sb, p) && fs.inodes[p].ty == DIRECTORY && !HasIndirect(fs.inodes[p])
    ensures Sound(g', sb, fs.inodeBits)
  {
    hide FsOk, Untouched, Survives;
    UntouchedSurvives(fs, g', sb, p);
    SurvivesOk(fs, Limited(g', fs.inodeBits), sb, {});
  }

  /** Unless the inode of a landed entry was given back, the disk is sound again. */
  lemma LeftSound(g: Records, sb: Super, live: set<nat>, p: nat, ino: INode, name: Name, inum: U32, block: U32, left: Left)
    requires FromCopy(g, sb, live, p, ino, name, inum, block) && Possible(left) && !Torn(ino, g.inodes[p], left)
    ensures Sound(After(g, sb, p, ino, name, inum, block, left), sb, LiveOn(live, ino, g.inodes[p], inum, left))
  {
    var d, b := g.inodes[p], PutBack(g, p, ino);
    var fs := Limited(b, live);
    BegunBack(g, sb, live, p, ino, name, inum, block);
    DirectoryFacts(g, sb, live, p, ino, name, inum, block);
    assert Behind(ino, d);
    if left.parent.AsWas? && (d == ino || TailOffset(ino) == 0 || left.entry.OldEntry?) {
      if d == ino {
        assert b.inodes == g.inodes && b == g;
        hide FsOk, Begun, After, Untouched;
        AfterUntouched(fs, g, sb, p, name, inum, block, left);
        UntouchedSound(fs, After(g, sb, p, ino, name, inum, block, left), sb, p);
      } else {
        AfterElsewhere(g, sb, live, p, ino, name, inum, block, left);
        hide FsOk, Begun, After, Untouched;
        UntouchedSound(Limited(g, live), After(g, sb, p, ino, name, inum, block, left), sb, p);
      }
    } else if left.parent.AsWas? {
      AfterLonger(g, sb, p, ino, name, inum, block, left);
      hide FsOk, Begun, After;
      StepSound(fs, b, sb, p, name, inum, block, left.(parent := Longer, blockKept := true));
    } else {
      AfterBack(g, sb, p, ino, name, inum, block, left);
      hide FsOk, Begun, After, Untouched;
      if left.parent.Longer? {
        StepSound(fs, b, sb, p, name, inum, block, left);
      } else {
        AfterUntouched(fs, b, sb, p, name, inum, block, left);
        UntouchedSound(fs, After(b, sb, p, ino, name, inum, block, left), sb, p);
      }
    }
  }

  // ---- a visible entry that names a free inode ----

  /** The entry in the slot, once it is written. */
  lemma SlotEntry(fs: Records, b: Records, sb: Super, p: nat, name: Name, inum: U32, block: U32, left: Left)
    requires FsOk(fs, sb) && fs == Limited(b, fs.inodeBits) && fs.inodeBits <= b.inodeBits && Live(fs, p)
    requires Begun(b, sb, p, fs.inodes[p], name, inum, block) && left.entry.NewEntry?
    ensures var ino := fs.inodes[p];
            var d := Extended(ino, block);
            && EntryCount(d) == EntryCount(ino) + 1
            && EntryAt(After(b, sb, p, ino, name, inum, block, left), d, EntryCount(ino)) == Some(EntryFor(inum, name))
  {
    var ino := fs.inodes[p];
    BegunReady(fs, b, sb, p, name, inum, block);
    var fs' := Created(fs, sb, p, EntryFor(inum, name), inum, block);
    ParentEntry(fs, sb, p, name, inum, block, EntryFor(inum, name), EntryCount(ino));
    ParentBlocks(fs, sb, p, name, inum, block, fs');
    assert fs'.data == After(b, sb, p, ino, name, inum, block, left).data;
  }

  /** An inode other than the parent finds on disk what it found. */
  lemma OtherFinds(g: Records, sb: Super, live: set<nat>, p: nat, ino: INode, name: Name, inum: U32, block: U32, left: Left, i: nat, other: Name)
    requires FromCopy(g, sb, live, p, ino, name, inum, block) && TailOffset(ino) != 0 && Live(Limited(g, live), i) && i != p
    ensures var g' := After(g, sb, p, ino, name, inum, block, left);
            && i < |g'.inodes| && g'.inodes[i] == g.inodes[i] && Find(g', g.inodes[i], other) == Find(g, g.inodes[i], other)
  {
    var g' := After(g, sb, p, ino, name, inum, block, left);
    var fs, d := Limited(g, live), g.inodes[p];
    BlockFacts(g, sb, ino, block);
    assert block as nat in Owned(fs, d) by { TailOwned(fs, sb, ino, d, block); }
    assert Owned(fs, d) !! Owned(fs, g.inodes[i]);
    hide FsOk, Begun, Usable, Chosen;
    forall k | 0 <= k < EntryCount(g.inodes[i]) ensures EntryAt(g', g.inodes[i], k) == EntryAt(fs, g.inodes[i], k) {
      SameEntry(fs, g', g.inodes[i], k);
    }
    FindSame(fs, g.inodes[i], g', g.inodes[i], other, 0);
    FindLimited(g, live, g.inodes[i], other);
  }

  lemma TailOwned(fs: Records, sb: Super, ino: INode, d: INode, block: U32)
    requires InodeOk(fs, sb, d) && Behind(ino, d) && ino.ty == DIRECTORY && ino.sz % DIRENT_SIZE == 0 && TailBlock(ino) < DIRECT_BLOCKS
    requires TailOffset(ino) != 0 && block == ino.direct[TailBlock(ino)]
    ensures block as nat in Owned(fs, d)
  {
    TailFits(ino);
    assert BlockNo(fs, d, TailBlock(ino)) == block && TailBlock(ino) < Count(d);
  }

  /** The parent can be reached on disk. */
  ghost predicate Reaches(g: Records, p: nat) {
    exists path: seq<Name> :: Nonempty(path) && Resolve(g, ROOT, path) == Ok(p)
  }

  /** What could be reached counts, whatever choice makes the disk sound. */
  lemma {:induction false} ReachedCounts(g: Records, sb: Super, live: set<nat>, p: nat, ino: INode, name: Name, inum: U32, block: U32, left: Left,
                                         live': set<nat>, i: nat, path: seq<Name>)
    requires FromCopy(g, sb, live, p, ino, name, inum, block) && TailOffset(ino) != 0
    requires Sound(After(g, sb, p, ino, name, inum, block, left), sb, live')
    requires Live(Limited(g, live), i) && i in live' && Nonempty(path) && Resolve(g, i, path) == Ok(p)
    ensures p in live'
    decreases |path|
  {
    var g' := After(g, sb, p, ino, name, inum, block, left);
    if path != [] && i != p {
      OtherFinds(g, sb, live, p, ino, name, inum, block, left, i, path[0]);
      assert FsOk(Limited(g, live), sb) && FsOk(Limited(g', live'), sb) && Live(Limited(g', live'), i);
      hide FsOk, FromCopy, After, Find;
      FindLimited(g, live, g.inodes[i], path[0]);
      FindLimited(g', live', g.inodes[i], path[0]);
      FoundLive(Limited(g, live), sb, i, path[0]);
      FoundLive(Limited(g', live'), sb, i, path[0]);
      ReachedCounts(g, sb, live, p, ino, name, inum, block, left, live', Find(g, g.inodes[i], path[0]).value, path[1..]);
    }
  }

  /** A torn attempt leaves a disk that is not sound, whatever inodes are taken to count. */
  lemma LeftUnsound(g: Records, sb: Super, live: set<nat>, p: nat, ino: INode, name: Name, inum: U32, block: U32, left: Left, live': set<nat>)
    requires FromCopy(g, sb, live, p, ino, name, inum, block) && Torn(ino, g.inodes[p], left) && Reaches(g, p)
    ensures !Sound(After(g, sb, p, ino, name, inum, block, left), sb, live')
  {
    hide FsOk, Begun, After, FromCopy, Outgrown, Find, Resolve, EntryAt;
    BegunOf(g, sb, live, p, ino, name, inum, block);
    DirectoryFacts(g, sb, live, p, ino, name, inum, block);
    BegunBack(g, sb, live, p, ino, name, inum, block);
    var g' := After(g, sb, p, ino, name, inum, block, left);
    AfterLonger(g, sb, p, ino, name, inum, block, left);
    SlotEntry(Limited(PutBack(g, p, ino), live), PutBack(g, p, ino), sb, p, name, inum, block, left.(parent := Longer, blockKept := true));
    GivenBack(g, sb, p, ino, name, inum, block, left);
    if Sound(g', sb, live') {
      var path: seq<Name> :| Nonempty(path) && Resolve(g, ROOT, path) == Ok(p);
      RootCounts(Limited(g, live), sb);
      RootCounts(Limited(g', live'), sb);
      ReachedCounts(g, sb, live, p, ino, name, inum, block, left, live', ROOT, path);
      VisibleFree(g', sb, live', p, EntryCount(ino), inum, name);
    }
  }

  lemma RootCounts(fs: Records, sb: Super)
    requires FsOk(fs, sb)
    ensures Live(fs, ROOT)
  {}

  lemma GivenBack(g: Records, sb: Super, p: nat, ino: INode, name: Name, inum: U32, block: U32, left: Left)
    requires Begun(g, sb, p, ino, name, inum, block) && left.parent.AsWas? && !left.inodeKept
    ensures var g' := After(g, sb, p, ino, name, inum, block, left);
            inum as nat !in g'.inodeBits && 0 < p < |g'.inodes| && g'.inodes[p] == g.inodes[p] && 0 < |name| <= NAME_MAX
  {}

  lemma VisibleFree(g: Records, sb: Super, live: set<nat>, p: nat, i: nat, inum: U32, name: Name)
    requires Sound(g, sb, live) && p in live && 0 < p < |g.inodes| && g.inodes[p].ty == DIRECTORY
    requires i < EntryCount(g.inodes[p]) && 0 < |name| <= NAME_MAX && EntryAt(g, g.inodes[p], i) == Some(EntryFor(inum, name))
    ensures inum as nat in g.inodeBits
  {
    var fs := Limited(g, live);
    assert EntriesOk(fs, g.inodes[p]);
    assert EntryOk(fs, EntryAt(fs, g.inodes[p], i));
    EntryName(inum, name);
  }

  /** After an attempt the disk is sound if and only if the attempt was not torn. */
  lemma DiskExact(g: Records, sb: Super, live: set<nat>, p: nat, ino: INode, name: Name, inum: U32, block: U32, left: Left)
    requires FromCopy(g, sb, live, p, ino, name, inum, block) && Reaches(g, p) && Possible(left)
    ensures SomeSound(After(g, sb, p, ino, name, inum, block, left), sb) <==> !Torn(ino, g.inodes[p], left)
  {
    hide FromCopy, Sound, After, Reaches, Torn, Begun;
    BegunOf(g, sb, live, p, ino, name, inum, block);
    if Torn(ino, g.inodes[p], left) {
      forall live': set<nat> ensures !Sound(After(g, sb, p, ino, name, inum, block, left), sb, live') {
        LeftUnsound(g, sb, live, p, ino, name, inum, block, left, live');
      }
    } else {
      LeftSound(g, sb, live, p, ino, name, inum, block, left);
    }
  }

  lemma BegunOf(g: Records, sb: Super, live: set<nat>, p: nat, ino: INode, name: Name, inum: U32, block: U32)
    requires FromCopy(g, sb, live, p, ino, name, inum, block)
    ensures Begun(g, sb, p, ino, name, inum, block) && p < |g.inodes|
  {}

  /**
   Whatever the device does, the disk is sound after a creation, if and only if the copy of the parent is
   the record on disk or ends on a block boundary.
   */
  lemma DiskKept(g: Records, sb: Super, live: set<nat>, p: nat, ino: INode, name: Name, inum: U32, block: U32)
    requires FromCopy(g, sb, live, p, ino, name, inum, block) && Reaches(g, p)
    ensures (forall left: Left | Possible(left) :: SomeSound(After(g, sb, p, ino, name, inum, block, left), sb))
       <==> g.inodes[p] == ino || TailOffset(ino) == 0
  {
    hide FromCopy, After, Reaches, Begun, SomeSound;
    BegunOf(g, sb, live, p, ino, name, inum, block);
    forall left: Left | Possible(left)
      ensures SomeSound(After(g, sb, p, ino, name, inum, block, left), sb) <==> !Torn(ino, g.inodes[p], left)
    {
      DiskExact(g, sb, live, p, ino, name, inum, block, left);
    }
    if g.inodes[p] != ino && TailOffset(ino) != 0 {
      var torn := Left(true, NewEntry, AsWas, false, true);
      assert Possible(torn) && Torn(ino, g.inodes[p], torn);
    }
  }

  /** A creation that did no more than set bits leaves the disk sound. */
  lemma MarksSound(g: Records, g': Records, sb: Super, live: set<nat>)
    requires Sound(g, sb, live) && OnlyMarks(g, g')
    ensures Sound(g', sb, live)
  {
    hide FsOk;
    MoreBlocksMarked(Limited(g, live), Limited(g', live), sb);
  }

  // ---- paths on disk ----

  /** The extra entry on disk, behind what the copy lists. */
  ghost function ExtraEntry(g: Records, ino: INode, d: INode): Option<DirEnt> {
    EntryAt(g, d, EntryCount(ino))
  }

  ghost predicate Hidden(g: Records, ino: INode, d: INode) {
    ExtraEntry(g, ino, d).Some? && !Visible(ExtraEntry(g, ino, d).value)
  }

  lemma ExtraFinds(fs: Records, sb: Super, p: nat, ino: INode, name: Name)
    requires FsOk(fs, sb) && Live(fs, p) && Outgrown(ino, fs.inodes[p]) && name != []
    ensures var d := fs.inodes[p];
            && ExtraEntry(fs, ino, d).Some?
            && (Hidden(fs, ino, d) ==> Find(fs, d, name) == Find(PutBack(fs, p, ino), ino, name))
            && (!Hidden(fs, ino, d) && name == NameOf(ExtraEntry(fs, ino, d).value) ==>
                  && Find(fs, d, name) == Ok(ExtraEntry(fs, ino, d).value.inum) && Find(PutBack(fs, p, ino), ino, name) == Err(NotFound)
                  && ExtraEntry(fs, ino, d).value.inum as nat in fs.inodeBits)
  {
    var d, fs' := fs.inodes[p], PutBack(fs, p, ino);
    var n := EntryCount(ino);
    OutgrownType(ino, d);
    assert InodeOk(fs, sb, d) && EntriesOk(fs, d);
    ShorterEntries(fs, fs', sb, ino, d);
    assert ino.sz % DIRENT_SIZE == 0 && d.sz % DIRENT_SIZE == 0;
    hide FsOk, InodeOk, EntryAt, Outgrown, FindFrom;
    assert EntryOk(fs, EntryAt(fs, d, n));
    forall i | 0 <= i < n ensures EntryOk(fs, EntryAt(fs, d, i)) && NamesDiffer(EntryAt(fs, d, i), EntryAt(fs, d, n)) {}
    if Hidden(fs, ino, d) {
      FindAppended(fs', ino, fs, d, name, 0);
    } else if name == NameOf(ExtraEntry(fs, ino, d).value) {
      FindFound(fs, d, name, 0, n);
      FindMissing(fs', ino, name, 0);
    }
  }

  lemma HiddenPaths(fs: Records, sb: Super, p: nat, ino: INode)
    requires FsOk(fs, sb) && Live(fs, p) && Outgrown(ino, fs.inodes[p]) && Hidden(fs, ino, fs.inodes[p])
    ensures SamePaths(fs, PutBack(fs, p, ino))
  {
    var fs' := PutBack(fs, p, ino);
    OutgrownType(ino, fs.inodes[p]);
    forall i: nat | Live(fs, i) ensures SameFinds(fs, fs', i) {
      if i == p {
        forall name: Name | name != [] ensures Find(fs', ino, name) == Find(fs, fs.inodes[p], name) { ExtraFinds(fs, sb, p, ino, name); }
      } else {
        OtherSame(fs, fs', sb, fs.inodes[i]);
      }
    }
    hide FsOk, SameFinds, Hidden, Outgrown;
    PathsSame(fs, fs', sb);
  }

  /** One more step of a path. */
  lemma ResolveOne(fs: Records, i: nat, name: Name)
    requires i < |fs.inodes| && fs.inodes[i].ty != FILE
    ensures Resolve(fs, i, [name]) ==
            match Find(fs, fs.inodes[i], name)
            case Err(e) => Err(e)
            case Ok(k) => Ok(k as nat)
  {
    assert [name][1..] == [];
  }

  /**
   When a creation succeeds, every path on disk is kept if and only if the copy of the parent was the record
   on disk or the extra entry has no name.
   */
  lemma DiskPaths(g: Records, sb: Super, live: set<nat>, p: nat, ino: INode, name: Name, inum: U32, block: U32)
    requires FromCopy(g, sb, live, p, ino, name, inum, block)
    ensures PathsKept(Limited(g, live), Limited(After(g, sb, p, ino, name, inum, block, DONE), live + {inum as nat}))
       <==> g.inodes[p] == ino || Hidden(g, ino, g.inodes[p])
  {
    hide FsOk, Begun, After, FromCopy, Outgrown, Step, PathsKept, Live, Hidden, Find;
    BegunOf(g, sb, live, p, ino, name, inum, block);
    DirectoryFacts(g, sb, live, p, ino, name, inum, block);
    BegunBack(g, sb, live, p, ino, name, inum, block);
    AfterBack(g, sb, p, ino, name, inum, block, DONE);
    var d, b := g.inodes[p], PutBack(g, p, ino);
    var fs, back := Limited(g, live), Limited(b, live);
    var fs' := Limited(After(g, sb, p, ino, name, inum, block, DONE), live + {inum as nat});
    AfterStep(back, b, sb, p, name, inum, block, DONE);
    StepFinds(back, sb, p, name, inum, block, fs');
    if d != ino {
      ExtraCases(fs, fs', back, sb, p, ino, name, inum);
      HiddenLimited(g, live, ino, d);
    }
  }

  lemma HiddenLimited(g: Records, live: set<nat>, ino: INode, d: INode)
    ensures Hidden(Limited(g, live), ino, d) <==> Hidden(g, ino, d)
  {}

  /** What the parent finds once the new entry is there. */
  lemma StepFinds(fs: Records, sb: Super, p: nat, name: Name, inum: U32, block: U32, fs': Records)
    requires |name| <= NAME_MAX && Step(fs, sb, p, name, inum, block, EntryFor(inum, name), fs')
    ensures PathsKept(fs, fs') && p < |fs.inodes| && p < |fs'.inodes| && fs'.inodes[p].ty != FILE && Find(fs', fs'.inodes[p], name) == Ok(inum)
    ensures forall other: Name | other != name :: Find(fs', fs'.inodes[p], other) == Find(fs, fs.inodes[p], other)
  {
    StepSurvives(fs, sb, p, name, inum, block, EntryFor(inum, name), fs');
    StepShape(fs, sb, p, name, inum, block, EntryFor(inum, name), fs');
    CreateFinds(fs, sb, p, name, inum, block, EntryFor(inum, name), fs', name);
    hide Step, Survives, Find;
    forall other: Name | other != name ensures Find(fs', fs'.inodes[p], other) == Find(fs, fs.inodes[p], other) {
      CreateFinds(fs, sb, p, name, inum, block, EntryFor(inum, name), fs', other);
    }
  }

  lemma ExtraCases(fs: Records, fs': Records, back: Records, sb: Super, p: nat, ino: INode, name: Name, inum: U32)
    requires FsOk(fs, sb) && Live(fs, p) && Outgrown(ino, fs.inodes[p]) && fs.inodes[p].ty == DIRECTORY && back == PutBack(fs, p, ino)
    requires PathsKept(back, fs') && p < |fs'.inodes| && fs'.inodes[p].ty != FILE && inum as nat !in fs.inodeBits
    requires Find(fs', fs'.inodes[p], name) == Ok(inum)
    requires forall other: Name | other != name :: Find(fs', fs'.inodes[p], other) == Find(back, ino, other)
    ensures PathsKept(fs, fs') <==> Hidden(fs, ino, fs.inodes[p])
  {
    hide FsOk, Outgrown, Find, Resolve;
    var d := fs.inodes[p];
    forall i: nat ensures Live(back, i) <==> Live(fs, i) {}
    if Hidden(fs, ino, d) {
      HiddenPaths(fs, sb, p, ino);
      forall i: nat, path | Live(fs, i) && Nonempty(path) && Resolve(fs, i, path).Ok? ensures Resolve(fs', i, path) == Resolve(fs, i, path) {
        assert Resolve(back, i, path) == Resolve(fs, i, path);
      }
    } else {
      ExtraFinds(fs, sb, p, ino, [0]);
      var extra := NameOf(ExtraEntry(fs, ino, d).value);
      ExtraFinds(fs, sb, p, ino, extra);
      ResolveOne(fs, p, extra);
      ResolveOne(fs', p, extra);
      assert Nonempty([extra]) && Resolve(fs, p, [extra]).Ok? && Resolve(fs', p, [extra]) != Resolve(fs, p, [extra]);
    }
  }

  // ---- two failures in a row ----

  /** The entry landed and was reported as failed; the parent was not written and the inode was given back. */
  const TORN: Left := Left(true, NewEntry, AsWas, false, true)

  /** What the parent's copy lists is not changed by an attempt. */
  lemma CopyLists(g: Records, sb: Super, live: set<nat>, p: nat, name: Name, inum: U32, block: U32, other: Name)
    requires p < |g.inodes| && FromCopy(g, sb, live, p, g.inodes[p], name, inum, block) && other != []
    ensures Find(After(g, sb, p, g.inodes[p], name, inum, block, DONE), g.inodes[p], other) == Find(g, g.inodes[p], other)
  {
    hide FsOk, Begun, After, FromCopy, Find, Untouched;
    var ino, fs := g.inodes[p], Limited(g, live);
    var left := DONE.(parent := AsWas);
    BegunOf(g, sb, live, p, ino, name, inum, block);
    DirectoryFacts(g, sb, live, p, ino, name, inum, block);
    AfterUntouched(fs, g, sb, p, name, inum, block, left);
    UntouchedFinds(fs, After(g, sb, p, ino, name, inum, block, left), sb, p, p);
    AfterParents(g, sb, p, ino, name, inum, block);
    SameDataFind(After(g, sb, p, ino, name, inum, block, left), After(g, sb, p, ino, name, inum, block, DONE), ino, other);
    FindLimited(g, live, ino, other);
  }

  lemma AfterParents(g: Records, sb: Super, p: nat, ino: INode, name: Name, inum: U32, block: U32)
    requires Begun(g, sb, p, ino, name, inum, block)
    ensures var g', was := After(g, sb, p, ino, name, inum, block, DONE), After(g, sb, p, ino, name, inum, block, DONE.(parent := AsWas));
            && was.data == g'.data && was.inodes[p] == g.inodes[p] && p < |g'.inodes| && g'.inodes[p] == Extended(ino, block)
            && |g'.inodes| == |g.inodes| && g'.inodeBits == g.inodeBits + {inum as nat} && g'.dataBits == g.dataBits + {block - sb.dataStart}
            && block in g'.data && |g'.data[block]| == BLOCK
  {
    hide Usable, Find, Chosen;
  }

  /** After a creation that is complete on disk and was reported as failed, another can begin from the same copy. */
  lemma BeginsAgain(g: Records, sb: Super, live: set<nat>, p: nat, x: Name, i: U32, block: U32, y: Name, j: U32)
    requires p < |g.inodes| && FromCopy(g, sb, live, p, g.inodes[p], x, i, block) && TailOffset(g.inodes[p]) != 0
    requires 0 < |y| <= NAME_MAX && Find(g, g.inodes[p], y) == Err(NotFound) && 0 < j < |g.inodes| && j !in g.inodeBits && j != i
    ensures FromCopy(After(g, sb, p, g.inodes[p], x, i, block, DONE), sb, live + {i as nat}, p, g.inodes[p], y, j, block)
  {
    var ino := g.inodes[p];
    var g1 := After(g, sb, p, ino, x, i, block, DONE);
    LeftSound(g, sb, live, p, ino, x, i, block, DONE);
    CopyLists(g, sb, live, p, x, i, block, y);
    AfterParents(g, sb, p, ino, x, i, block);
    BegunOutgrown(g, sb, p, ino, x, i, block);
    BlockFacts(g, sb, ino, block);
    var live1 := live + {i as nat};
    assert InodeOk(Limited(g1, live1), sb, g1.inodes[p]);
    ShorterBlocks(Limited(g1, live1), g1, sb, ino, g1.inodes[p]);
    assert Shape(g1, sb);
    hide FsOk, After, InodeOk, Find;
  }

  /** The parent can still be reached. */
  lemma ReachesAgain(g: Records, sb: Super, live: set<nat>, p: nat, x: Name, i: U32, block: U32)
    requires p < |g.inodes| && FromCopy(g, sb, live, p, g.inodes[p], x, i, block) && Reaches(g, p)
    ensures Reaches(After(g, sb, p, g.inodes[p], x, i, block, DONE), p)
  {
    hide FsOk, Begun, After, FromCopy, Resolve;
    BegunOf(g, sb, live, p, g.inodes[p], x, i, block);
    var g1, live1 := After(g, sb, p, g.inodes[p], x, i, block, DONE), live + {i as nat};
    DiskPaths(g, sb, live, p, g.inodes[p], x, i, block);
    DirectoryFacts(g, sb, live, p, g.inodes[p], x, i, block);
    RootCounts(Limited(g, live), sb);
    var path: seq<Name> :| Nonempty(path) && Resolve(g, ROOT, path) == Ok(p);
    ResolveLimited(g, live, ROOT, path);
    ResolveLimited(g1, live1, ROOT, path);
    assert Resolve(g1, ROOT, path) == Ok(p);
  }

  /**
   Two creations from the same copy, the first complete on disk but reported as failed: if the second is
   torn, no choice of inodes makes the disk sound, and if it succeeds, the first name is gone from the disk.
   */
  lemma TwoCreations(g: Records, sb: Super, live: set<nat>, p: nat, x: Name, i: U32, block: U32, y: Name, j: U32)
    requires p < |g.inodes| && FromCopy(g, sb, live, p, g.inodes[p], x, i, block) && TailOffset(g.inodes[p]) != 0 && Reaches(g, p)
    requires 0 < |y| <= NAME_MAX && Find(g, g.inodes[p], y) == Err(NotFound) && 0 < j < |g.inodes| && j !in g.inodeBits && j != i && x != y
    ensures var ino, g1 := g.inodes[p], After(g, sb, p, g.inodes[p], x, i, block, DONE);
            && Begun(g1, sb, p, ino, y, j, block) && p < |g1.inodes|
            && !SomeSound(After(g1, sb, p, ino, y, j, block, TORN), sb)
            && Find(g1, g1.inodes[p], x) == Ok(i)
            && var g2 := After(g1, sb, p, ino, y, j, block, DONE);
            p < |g2.inodes| && Find(g2, g2.inodes[p], x) == Err(NotFound)
  {
    hide FsOk, After, FromCopy, Find, Reaches, Begun, SomeSound, Step;
    var ino := g.inodes[p];
    BegunOf(g, sb, live, p, ino, x, i, block);
    var g1, live1 := After(g, sb, p, ino, x, i, block, DONE), live + {i as nat};
    BeginsAgain(g, sb, live, p, x, i, block, y, j);
    ReachesAgain(g, sb, live, p, x, i, block);
    BegunOf(g1, sb, live1, p, ino, y, j, block);
    AfterParents(g, sb, p, ino, x, i, block);
    Longer1(g, sb, live, p, x, i, block);
    DiskExact(g1, sb, live1, p, ino, y, j, block, TORN);
    MadeFinds(g, sb, live, p, ino, x, i, block, x);
    MadeFinds(g1, sb, live1, p, ino, y, j, block, x);
    CopyLists(g, sb, live, p, x, i, block, x);
    BegunMissing(g, sb, p, ino, x, i, block);
  }

  lemma Longer1(g: Records, sb: Super, live: set<nat>, p: nat, x: Name, i: U32, block: U32)
    requires p < |g.inodes| && FromCopy(g, sb, live, p, g.inodes[p], x, i, block)
    ensures Extended(g.inodes[p], block) != g.inodes[p] && x != []
  {}

  lemma BegunMissing(g: Records, sb: Super, p: nat, ino: INode, name: Name, inum: U32, block: U32)
    requires Begun(g, sb, p, ino, name, inum, block)
    ensures Find(g, ino, name) == Err(NotFound)
  {}

  /** What the parent finds on disk after a creation from a copy: the new name, and what the copy lists. */
  lemma MadeFinds(g: Records, sb: Super, live: set<nat>, p: nat, ino: INode, name: Name, inum: U32, block: U32, other: Name)
    requires FromCopy(g, sb, live, p, ino, name, inum, block)
    ensures var g' := After(g, sb, p, ino, name, inum, block, DONE);
            p < |g'.inodes| && Find(g', g'.inodes[p], other) == if other == name then Ok(inum) else Find(g, ino, other)
  {
    hide FsOk, Begun, After, FromCopy, Step, Find;
    BegunOf(g, sb, live, p, ino, name, inum, block);
    DirectoryFacts(g, sb, live, p, ino, name, inum, block);
    BegunBack(g, sb, live, p, ino, name, inum, block);
    AfterBack(g, sb, p, ino, name, inum, block, DONE);
    var b := PutBack(g, p, ino);
    var g', live' := After(g, sb, p, ino, name, inum, block, DONE), live + {inum as nat};
    AfterStep(Limited(b, live), b, sb, p, name, inum, block, DONE);
    StepFinds(Limited(b, live), sb, p, name, inum, block, Limited(g', live'));
    FindLimited(g', live', g'.inodes[p], other);
    FindLimited(b, live, ino, other);
    SameDataFind(g, b, ino, other);
  }

  // ---- a concrete disk ----

  /** Four inodes and one data block. */
  const TINY: Super := Super(5, 4, 1, 2, 3, 1, 4)

  ghost function ZeroBlock(): (s: seq<Octet>)
    ensures |s| == BLOCK
  {
    seq<Octet>(BLOCK, _ => 0)
  }

  /** A root directory with one entry that has no name. */
  function TinyRoot(): INode {
    INode(DIRECTORY, 1, 0, 32, [4, 0, 0, 0, 0, 0, 0, 0, 0, 0, 0, 0], 0)
  }

  ghost function TinyDisk(): Records {
    Records([EmptyFile(), TinyRoot(), EmptyFile(), EmptyFile()], {1}, {0}, map[4 := ZeroBlock()])
  }

  lemma TinyEntry(live: set<nat>)
    ensures EntryCount(TinyRoot()) == 1 && EntryAt(Limited(TinyDisk(), live), TinyRoot(), 0).Some?
    ensures EntryAt(Limited(TinyDisk(), live), TinyRoot(), 0).value.nameLen == 0
  {
    assert BlockNo(Limited(TinyDisk(), live), TinyRoot(), 0) == 4;
  }

  lemma TinyOk()
    ensures FsOk(TinyDisk(), TINY) && Limited(TinyDisk(), {1}) == TinyDisk()
  {
    var fs := TinyDisk();
    TinyEntry({1});
    assert Limited(fs, {1}) == fs;
    assert Count(TinyRoot()) == 1 && BlockNo(fs, TinyRoot(), 0) == 4;
    hide EntryAt, BlockNo;
    assert forall i: nat :: Live(fs, i) <==> i == ROOT;
    assert fs.inodes[ROOT] == TinyRoot();
  }

  lemma TinyMissing(name: Name)
    requires name != []
    ensures Find(TinyDisk(), TinyRoot(), name) == Err(NotFound)
  {
    TinyEntry({1});
    assert Limited(TinyDisk(), {1}) == TinyDisk();
    hide EntryAt;
    FindMissing(TinyDisk(), TinyRoot(), name, 0);
  }

  lemma TinyBegins()
    ensures FromCopy(TinyDisk(), TINY, {1}, ROOT, TinyRoot(), [120], 2, 4)
    ensures TailOffset(TinyRoot()) == 32 && Reaches(TinyDisk(), ROOT)
  {
    TinyOk();
    TinyMissing([120]);
    assert TinyDisk().inodes[ROOT] == TinyRoot() && InodeOk(TinyDisk(), TINY, TinyRoot());
    assert Nonempty([]) && Resolve(TinyDisk(), ROOT, []) == Ok(ROOT);
    hide FsOk, InodeOk, Find;
  }

  /** Creating "x" and then "y" in the root of this disk, as above, leaves it unsound, or without "x". */
  lemma TinyTorn()
    ensures var g := TinyDisk();
            && FsOk(g, TINY) && Begun(g, TINY, ROOT, TinyRoot(), [120], 2, 4)
            && var g1 := After(g, TINY, ROOT, TinyRoot(), [120], 2, 4, DONE);
            && Begun(g1, TINY, ROOT, TinyRoot(), [121], 3, 4)
            && Possible(DONE) && Possible(TORN) && !SomeSound(After(g1, TINY, ROOT, TinyRoot(), [121], 3, 4, TORN), TINY)
            && Resolve(g1, ROOT, [[120]]) == Ok(2)
            && Resolve(After(g1, TINY, ROOT, TinyRoot(), [121], 3, 4, DONE), ROOT, [[120]]) == Err(NotFound)
  {
    hide FsOk, After, Find, Reaches, Begun, SomeSound, FromCopy;
    TinyOk();
    TinyBegins();
    TinyMissing([121]);
    var g := TinyDisk();
    assert g.inodes[ROOT] == TinyRoot();
    BegunOf(g, TINY, {1}, ROOT, TinyRoot(), [120], 2, 4);
    TwoCreations(g, TINY, {1}, ROOT, [120], 2, 4, [121], 3);
    var g1 := After(g, TINY, ROOT, TinyRoot(), [120], 2, 4, DONE);
    AfterParents(g, TINY, ROOT, TinyRoot(), [120], 2, 4);
    AfterParents(g1, TINY, ROOT, TinyRoot(), [121], 3, 4);
    ResolveOne(g1, ROOT, [120]);
    ResolveOne(After(g1, TINY, ROOT, TinyRoot(), [121], 3, 4, DONE), ROOT, [120]);
  }
}
