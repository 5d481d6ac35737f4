/**
 A mounted file system: the device, the superblock and the cache of inode records.  Its operations work
 from the records in memory.  In the kernel's view the invariant, every path and every file survive every
 sequence of operations, whatever the device does.
 */
module VsfsMounted {
  import opened Basics
  import opened VsfsDisk
  import opened VsfsFile
  import opened VsfsRecords
  import opened VsfsTree
  import opened VsfsKept
  import opened VsfsCreate
  import opened VsfsKernel
  import opened VsfsCreateFile
  import opened VsfsCached
  import opened VsfsWrite

  class Vsfs {
    const dev: BlockDevice
    const sb: Super
    var cache: Cache
    /** The inodes that count; others may be marked on disk, and are leaked. */
    ghost var live: set<nat>

    ghost predicate Valid()
      reads this, dev
    {
      && Geometry(sb, dev.disk) && sb.nblocks < 0x1_0000_0000
      && KernelOk(View(dev.disk, sb), cache, sb, live) && ROOT in cache
    }

    /** The file system as the kernel sees it. */
    ghost function Seen(): Records
      requires Geometry(sb, dev.disk)
      reads this, dev
    {
      Now(View(dev.disk, sb), cache, live)
    }

    /** `initialize`, once the superblock and the root inode are read. */
    constructor (dev: BlockDevice, sb: Super, root: INode, ghost live: set<nat>)
      requires Geometry(sb, dev.disk) && sb.nblocks < 0x1_0000_0000 && Sound(View(dev.disk, sb), sb, live) && root == View(dev.disk, sb).inodes[ROOT]
      ensures Valid() && this.dev == dev && this.sb == sb && this.live == live && Seen() == Limited(View(dev.disk, sb), live)
    {
      this.dev, this.sb, this.live := dev, sb, live;
      cache := map[ROOT := root];
      new;
      NothingCached(View(dev.disk, sb), sb, live);
      CacheRead(View(dev.disk, sb), map[], sb, live, ROOT);
    }

    /** `read_inode`: the copy, or the record on disk, of which it keeps a copy. */
    method ReadInode(i: nat) returns (r: Result<INode>)
      requires Valid() && Live(Seen(), i)
      modifies this`cache
      ensures Valid() && Seen() == old(Seen()) && old(cache).Keys <= cache.Keys
      ensures r.Ok? ==> i in cache && i < |Seen().inodes| && r.value == cache[i] == Seen().inodes[i]
      ensures r.Err? ==> r.error == DeviceIO && !dev.reliable
    {
      hide View, Geometry, KernelOk, Live, Sound;
      SeenIs(View(dev.disk, sb), cache, sb, live, i);
      if i in cache {
        return Ok(cache[i]);
      }
      r := VsfsKernel.ReadInode(dev, sb, i);
      if r.Ok? {
        CacheRead(View(dev.disk, sb), cache, sb, live, i);
        cache := cache[i := r.value];
      }
    }

    /** `lookup_path`: searches a directory, and reads the inode it finds. */
    method Lookup(i: nat, name: Name) returns (r: Result<nat>)
      requires Valid() && i in cache && Live(Seen(), i) && name != []
      modifies this`cache
      ensures Valid() && Seen() == old(Seen()) && old(cache).Keys <= cache.Keys
      ensures r == Found(Seen(), i, name) || (r == Err(DeviceIO) && !dev.reliable)
      ensures r.Ok? ==> r.value in cache && Live(Seen(), r.value)
    {
      hide View, Geometry, KernelOk, Live, Find, Now, Usable, Listable, FsOk;
      ghost var g, fs := View(dev.disk, sb), Seen();
      CachedFacts(g, cache, sb, live, i, name);
      var k := FindEntry(dev, sb, cache[i], name);
      if k.Err? {
        return Err(k.error);
      }
      FoundLive(fs, sb, i, name);
      var ino := ReadInode(k.value);
      if ino.Err? {
        return Err(ino.error);
      }
      r := Ok(k.value as nat);
    }

    /** `open`: walks the components of a path from an inode. */
    method Open(start: nat, path: seq<Octet>) returns (r: Result<nat>)
      requires Valid() && start in cache && Live(Seen(), start)
      modifies this`cache
      ensures Valid() && Seen() == old(Seen())
      ensures r == Resolve(Seen(), start, Components(path)) || (r == Err(DeviceIO) && !dev.reliable)
      ensures r.Ok? ==> r.value in cache && Live(Seen(), r.value)
    {
      hide View, Geometry, KernelOk, Live, Find, Components, Now;
      var names := Components(path);
      PathPlain(path);
      ghost var fs := Seen();
      var current, k := start, 0;
      assert names[0..] == names;
      while k < |names|
        invariant 0 <= k <= |names| && Valid() && Seen() == fs && current in cache && Live(fs, current)
        invariant Resolve(fs, start, names) == Resolve(fs, current, names[k..])
      {
        assert names[k..][0] == names[k] && names[k..][1..] == names[k + 1..];
        CopyIs(current);
        if cache[current].ty == FILE {
          return Err(Fs);
        }
        var next := Lookup(current, names[k]);
        if next.Err? {
          return Err(next.error);
        }
        current := next.value;
        k := k + 1;
      }
      r := Ok(current);
    }

    /**
     `create_file`.  When it succeeds the kernel sees exactly the new file, made from the first free inode
     and block.  When it fails, at whatever sector operation, the kernel sees no difference at all.
     */
    method CreateFile(p: nat, name: Name) returns (r: Result<U32>)
      requires Valid() && p in cache && Live(Seen(), p)
      modifies this, dev`disk
      ensures Valid() && Survives(old(Seen()), Seen(), sb, {})
      ensures r.Ok? ==> Made(old(View(dev.disk, sb)), old(Seen()), Seen(), sb, p, name, r.value) && r.value as nat in cache
      ensures r.Ok? ==> NewPath(Seen(), p, [name], r.value as nat)
      ensures r.Ok? ==> CacheGrown(old(cache), cache, p, r.value as nat)
      ensures r.Err? ==> SamePaths(old(Seen()), Seen()) && live == old(live) && cache == old(cache)
      ensures r.Err? && dev.reliable ==> Seen() == old(Seen()) && !CanCreate(old(View(dev.disk, sb)), sb, old(cache)[p], name)
    {
      hide View, Geometry, KernelOk, Live, Find, Now, Usable, Survives, SamePaths, FailedOn, CreatedFirst, CanCreate, Made, NewPath, CacheGrown;
      ghost var g, fs := View(dev.disk, sb), Seen();
      CachedFacts(g, cache, sb, live, p, name);
      var made;
      ghost var block;
      made, block := VsfsCreateFile.CreateFile(dev, sb, p, cache[p], name);
      if made.Err? {
        FailureUnseen(g, cache, View(dev.disk, sb), sb, live, p, name);
        return Err(made.error);
      }
      SuccessMade(g, cache, View(dev.disk, sb), sb, live, p, name, made.value.0, block);
      GrownCache(cache, sb, g, p, name, made.value.0, block) by { CreatedBegun(g, View(dev.disk, sb), sb, p, cache[p], name, made.value.0, block); }
      cache := cache[p := made.value.1][made.value.0 := EmptyFile()];
      live := live + {made.value.0 as nat};
      r := Ok(made.value.0);
      MadeHere(g, fs, Seen(), sb, p, name, made.value.0);
    }

    /**
     `create`: walks to the directory and creates the last component there, if nothing has that name.
     Whatever happens, everything that was there survives and the invariant holds again.
     */
    method Create(start: nat, path: seq<Octet>) returns (r: Result<(nat, U32)>)
      requires Valid() && start in cache && Live(Seen(), start)
      modifies this, dev`disk
      ensures Valid() && Survives(old(Seen()), Seen(), sb, {})
      ensures r.Ok? ==> PathMade(old(View(dev.disk, sb)), old(Seen()), Seen(), sb, start, Components(path), r.value.0, r.value.1)
      ensures r.Ok? ==> NewPath(Seen(), start, Components(path), r.value.1 as nat) && r.value.1 as nat in cache
      ensures r.Err? ==> SamePaths(old(Seen()), Seen())
      ensures r.Err? && dev.reliable ==>
                Seen() == old(Seen()) && !PathCreatable(old(View(dev.disk, sb)), old(Seen()), sb, start, Components(path))
    {
      hide View, Geometry, KernelOk, Live, Find, Components, Now, Survives, SamePaths, Made, PathCreatable, CanCreate, Resolve, NewPath;
      var names := Components(path);
      PathPlain(path);
      ghost var g, fs := View(dev.disk, sb), Seen();
      SeenSelf(g, cache, sb, live);
      NoNames(g, fs, sb, start, names);
      var current, k := start, 0;
      while k < |names|
        invariant 0 <= k <= |names| && Valid() && Seen() == fs && dev.disk == old(dev.disk) && current in cache && Live(fs, current)
        invariant Resolve(fs, start, names[..k]) == Ok(current) && (k == |names| ==> !PathCreatable(g, fs, sb, start, names))
      {
        CopyIs(current);
        NotCreatable(g, fs, sb, start, names, k, current);
        if cache[current].ty == FILE {
          return Err(Fs);
        }
        var next := Lookup(current, names[k]);
        if next == Err(NotFound) && k == |names| - 1 {
          CopyIs(current);
          var made := CreateFile(current, names[k]);
          if made.Err? {
            return Err(made.error);
          }
          assert names == names[..k] + [names[k]];
          MadePath(g, fs, Seen(), sb, start, names[..k], current, names[k], made.value);
          return Ok((current, made.value));
        } else if next.Err? {
          return Err(if k == |names| - 1 then Fs else next.error);
        }
        ResolveOneMore(fs, start, names, k, current);
        current := next.value;
        k := k + 1;
      }
      r := Err(Fs);
    }

    /** `read`: what lands in the buffer are bytes of the file as the kernel sees it. */
    method Read(i: nat, offset: nat, buf: array<Octet>) returns (r: Result<nat>)
      requires Valid() && i in cache && Live(Seen(), i)
      modifies buf
      ensures Valid() && Seen() == old(Seen())
      ensures r.Ok? ==> BytesRead(Seen(), cache[i], offset, buf[..], r.value) && buf[r.value..] == old(buf[r.value..])
      ensures cache[i].ty != FILE ==> r == Err(Fs)
      ensures cache[i].ty == FILE && dev.reliable ==> r.Ok? && (r.value == buf.Length || offset + r.value >= cache[i].sz)
      ensures cache[i].ty == FILE && dev.reliable ==> buf[..r.value] == Stretch(Body(Seen(), cache[i]), offset, offset + buf.Length)
      ensures cache[i].ty == FILE && offset >= cache[i].sz ==> r == Ok(0)
    {
      hide View, Geometry, KernelOk, Live, Now, FileOk, InodeOk, Contents, Body, Filled, MappedBlock;
      CopyLive(i);
      LiveOk(dev.disk, sb, cache, live, i, cache[i]);
      SoundFile(dev.disk, sb, cache[i]);
      NowBlocks(View(dev.disk, sb), cache, live, cache[i]);
      r := VsfsFile.Read(dev, cache[i], offset, buf);
      if r.Ok? {
        FilledBody(dev.disk, cache[i], offset, old(buf[..]), buf[..], r.value);
      }
    }

    /** `write`: some first part of the bytes is written into the file, and the kernel sees no other difference. */
    method Write(i: nat, offset: nat, data: seq<Octet>) returns (r: Result<nat>, ghost written: seq<Octet>)
      requires Valid() && i in cache && Live(Seen(), i)
      modifies dev`disk
      ensures Valid() && FileWritten(old(Seen()), Seen(), sb, i, offset, written)
      ensures written <= data && (written != [] ==> offset + |written| <= cache[i].sz) && (r.Ok? ==> r.value == |written|)
      ensures cache[i].ty != FILE ==> r == Err(Fs) && written == []
      ensures cache[i].ty == FILE && dev.reliable ==> r.Ok? && (written == data || offset + |written| >= cache[i].sz)
    {
      hide View, Geometry, KernelOk, Live, Now, Survives, SamePaths, WrittenOn, FileWritten;
      CopyLive(i);
      if cache[i].ty != FILE {
        NotWrittenAt(View(dev.disk, sb), cache, sb, live, i, offset);
        r, written := Err(Fs), [];
        return;
      }
      ghost var d := dev.disk;
      r, written := WriteLive(dev, sb, cache, live, i, cache[i], offset, data);
      WrittenKernel(d, dev.disk, sb, cache, live, i, offset, written);
    }

    lemma CopyLive(i: nat)
      requires Valid() && i in cache && Live(Seen(), i)
      ensures LiveInode(dev.disk, sb, cache, live, i, cache[i])
    {}

    /** The copy of an inode is what the kernel sees. */
    lemma CopyIs(i: nat)
      requires Valid() && i in cache
      ensures i < |Seen().inodes| && Seen().inodes[i] == cache[i]
    {}
  }

  /** What a search in inode `i` finds, as a number. */
  function Found(fs: Records, i: nat, name: Name): Result<nat>
    requires i < |fs.inodes|
  {
    match Find(fs, fs.inodes[i], name)
    case Err(e) => Err(e)
    case Ok(k) => Ok(k as nat)
  }

  /** The file exists in the kernel's view, with the first free inode and the tail block or the first free block. */
  ghost predicate Made(g: Records, fs: Records, fs': Records, sb: Super, p: nat, name: Name, inum: U32) {
    && p < |fs.inodes| && |name| <= NAME_MAX && FirstClear(g.inodeBits, 1, inum)
    && exists block: U32 :: MadeWith(g, fs, fs', sb, p, name, inum, block)
  }

  ghost predicate MadeWith(g: Records, fs: Records, fs': Records, sb: Super, p: nat, name: Name, inum: U32, block: U32)
    requires p < |fs.inodes| && |name| <= NAME_MAX
  {
    && Step(fs, sb, p, name, inum, block, EntryFor(inum, name), fs')
    && (fs.inodes[p].direct[TailBlock(fs.inodes[p])] == 0 ==> FirstClear(g.dataBits, 0, block - sb.dataStart))
  }

  /** All components but the last lead to `p`, and there the file is made. */
  ghost predicate PathMade(g: Records, fs: Records, fs': Records, sb: Super, start: nat, names: seq<Name>, p: nat, inum: U32) {
    && names != [] && Resolve(fs, start, names[..|names| - 1]) == Ok(p)
    && Made(g, fs, fs', sb, p, names[|names| - 1], inum)
  }

  /** The record of a directory that has grown by one entry: its size, and the pointer to its last block. */
  predicate OneEntryMore(ino: INode, ino': INode) {
    && ino'.ty == ino.ty == DIRECTORY && ino'.links == ino.links && ino'.dev == ino.dev && ino'.indirect == ino.indirect
    && ino'.sz == ino.sz + 32
    && forall j | 0 <= j < DIRECT_BLOCKS && j != ino.sz / 4096 :: ino'.direct[j] == ino.direct[j]
  }

  /** The copies after a creation: the parent's, with one entry more, and that of an empty file. */
  predicate CacheGrown(cache: Cache, cache': Cache, p: nat, inum: nat) {
    p in cache && p in cache' && inum in cache' && OneEntryMore(cache[p], cache'[p]) && cache'[inum].ty == FILE && cache'[inum].sz == 0
  }

  lemma GrownCache(cache: Cache, sb: Super, g: Records, p: nat, name: Name, inum: U32, block: U32)
    requires p in cache && Begun(g, sb, p, cache[p], name, inum, block)
    ensures TailBlock(cache[p]) < DIRECT_BLOCKS && cache[p].sz + DIRENT_SIZE < 0x1_0000_0000
    ensures CacheGrown(cache, cache[p := Extended(cache[p], block)][inum := EmptyFile()], p, inum as nat)
  {
    hide Usable, Find, Chosen;
  }

  /** The new path opens an empty file, and no path goes on through it. */
  lemma MadePath(g: Records, fs: Records, fs': Records, sb: Super, i: nat, path: seq<Name>, p: nat, name: Name, inum: U32)
    requires Made(g, fs, fs', sb, p, name, inum) && Live(fs, i) && Resolve(fs, i, path) == Ok(p) && Nonempty(path)
    ensures NewPath(fs', i, path + [name], inum as nat)
  {
    hide Step, FirstClear, NewPath, Resolve, Live;
    var block: U32 :| MadeWith(g, fs, fs', sb, p, name, inum, block);
    CreatesEmpty(fs, sb, p, name, inum, block, EntryFor(inum, name), fs', i, path);
  }

  lemma MadeHere(g: Records, fs: Records, fs': Records, sb: Super, p: nat, name: Name, inum: U32)
    requires Made(g, fs, fs', sb, p, name, inum) && Live(fs, p)
    ensures NewPath(fs', p, [name], inum as nat)
  {
    hide Made, NewPath, Live;
    MadePath(g, fs, fs', sb, p, [], p, name, inum);
    assert [] + [name] == [name];
  }

  lemma SuccessMade(g: Records, cache: Cache, g': Records, sb: Super, live: set<nat>, p: nat, name: Name, inum: U32, block: U32)
    requires KernelOk(g, cache, sb, live) && p in cache && CreatedFirst(g, g', sb, p, cache[p], name, inum, block)
    ensures TailBlock(cache[p]) < DIRECT_BLOCKS && cache[p].sz + DIRENT_SIZE < 0x1_0000_0000
    ensures var cache' := cache[p := Extended(cache[p], block)][inum := EmptyFile()];
            var live' := live + {inum as nat};
            && KernelOk(g', cache', sb, live') && Survives(Now(g, cache, live), Now(g', cache', live'), sb, {})
            && Made(g, Now(g, cache, live), Now(g', cache', live'), sb, p, name, inum)
  {
    hide KernelOk, Begun, Survives, Now, Step, FirstClear;
    BegunFacts(g, sb, p, cache[p], name, inum, block);
    SuccessSeen(g, cache, sb, live, p, name, inum, block);
    CopyOf(g, cache, sb, live, p);
    assert MadeWith(g, Now(g, cache, live), Now(g', cache[p := Extended(cache[p], block)][inum := EmptyFile()], live + {inum as nat}), sb, p, name, inum, block);
  }

  lemma CreatedBegun(g: Records, g': Records, sb: Super, p: nat, ino: INode, name: Name, inum: U32, block: U32)
    requires CreatedFirst(g, g', sb, p, ino, name, inum, block)
    ensures Begun(g, sb, p, ino, name, inum, block)
  {}

  lemma BegunFacts(g: Records, sb: Super, p: nat, ino: INode, name: Name, inum: U32, block: U32)
    requires Begun(g, sb, p, ino, name, inum, block)
    ensures TailBlock(ino) < DIRECT_BLOCKS && ino.sz + DIRENT_SIZE < 0x1_0000_0000 && |name| <= NAME_MAX
  {}

  lemma CopyOf(g: Records, cache: Cache, sb: Super, live: set<nat>, p: nat)
    requires KernelOk(g, cache, sb, live) && p in cache
    ensures p < |Now(g, cache, live).inodes| && Now(g, cache, live).inodes[p] == cache[p]
  {}

  lemma SeenSelf(g: Records, cache: Cache, sb: Super, live: set<nat>)
    requires KernelOk(g, cache, sb, live)
    ensures var fs := Now(g, cache, live); Survives(fs, fs, sb, {}) && SamePaths(fs, fs)
  {
    SurvivesSelf(Now(g, cache, live), sb);
  }

  /** The first `n` bytes of `s` are those of the file from `offset` on. */
  ghost predicate BytesRead(fs: Records, ino: INode, offset: nat, s: seq<Octet>, n: nat) {
    n <= |s| && (n > 0 ==> offset + n <= ino.sz && s[..n] == Body(fs, ino)[offset..offset + n])
  }

  /** The part of `s` between two positions, cut off where `s` ends. */
  function Stretch<T>(s: seq<T>, from: nat, to: nat): seq<T>
    requires from <= to
  {
    s[if from < |s| then from else |s|..if to < |s| then to else |s|]
  }

  lemma FilledBody(d: Disk, ino: INode, offset: nat, was: seq<Octet>, now: seq<Octet>, n: nat)
    requires FileOk(d, ino) && Filled(d, ino, offset, was, now, n) && (n > 0 ==> offset + n <= ino.sz)
    ensures n > 0 ==> offset + n <= |Contents(d, ino)| && now[..n] == Contents(d, ino)[offset..offset + n]
    ensures now[n..] == was[n..]
  {
    if n > 0 { ReadIsSlice(d, ino, offset, now[..n]); }
  }

  lemma NotWrittenAt(g: Records, cache: Cache, sb: Super, live: set<nat>, i: nat, offset: nat)
    requires KernelOk(g, cache, sb, live) && i in cache
    ensures FileWritten(Now(g, cache, live), Now(g, cache, live), sb, i, offset, [])
  {
    SeenSelf(g, cache, sb, live);
    CopyOf(g, cache, sb, live, i);
    hide KernelOk, SamePaths, FsOk, PathsKept;
  }

  lemma WrittenKernel(d: Disk, d': Disk, sb: Super, cache: Cache, live: set<nat>, i: nat, offset: nat, bytes: seq<Octet>)
    requires WrittenOn(d, d', sb, cache, live, i, offset, bytes) && KernelOk(View(d, sb), cache, sb, live)
    ensures Geometry(sb, d') && KernelOk(View(d', sb), cache, sb, live)
    ensures FileWritten(Now(View(d, sb), cache, live), Now(View(d', sb), cache, live), sb, i, offset, bytes)
  {
    hide View, Geometry;
    SurvivesOk(Now(View(d, sb), cache, live), Now(View(d', sb), cache, live), sb, {i});
  }

  /** All components but the last lead to a directory in which the last can be created. */
  ghost predicate PathCreatable(g: Records, fs: Records, sb: Super, start: nat, names: seq<Name>) {
    names != [] && Resolve(fs, start, names[..|names| - 1]).Ok?
    && var p := Resolve(fs, start, names[..|names| - 1]).value;
    p < |fs.inodes| && CanCreate(g, sb, fs.inodes[p], names[|names| - 1]) && Find(fs, fs.inodes[p], names[|names| - 1]) == Err(NotFound)
  }

  /** A walk that cannot go on, or that finds the last component, leaves nothing to create. */
  lemma NotCreatable(g: Records, fs: Records, sb: Super, start: nat, names: seq<Name>, k: nat, current: nat)
    requires k < |names| && Resolve(fs, start, names[..k]) == Ok(current) && current < |fs.inodes|
    ensures fs.inodes[current].ty == FILE ==> !PathCreatable(g, fs, sb, start, names)
    ensures k < |names| - 1 && Find(fs, fs.inodes[current], names[k]).Err? ==> !PathCreatable(g, fs, sb, start, names)
    ensures k == |names| - 1 && Find(fs, fs.inodes[current], names[k]) != Err(NotFound) ==> !PathCreatable(g, fs, sb, start, names)
    ensures k == |names| - 1 && !CanCreate(g, sb, fs.inodes[current], names[k]) ==> !PathCreatable(g, fs, sb, start, names)
  {
    if k < |names| - 1 {
      var init := names[..|names| - 1];
      assert init[..k] == names[..k] && init[k] == names[k];
      ResolveStuck(fs, start, init, k);
    }
  }

  lemma NoNames(g: Records, fs: Records, sb: Super, start: nat, names: seq<Name>)
    ensures Resolve(fs, start, names[..0]) == Ok(start) && (names == [] ==> !PathCreatable(g, fs, sb, start, names))
  {}

  lemma SeenIs(g: Records, cache: Cache, sb: Super, live: set<nat>, i: nat)
    requires KernelOk(g, cache, sb, live) && Live(Now(g, cache, live), i)
    ensures i < sb.ninodes && i < |g.inodes| && i < |Now(g, cache, live).inodes|
    ensures Now(g, cache, live).inodes[i] == if i in cache then cache[i] else g.inodes[i]
  {}

  lemma CachedFacts(g: Records, cache: Cache, sb: Super, live: set<nat>, i: nat, name: Name)
    requires KernelOk(g, cache, sb, live) && i in cache && Live(Now(g, cache, live), i)
    ensures FsOk(Now(g, cache, live), sb) && Usable(g, sb, i, cache[i]) && Listable(g, sb, cache[i])
    ensures i < |Now(g, cache, live).inodes| && Now(g, cache, live).inodes[i] == cache[i]
    ensures Find(Now(g, cache, live), cache[i], name) == Find(g, cache[i], name)
  {
    hide FsOk, Find;
    CachedUsable(g, cache, sb, live, i);
    SameDataFind(g, Now(g, cache, live), cache[i], name);
    UsableFacts(g, sb, i, cache[i]);
  }

  /** A walk that is stuck stays stuck. */
  lemma ResolveStuck(fs: Records, i: nat, names: seq<Name>, k: nat)
    requires k < |names| && Resolve(fs, i, names[..k]).Ok?
    ensures var j := Resolve(fs, i, names[..k]).value;
            j < |fs.inodes| && (fs.inodes[j].ty == FILE || Find(fs, fs.inodes[j], names[k]).Err?) ==> Resolve(fs, i, names).Err?
  {
    assert names == names[..k] + names[k..] && names[k..][0] == names[k];
    ResolveConcat(fs, i, names[..k], names[k..]);
  }

  lemma ResolveOneMore(fs: Records, i: nat, names: seq<Name>, k: nat, current: nat)
    requires k < |names| && Resolve(fs, i, names[..k]) == Ok(current) && current < |fs.inodes| && fs.inodes[current].ty != FILE
    requires Find(fs, fs.inodes[current], names[k]).Ok?
    ensures Resolve(fs, i, names[..k + 1]) == Ok(Find(fs, fs.inodes[current], names[k]).value as nat)
  {
    assert names[..k + 1] == names[..k] + [names[k]];
    ResolveConcat(fs, i, names[..k], [names[k]]);
  }
}
