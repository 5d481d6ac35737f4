/**
 Writing a file of a sound file system, as the kernel sees it: the invariant, every inode record, both
 bitmaps, every path and every other file are as before, whether the write is complete or was cut short
 by the device.
 */
module VsfsWrite {
  import opened VsfsDisk
  import opened VsfsFile
  import opened VsfsRecords
  import opened VsfsTree
  import opened VsfsKept
  import opened VsfsKernel
  import opened VsfsCached

  // ---- files of a sound file system ----

  lemma SoundBlock(d: Disk, sb: Super, ino: INode, j: nat)
    requires Geometry(sb, d) && 0 < sb.dataStart && InodeOk(View(d, sb), sb, ino) && j < Count(ino)
    ensures MappedBlock(d, ino, j) == BlockNo(View(d, sb), ino, j) && DataBlockNumber(sb, MappedBlock(d, ino, j)) && BlockOk(d, MappedBlock(d, ino, j))
  {
    SameBlockNumber(d, sb, ino, j);
    assert InUse(View(d, sb), sb, BlockNo(View(d, sb), ino, j));
  }

  /** The blocks of a sound inode are data blocks, and it is a well-formed file. */
  lemma SoundFile(d: Disk, sb: Super, ino: INode)
    requires Geometry(sb, d) && 0 < sb.dataStart && InodeOk(View(d, sb), sb, ino)
    ensures FileOk(d, ino) && forall j | 0 <= j < Count(ino) :: DataBlockNumber(sb, MappedBlock(d, ino, j))
    ensures forall j | 0 <= j < Count(ino) :: MappedBlock(d, ino, j) == BlockNo(View(d, sb), ino, j)
    ensures Contents(d, ino) == Body(View(d, sb), ino)
  {
    var fs := View(d, sb);
    forall j | 0 <= j < Count(ino)
      ensures MappedBlock(d, ino, j) == BlockNo(fs, ino, j) && DataBlockNumber(sb, MappedBlock(d, ino, j)) && BlockOk(d, MappedBlock(d, ino, j))
    {
      SoundBlock(d, sb, ino, j);
    }
    assert HasIndirect(ino) ==> InUse(fs, sb, ino.indirect);
    hide View, MappedBlock, BlockNo, InUse;
    assert HasIndirect(ino) ==> BlockOk(d, ino.indirect) by { if HasIndirect(ino) { IndirectOk(d, sb, ino); } }
    forall k | 0 <= k < ino.sz ensures Contents(d, ino)[k] == ByteAt(fs, ino, k) {
      LocationOk(d, ino, k);
      ViewBlock(d, sb, BlockNo(fs, ino, k / BLOCK));
    }
  }

  lemma IndirectOk(d: Disk, sb: Super, ino: INode)
    requires Geometry(sb, d) && 0 < sb.dataStart && InUse(View(d, sb), sb, ino.indirect)
    ensures BlockOk(d, ino.indirect)
  {}

  /** On a file system that the kernel sees as sound, inode `i` is live and `ino` is its record. */
  ghost predicate LiveInode(d: Disk, sb: Super, cache: Cache, live: set<nat>, i: nat, ino: INode) {
    && Geometry(sb, d) && Sound(InMemory(View(d, sb), cache), sb, live)
    && Live(Now(View(d, sb), cache, live), i) && InMemory(View(d, sb), cache).inodes[i] == ino
  }

  lemma LiveOk(d: Disk, sb: Super, cache: Cache, live: set<nat>, i: nat, ino: INode)
    requires LiveInode(d, sb, cache, live, i, ino)
    ensures Geometry(sb, d) && 0 < sb.dataStart && InodeOk(View(d, sb), sb, ino)
    ensures var fs := Now(View(d, sb), cache, live); FsOk(fs, sb) && Live(fs, i) && fs.inodes[i] == ino
    ensures live <= View(d, sb).inodeBits
  {
    assert InodeOk(Now(View(d, sb), cache, live), sb, ino);
    SameDataOk(View(d, sb), Now(View(d, sb), cache, live), sb, ino);
  }

  lemma LiveApart(fs: Records, sb: Super, i: nat, j: nat, k: nat)
    requires FsOk(fs, sb) && Live(fs, i) && Live(fs, j) && i != j && k < Count(fs.inodes[i])
    ensures HasIndirect(fs.inodes[j]) ==> BlockNo(fs, fs.inodes[i], k) != fs.inodes[j].indirect
    ensures forall m | 0 <= m < Count(fs.inodes[j]) :: BlockNo(fs, fs.inodes[i], k) != BlockNo(fs, fs.inodes[j], m)
  {
    var ino, other := fs.inodes[i], fs.inodes[j];
    assert Owned(fs, ino) !! Owned(fs, other);
    hide FsOk, BlockNo;
    assert BlockNo(fs, ino, k) in Owned(fs, ino);
    forall m | 0 <= m < Count(other) ensures BlockNo(fs, other, m) in Owned(fs, other) {}
  }

  /** Two live inodes share no block. */
  lemma LiveFilesApart(d: Disk, sb: Super, cache: Cache, live: set<nat>, i: nat, ino: INode, j: nat, other: INode)
    requires LiveInode(d, sb, cache, live, i, ino) && LiveInode(d, sb, cache, live, j, other) && i != j
    ensures Apart(d, ino, other)
  {
    hide LiveInode, View, FsOk, FileOk, InodeOk, MappedBlock, BlockNo, Geometry, Contents, Body, Live, Now;
    LiveOk(d, sb, cache, live, i, ino);
    LiveOk(d, sb, cache, live, j, other);
    var g, fs := View(d, sb), Now(View(d, sb), cache, live);
    SoundFile(d, sb, ino);
    SoundFile(d, sb, other);
    NowBlocks(g, cache, live, ino);
    NowBlocks(g, cache, live, other);
    forall k | 0 <= k < BlockCount(ino.sz)
      ensures BlockCount(other.sz) > DIRECT_BLOCKS ==> MappedBlock(d, ino, k) != other.indirect
      ensures forall m | 0 <= m < BlockCount(other.sz) :: MappedBlock(d, ino, k) != MappedBlock(d, other, m)
    {
      LiveApart(fs, sb, i, j, k);
      forall m | 0 <= m < Count(other) ensures MappedBlock(d, ino, k) != MappedBlock(d, other, m) {
        assert BlockNo(fs, other, m) == MappedBlock(d, other, m);
      }
    }
  }

  lemma NowBlocks(g: Records, cache: Cache, live: set<nat>, ino: INode)
    ensures forall j: nat :: BlockNo(Now(g, cache, live), ino, j) == BlockNo(g, ino, j)
    ensures Body(Now(g, cache, live), ino) == Body(g, ino)
  {
    forall j: nat ensures BlockNo(Now(g, cache, live), ino, j) == BlockNo(g, ino, j) {}
  }

  // ---- what a write leaves of the records ----

  /** `fs'` is `fs` but for the contents of the blocks of this inode. */
  ghost predicate Rewritten(fs: Records, fs': Records, ino: INode) {
    && fs' == fs.(data := fs'.data) && fs'.data.Keys == fs.data.Keys
    && (forall b | b in fs.data :: |fs'.data[b]| == |fs.data[b]|)
    && (forall b | b in fs.data && (forall j | 0 <= j < Count(ino) :: BlockNo(fs, ino, j) != b) :: fs'.data[b] == fs.data[b])
  }

  lemma OutsideKept(d: Disk, d': Disk, ino: INode, offset: nat, bytes: seq<Octet>, lo: nat, hi: nat, a: nat, n: nat)
    requires FileOk(d, ino) && Overwritten(d, d', ino, offset, bytes) && offset + |bytes| <= ino.sz && a + n <= Size(d)
    requires lo * BLOCK <= a && a + n <= hi * BLOCK && forall j | 0 <= j < BlockCount(ino.sz) :: !(lo <= MappedBlock(d, ino, j) < hi)
    ensures Size(d') == Size(d) && Bytes(d', a, n) == Bytes(d, a, n)
    ensures forall x | a <= x < a + n :: Peek(d', x) == Peek(d, x)
  {
    hide FileOk, MappedBlock;
    forall x | a <= x < a + n ensures Peek(d', x) == Peek(d, x) {
      assert lo <= x / BLOCK < hi;
      OtherBlocks(d, d', ino, offset, bytes, x / BLOCK, x);
    }
  }

  /** The blocks of the file are data blocks. */
  ghost predicate DataFile(d: Disk, sb: Super, ino: INode) {
    FileOk(d, ino) && forall j | 0 <= j < BlockCount(ino.sz) :: DataBlockNumber(sb, MappedBlock(d, ino, j))
  }

  lemma WriteBits(d: Disk, d': Disk, sb: Super, ino: INode, offset: nat, bytes: seq<Octet>, block: nat, n: nat)
    requires Geometry(sb, d) && DataFile(d, sb, ino) && Overwritten(d, d', ino, offset, bytes) && offset + |bytes| <= ino.sz
    requires block < sb.dataStart && n <= BITS_PER_BLOCK
    ensures block * BLOCK + BLOCK <= Size(d) && Size(d') == Size(d) && Bits(d', block, n) == Bits(d, block, n)
  {
    hide FileOk, MappedBlock, Overwritten;
    assert block * BLOCK + BLOCK <= sb.nblocks * BLOCK;
    OutsideKept(d, d', ino, offset, bytes, 0, sb.dataStart, block * BLOCK, BLOCK);
    forall k: nat | k < n ensures BitAt(d', block, k) == BitAt(d, block, k) {}
  }

  lemma WriteInodes(d: Disk, d': Disk, sb: Super, ino: INode, offset: nat, bytes: seq<Octet>)
    requires Geometry(sb, d) && DataFile(d, sb, ino) && Overwritten(d, d', ino, offset, bytes) && offset + |bytes| <= ino.sz
    ensures Geometry(sb, d') && Inodes(d', sb) == Inodes(d, sb)
  {
    assert |d'| == |d|;
    hide FileOk, MappedBlock, Overwritten;
    forall i | 0 <= i < sb.ninodes ensures InodeAt(d', sb, i) == InodeAt(d, sb, i) {
      var a := InodeAddress(sb, i);
      assert a + INODE_SIZE <= sb.tableStart * BLOCK + sb.tableBlocks * BLOCK <= sb.dataStart * BLOCK;
      OutsideKept(d, d', ino, offset, bytes, 0, sb.dataStart, a, INODE_SIZE);
    }
  }

  lemma WriteBlocks(d: Disk, d': Disk, sb: Super, ino: INode, offset: nat, bytes: seq<Octet>, b: nat)
    requires Geometry(sb, d) && DataFile(d, sb, ino) && Overwritten(d, d', ino, offset, bytes) && offset + |bytes| <= ino.sz
    requires Geometry(sb, d') && DataBlockNumber(sb, b) && forall j | 0 <= j < BlockCount(ino.sz) :: MappedBlock(d, ino, j) != b
    ensures Blocks(d', sb)[b] == Blocks(d, sb)[b]
  {
    hide FileOk, MappedBlock, Overwritten;
    assert b * BLOCK + BLOCK <= sb.nblocks * BLOCK;
    OutsideKept(d, d', ino, offset, bytes, b, b + 1, b * BLOCK, BLOCK);
  }

  /** A write changes blocks of the file, and no other record of the disk. */
  lemma WriteRecords(d: Disk, d': Disk, sb: Super, ino: INode, offset: nat, bytes: seq<Octet>)
    requires Geometry(sb, d) && 0 < sb.dataStart && InodeOk(View(d, sb), sb, ino)
    requires Overwritten(d, d', ino, offset, bytes) && offset + |bytes| <= ino.sz
    ensures Geometry(sb, d') && Rewritten(View(d, sb), View(d', sb), ino)
  {
    SoundFile(d, sb, ino);
    hide InodeOk, FileOk, MappedBlock, BlockNo, Overwritten;
    assert DataFile(d, sb, ino);
    WriteInodes(d, d', sb, ino, offset, bytes);
    WriteBits(d, d', sb, ino, offset, bytes, sb.inodeBitmap, sb.ninodes);
    WriteBits(d, d', sb, ino, offset, bytes, sb.dataBitmap, sb.nblocks - sb.dataStart);
    forall b: nat | DataBlockNumber(sb, b) && (forall j | 0 <= j < Count(ino) :: BlockNo(View(d, sb), ino, j) != b)
      ensures Blocks(d', sb)[b] == Blocks(d, sb)[b]
    {
      WriteBlocks(d, d', sb, ino, offset, bytes, b);
    }
  }

  // ---- what a write leaves of the file system ----

  lemma OtherKeeps(fs: Records, fs': Records, sb: Super, i: nat, j: nat)
    requires FsOk(fs, sb) && Live(fs, i) && Live(fs, j) && i != j && Rewritten(fs, fs', fs.inodes[i])
    ensures Keeps(fs, fs', fs.inodes[j])
  {
    var ino := fs.inodes[i];
    assert Owned(fs, ino) !! Owned(fs, fs.inodes[j]);
    forall b | b in Owned(fs, fs.inodes[j]) && b in fs.data ensures fs'.data[b] == fs.data[b] {
      forall k | 0 <= k < Count(ino) ensures BlockNo(fs, ino, k) != b { assert BlockNo(fs, ino, k) in Owned(fs, ino); }
    }
  }

  lemma WrittenInode(fs: Records, fs': Records, sb: Super, ino: INode)
    requires InodeOk(fs, sb, ino) && Rewritten(fs, fs', ino)
    ensures InodeOk(fs', sb, ino) && Owned(fs', ino) == Owned(fs, ino)
  {
    forall j | 0 <= j < Count(ino) ensures BlockNo(fs', ino, j) == BlockNo(fs, ino, j) {}
    assert (set j | 0 <= j < Count(ino) :: BlockNo(fs', ino, j)) == (set j | 0 <= j < Count(ino) :: BlockNo(fs, ino, j));
    forall j | 0 <= j < Count(ino) ensures InUse(fs', sb, BlockNo(fs', ino, j)) { assert InUse(fs, sb, BlockNo(fs, ino, j)); }
  }

  /** What a write to file `i` leaves of inode `j`. */
  lemma LiveAfterWrite(fs: Records, fs': Records, sb: Super, i: nat, j: nat)
    requires FsOk(fs, sb) && Live(fs, i) && fs.inodes[i].ty == FILE && Live(fs, j) && Rewritten(fs, fs', fs.inodes[i])
    ensures InodeOk(fs', sb, fs.inodes[j]) && Owned(fs', fs.inodes[j]) == Owned(fs, fs.inodes[j]) && SameFinds(fs, fs', j)
    ensures fs.inodes[j].ty == DIRECTORY ==> EntriesOk(fs', fs.inodes[j])
    ensures fs.inodes[j].ty == FILE ==> FileKept(fs, fs', j, {i})
  {
    assert InodeOk(fs, sb, fs.inodes[j]) && (fs.inodes[j].ty == DIRECTORY ==> EntriesOk(fs, fs.inodes[j]));
    if i == j {
      WrittenInode(fs, fs', sb, fs.inodes[i]);
    } else {
      OtherKeeps(fs, fs', sb, i, j);
      SameInode(fs, fs', sb, fs.inodes[j]);
      SameEntries(fs, fs', fs.inodes[j]);
      SameBody(fs, fs', fs.inodes[j]);
    }
  }

  lemma RewriteSurvives(fs: Records, fs': Records, sb: Super, i: nat)
    requires FsOk(fs, sb) && Live(fs, i) && fs.inodes[i].ty == FILE && Rewritten(fs, fs', fs.inodes[i])
    ensures Survives(fs, fs', sb, {i}) && SamePaths(fs, fs')
  {
    assert Shape(fs, sb) && Live(fs, ROOT) && fs.inodes[ROOT].ty == DIRECTORY;
    forall j: nat | Live(fs, j)
      ensures InodeOk(fs', sb, fs.inodes[j]) && Owned(fs', fs.inodes[j]) == Owned(fs, fs.inodes[j]) && SameFinds(fs, fs', j)
      ensures fs.inodes[j].ty == DIRECTORY ==> EntriesOk(fs', fs.inodes[j])
      ensures fs.inodes[j].ty == FILE ==> FileKept(fs, fs', j, {i})
    {
      LiveAfterWrite(fs, fs', sb, i, j);
    }
    hide InodeOk, EntriesOk, Owned, SameFinds, FileKept, Find, Resolve;
    PathsSame(fs, fs', sb);
  }

  lemma RewrittenNow(g: Records, g': Records, ino: INode, cache: Cache, live: set<nat>)
    requires Rewritten(g, g', ino)
    ensures g' == g.(data := g'.data) && Rewritten(Now(g, cache, live), Now(g', cache, live), ino)
  {
    forall j | 0 <= j < Count(ino) ensures BlockNo(Now(g, cache, live), ino, j) == BlockNo(g, ino, j) {}
    assert InMemory(g', cache).inodes == InMemory(g, cache).inodes;
  }

  function Replaced(s: seq<Octet>, offset: nat, bytes: seq<Octet>): seq<Octet> {
    if bytes == [] || offset + |bytes| > |s| then s else Spliced(s, offset, bytes)
  }

  /**
   Bytes have been written into file `i`, in the kernel's view: every inode record and both bitmaps are
   as before, the invariant holds, every path resolves or fails as before, every other file keeps its
   bytes, and the written one has the range replaced.
   */
  ghost predicate FileWritten(fs: Records, fs': Records, sb: Super, i: nat, offset: nat, bytes: seq<Octet>) {
    && i < |fs.inodes| && fs' == fs.(data := fs'.data)
    && Survives(fs, fs', sb, {i}) && SamePaths(fs, fs')
    && Body(fs', fs.inodes[i]) == Replaced(Body(fs, fs.inodes[i]), offset, bytes)
  }

  /** The same on disk, where nothing but data has changed. */
  ghost predicate WrittenOn(d: Disk, d': Disk, sb: Super, cache: Cache, live: set<nat>, i: nat, offset: nat, bytes: seq<Octet>) {
    && Geometry(sb, d) && Geometry(sb, d') && View(d', sb) == View(d, sb).(data := View(d', sb).data)
    && FileWritten(Now(View(d, sb), cache, live), Now(View(d', sb), cache, live), sb, i, offset, bytes)
  }

  /** That is what a write does to a live file. */
  lemma WriteKeepsFs(d: Disk, d': Disk, sb: Super, cache: Cache, live: set<nat>, i: nat, ino: INode, offset: nat, bytes: seq<Octet>)
    requires LiveInode(d, sb, cache, live, i, ino) && ino.ty == FILE && Overwritten(d, d', ino, offset, bytes) && offset + |bytes| <= ino.sz
    ensures WrittenOn(d, d', sb, cache, live, i, offset, bytes)
  {
    hide LiveInode, View, FsOk, Overwritten, FileOk, InodeOk, Survives, SamePaths, Rewritten, Live, Geometry, Contents, Body, Resolve, Now;
    LiveOk(d, sb, cache, live, i, ino);
    var g := View(d, sb);
    WriteRecords(d, d', sb, ino, offset, bytes);
    var g' := View(d', sb);
    var fs, fs' := Now(g, cache, live), Now(g', cache, live);
    WrittenInode(g, g', sb, ino);
    SoundFile(d, sb, ino);
    SoundFile(d', sb, ino);
    WriteReplaces(d, d', ino, offset, bytes);
    NowBlocks(g, cache, live, ino);
    NowBlocks(g', cache, live, ino);
    assert bytes == [] ==> Spliced(Contents(d, ino), offset, bytes) == Contents(d, ino);
    RewrittenNow(g, g', ino, cache, live);
    RewriteSurvives(fs, fs', sb, i);
    RewrittenData(fs, fs', ino);
  }

  lemma RewrittenData(fs: Records, fs': Records, ino: INode)
    requires Rewritten(fs, fs', ino)
    ensures fs' == fs.(data := fs'.data)
  {}

  /** `write` on a live file, on a device that may fail: some first part of the bytes is written, and nothing else changes. */
  method WriteLive(dev: BlockDevice, sb: Super, ghost cache: Cache, ghost live: set<nat>, ghost i: nat, ino: INode, offset: nat, data: seq<Octet>)
    returns (r: Result<nat>, ghost written: seq<Octet>)
    requires LiveInode(dev.disk, sb, cache, live, i, ino) && ino.ty == FILE
    modifies dev`disk
    ensures written <= data && (written != [] ==> offset + |written| <= ino.sz) && (r.Ok? ==> r.value == |written|)
    ensures dev.reliable ==> r.Ok? && (written == data || offset + |written| >= ino.sz)
    ensures WrittenOn(old(dev.disk), dev.disk, sb, cache, live, i, offset, written)
  {
    hide LiveInode, View, Geometry, FsOk, Live, FileOk, InodeOk, Overwritten, WrittenOn, Now;
    ghost var d := dev.disk;
    LiveOk(d, sb, cache, live, i, ino);
    SoundFile(d, sb, ino);
    r := Write(dev, ino, offset, data);
    ghost var n := WrittenPrefix(d, dev.disk, ino, offset, data, r);
    written := data[..n];
    if n == 0 {
      NoneWritten(d, dev.disk, ino, offset, written);
      WriteKeepsFs(d, dev.disk, sb, cache, live, i, ino, 0, []);
      NoneReplaced(d, dev.disk, sb, cache, live, i, offset);
    } else {
      WriteKeepsFs(d, dev.disk, sb, cache, live, i, ino, offset, written);
    }
  }

  lemma NoneReplaced(d: Disk, d': Disk, sb: Super, cache: Cache, live: set<nat>, i: nat, offset: nat)
    requires WrittenOn(d, d', sb, cache, live, i, 0, [])
    ensures WrittenOn(d, d', sb, cache, live, i, offset, [])
  {}

  lemma NoneWritten(d: Disk, d': Disk, ino: INode, offset: nat, bytes: seq<Octet>)
    requires Overwritten(d, d', ino, offset, bytes) && bytes == []
    ensures Overwritten(d, d', ino, 0, [])
  {
    forall a: nat ensures !Covered(d, ino, 0, 0, a) && !Covered(d, ino, offset, 0, a) {}
  }

  lemma WrittenPrefix(d: Disk, d': Disk, ino: INode, offset: nat, data: seq<Octet>, r: Result<nat>) returns (n: nat)
    requires r.Ok? ==> r.value <= Within(ino, offset, |data|) && Overwritten(d, d', ino, offset, data[..r.value])
    requires r.Err? ==> PartlyWritten(d, d', ino, offset, data[..Within(ino, offset, |data|)])
    ensures n <= Within(ino, offset, |data|) && Overwritten(d, d', ino, offset, data[..n]) && (r.Ok? ==> r.value == n)
  {
    hide Overwritten;
    if r.Ok? {
      n := r.value;
    } else {
      var want := Within(ino, offset, |data|);
      var m :| 0 <= m <= want && Overwritten(d, d', ino, offset, data[..want][..m]);
      assert data[..want][..m] == data[..m];
      n := m;
    }
  }
}
