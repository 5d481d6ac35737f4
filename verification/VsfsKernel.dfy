/**
 The kernel's file-system operations on the device: scanning directories, taking and returning
 bitmap bits, reading and rewriting records, mounting, and opening a path.  Each is proved to do to
 the record view what it promises, on success and on every failure of the device.
 */
module VsfsKernel {
  import opened Basics
  import opened VsfsDisk
  import opened VsfsFile
  import opened VsfsRecords
  import opened VsfsTree
  import opened VsfsKept

  const BITS_PER_SECTOR: nat := 4096

  // ---- bitmaps ----

  /** Bit `k`, the first clear one from `start` on, has been set. */
  ghost predicate BitTaken(d: Disk, d': Disk, block: nat, start: nat, k: nat)
    requires block * BLOCK + BLOCK <= Size(d)
  {
    && start <= k < BITS_PER_BLOCK && !BitAt(d, block, k) && (forall j | start <= j < k :: BitAt(d, block, j))
    && Patched(d, block * BLOCK + k / 8, [SetBit(Peek(d, block * BLOCK + k / 8), k % 8, true)], d')
  }

  /** Bit `k` in its sector: which byte of which sector. */
  lemma BitPlace(d: Disk, block: nat, so: nat, local: nat)
    requires block * BLOCK + BLOCK <= Size(d) && so < SECTORS_PER_BLOCK && local < BITS_PER_SECTOR
    ensures block * SECTORS_PER_BLOCK + so < |d|
    ensures var k := so * BITS_PER_SECTOR + local;
            && k < BITS_PER_BLOCK && k % 8 == local % 8 && local / 8 < SECTOR
            && SECTOR * (block * SECTORS_PER_BLOCK + so) + local / 8 == block * BLOCK + k / 8
            && Peek(d, block * BLOCK + k / 8) == d[block * SECTORS_PER_BLOCK + so][local / 8]
  {}

  /** `allocate_bitmap_bit`: takes the first clear bit in a range. */
  method AllocateBit(dev: BlockDevice, block: nat, start: nat, end: nat) returns (r: Result<nat>)
    requires block * BLOCK + BLOCK <= Size(dev.disk)
    modifies dev`disk
    ensures r.Ok? ==> r.value < end && BitTaken(old(dev.disk), dev.disk, block, start, r.value)
    ensures r.Err? ==> dev.disk == old(dev.disk) || exists k: nat :: k < end && BitTaken(old(dev.disk), dev.disk, block, start, k)
    ensures r.Err? && dev.reliable ==> dev.disk == old(dev.disk) && (end > BITS_PER_BLOCK || forall k | start <= k < end :: BitAt(dev.disk, block, k))
  {
    hide BitTaken, Patched, BitAt, BitOf, SetBit;
    var first, last := start / BITS_PER_SECTOR, (end + BITS_PER_SECTOR - 1) / BITS_PER_SECTOR;
    if last > SECTORS_PER_BLOCK {
      return Err(Fs);
    }
    ghost var d := dev.disk;
    var so := first;
    while so < last
      invariant first <= so && dev.disk == d
      invariant forall k | start <= k < so * BITS_PER_SECTOR && k < end :: BitAt(d, block, k)
    {
      BitPlace(d, block, so, 0);
      var buf := dev.ReadSector(block * SECTORS_PER_BLOCK + so);
      if buf.Err? {
        return Err(buf.error);
      }
      var base := so * BITS_PER_SECTOR;
      var local := if start <= base then 0 else start - base;
      var stop := if end - base <= BITS_PER_SECTOR then end - base else BITS_PER_SECTOR;
      while local < stop
        invariant dev.disk == d && start <= base + local && local <= BITS_PER_SECTOR
        invariant forall k | start <= k < base + local && k < end :: BitAt(d, block, k)
      {
        BitInSector(d, block, so, local);
        if !BitOf(buf.value[local / 8], local % 8) {
          var byte := SetBit(buf.value[local / 8], local % 8, true);
          TakeHere(d, block, start, so, local);
          var w := dev.WriteSector(block * SECTORS_PER_BLOCK + so, Spliced(buf.value, local / 8, [byte]));
          if w.Err? {
            return Err(w.error);
          }
          return Ok(base + local);
        }
        local := local + 1;
      }
      so := so + 1;
    }
    r := Err(Fs);
  }

  lemma BitHere(d: Disk, block: nat, k: nat)
    requires k < BITS_PER_BLOCK && block * BLOCK + BLOCK <= Size(d)
    ensures BitAt(d, block, k) == BitOf(Peek(d, block * BLOCK + k / 8), k % 8)
  {}

  lemma BitInSector(d: Disk, block: nat, so: nat, local: nat)
    requires block * BLOCK + BLOCK <= Size(d) && so < SECTORS_PER_BLOCK && local < BITS_PER_SECTOR
    ensures block * SECTORS_PER_BLOCK + so < |d| && local / 8 < SECTOR && so * BITS_PER_SECTOR + local < BITS_PER_BLOCK
    ensures BitAt(d, block, so * BITS_PER_SECTOR + local) == BitOf(d[block * SECTORS_PER_BLOCK + so][local / 8], local % 8)
  {
    hide BitOf;
    BitPlace(d, block, so, local);
    BitHere(d, block, so * BITS_PER_SECTOR + local);
  }

  /** Setting the bit in its sector takes it. */
  lemma TakeHere(d: Disk, block: nat, start: nat, so: nat, local: nat)
    requires block * BLOCK + BLOCK <= Size(d) && so < SECTORS_PER_BLOCK && local < BITS_PER_SECTOR && start <= so * BITS_PER_SECTOR + local
    requires so * BITS_PER_SECTOR + local < BITS_PER_BLOCK && !BitAt(d, block, so * BITS_PER_SECTOR + local)
    requires forall k | start <= k < so * BITS_PER_SECTOR + local :: BitAt(d, block, k)
    ensures var i := block * SECTORS_PER_BLOCK + so;
            && i < |d| && local / 8 < SECTOR
            && BitTaken(d, d[i := Spliced(d[i], local / 8, [SetBit(d[i][local / 8], local % 8, true)])], block, start, so * BITS_PER_SECTOR + local)
  {
    hide BitTaken, Patched, BitAt, BitOf, SetBit;
    BitPlace(d, block, so, local);
    var i := block * SECTORS_PER_BLOCK + so;
    var byte := SetBit(d[i][local / 8], local % 8, true);
    SectorPatch(d, i, local / 8, [byte]);
    TakeBit(d, d[i := Spliced(d[i], local / 8, [byte])], block, start, so * BITS_PER_SECTOR + local);
  }

  lemma TakeBit(d: Disk, d': Disk, block: nat, start: nat, k: nat)
    requires k < BITS_PER_BLOCK && block * BLOCK + BLOCK <= Size(d) && start <= k
    requires !BitAt(d, block, k) && forall j | start <= j < k :: BitAt(d, block, j)
    requires Patched(d, block * BLOCK + k / 8, [SetBit(Peek(d, block * BLOCK + k / 8), k % 8, true)], d')
    ensures BitTaken(d, d', block, start, k)
  {}

  ghost predicate BitReturned(d: Disk, d': Disk, block: nat, k: nat)
    requires k < BITS_PER_BLOCK && block * BLOCK + BLOCK <= Size(d)
  {
    Patched(d, block * BLOCK + k / 8, [SetBit(Peek(d, block * BLOCK + k / 8), k % 8, false)], d')
  }

  /** `free_bitmap_bit`: clears a bit that is set; a bit beyond the bitmap block is refused. */
  method FreeBit(dev: BlockDevice, block: nat, k: nat) returns (r: Result<()>)
    requires block * BLOCK + BLOCK <= Size(dev.disk)
    modifies dev`disk
    ensures k >= BITS_PER_BLOCK ==> r == Err(Fs) && dev.disk == old(dev.disk)
    ensures r.Ok? ==> k < BITS_PER_BLOCK && BitAt(old(dev.disk), block, k) && BitReturned(old(dev.disk), dev.disk, block, k)
    ensures r.Err? && k < BITS_PER_BLOCK ==> dev.disk == old(dev.disk) || BitReturned(old(dev.disk), dev.disk, block, k)
    ensures dev.reliable && k < BITS_PER_BLOCK ==> (r.Ok? <==> BitAt(old(dev.disk), block, k))
  {
    hide Patched;
    var so, local := k / BITS_PER_SECTOR, k % BITS_PER_SECTOR;
    if so >= SECTORS_PER_BLOCK {
      return Err(Fs);
    }
    ghost var d := dev.disk;
    BitPlace(d, block, so, local);
    var i := block * SECTORS_PER_BLOCK + so;
    var buf := dev.ReadSector(i);
    if buf.Err? {
      return Err(buf.error);
    }
    if !BitOf(buf.value[local / 8], local % 8) {
      return Err(Fs);
    }
    var byte := SetBit(buf.value[local / 8], local % 8, false);
    SectorPatch(d, i, local / 8, [byte]);
    r := dev.WriteSector(i, Spliced(buf.value, local / 8, [byte]));
  }

  // ---- records ----

  /** Inode records never straddle sectors. */
  lemma InodePlace(d: Disk, sb: Super, i: nat)
    requires Geometry(sb, d) && i < sb.ninodes
    ensures var a := InodeAddress(sb, i);
            a % SECTOR + INODE_SIZE <= SECTOR && a / SECTOR < |d| && SECTOR * (a / SECTOR) + a % SECTOR == a
    ensures |View(d, sb).inodes| == sb.ninodes
  {
    RecordFits(64 * sb.tableStart + i);
    assert InodeAddress(sb, i) + INODE_SIZE <= Size(d);
  }

  lemma RecordFits(x: nat)
    ensures x * INODE_SIZE % SECTOR + INODE_SIZE <= SECTOR
  {
    var q, r := x / 8, x % 8;
    assert x * INODE_SIZE == SECTOR * q + INODE_SIZE * r;
  }

  /** `write_inode_to_block`. */
  method WriteInode(dev: BlockDevice, sb: Super, i: nat, ino: INode) returns (r: Result<()>)
    requires Geometry(sb, dev.disk) && i < sb.ninodes
    modifies dev`disk
    ensures Geometry(sb, dev.disk)
    ensures r.Ok? ==> View(dev.disk, sb) == InodeSet(old(View(dev.disk, sb)), i, ino)
    ensures r.Err? ==> View(dev.disk, sb) == old(View(dev.disk, sb)) || View(dev.disk, sb) == InodeSet(old(View(dev.disk, sb)), i, ino)
    ensures dev.reliable ==> r.Ok?
  {
    hide View, Patched, Geometry;
    InodePlace(dev.disk, sb, i);
    var a := sb.tableStart * BLOCK + i * INODE_SIZE;
    ghost var d := dev.disk;
    r := WriteChunk(dev, a / SECTOR, a % SECTOR, InodeBytes(ino));
    if dev.disk != d || r.Ok? {
      InodeWritten(d, dev.disk, sb, i, ino);
    }
  }

  ghost function InodeSet(fs: Records, i: nat, ino: INode): Records
    requires i < |fs.inodes|
  {
    fs.(inodes := fs.inodes[i := ino])
  }

  ghost function DataSet(fs: Records, b: nat, off: nat, bytes: seq<Octet>): Records
    requires b in fs.data && off + |bytes| <= |fs.data[b]|
  {
    fs.(data := fs.data[b := Spliced(fs.data[b], off, bytes)])
  }

  /** `write_dirent`. */
  method WriteDirEnt(dev: BlockDevice, sb: Super, b: nat, off: nat, e: DirEnt) returns (r: Result<()>)
    requires Geometry(sb, dev.disk) && DataBlockNumber(sb, b) && off + DIRENT_SIZE <= BLOCK && off % DIRENT_SIZE == 0
    modifies dev`disk
    ensures Geometry(sb, dev.disk)
    ensures b in old(View(dev.disk, sb)).data && |old(View(dev.disk, sb)).data[b]| == BLOCK
    ensures r.Ok? ==> View(dev.disk, sb) == DataSet(old(View(dev.disk, sb)), b, off, DirEntBytes(e))
    ensures r.Err? ==> View(dev.disk, sb) == old(View(dev.disk, sb)) || View(dev.disk, sb) == DataSet(old(View(dev.disk, sb)), b, off, DirEntBytes(e))
    ensures dev.reliable ==> r.Ok?
  {
    hide Patched;
    var sector, so := b * SECTORS_PER_BLOCK + off / SECTOR, off % SECTOR;
    assert so + DIRENT_SIZE <= SECTOR && SECTOR * sector + so == b * BLOCK + off;
    ghost var d := dev.disk;
    r := WriteChunk(dev, sector, so, DirEntBytes(e));
    if dev.disk != d || r.Ok? {
      DataWritten(d, dev.disk, sb, b, off, DirEntBytes(e));
    }
  }

  // ---- taking and returning inodes and blocks ----

  /** `k` is the first number from `lo` on that is not in `bits`. */
  ghost predicate FirstClear(bits: set<nat>, lo: nat, k: nat) {
    lo <= k && k !in bits && forall j: nat | lo <= j < k :: j in bits
  }

  ghost predicate InodeTaken(fs: Records, fs': Records, sb: Super, i: nat) {
    i < sb.ninodes && FirstClear(fs.inodeBits, 1, i) && fs' == fs.(inodeBits := fs.inodeBits + {i})
  }

  ghost predicate DataTaken(fs: Records, fs': Records, sb: Super, b: nat) {
    && DataBlockNumber(sb, b) && FirstClear(fs.dataBits, 0, b - sb.dataStart)
    && fs' == fs.(dataBits := fs.dataBits + {b - sb.dataStart})
  }

  ghost predicate NoInodeLeft(fs: Records, sb: Super) {
    forall i: nat | 1 <= i < sb.ninodes :: i in fs.inodeBits
  }

  ghost predicate NoBlockLeft(fs: Records, sb: Super) {
    forall k: nat | k < sb.nblocks - sb.dataStart :: k in fs.dataBits
  }

  /** The bits on disk are the bits of the view. */
  lemma BitsSeen(d: Disk, sb: Super)
    requires Geometry(sb, d)
    ensures forall i: nat | i < sb.ninodes :: i in View(d, sb).inodeBits <==> BitAt(d, sb.inodeBitmap, i)
    ensures forall k: nat | k < sb.nblocks - sb.dataStart :: k in View(d, sb).dataBits <==> BitAt(d, sb.dataBitmap, k)
  {}

  lemma TakenInode(d: Disk, d': Disk, sb: Super, k: nat)
    requires Geometry(sb, d) && k < sb.ninodes && BitTaken(d, d', sb.inodeBitmap, 1, k)
    ensures Geometry(sb, d') && InodeTaken(View(d, sb), View(d', sb), sb, k)
  {
    InodeBitWritten(d, d', sb, k, true);
  }

  lemma TakenData(d: Disk, d': Disk, sb: Super, k: nat)
    requires Geometry(sb, d) && k < sb.nblocks - sb.dataStart && BitTaken(d, d', sb.dataBitmap, 0, k)
    ensures Geometry(sb, d') && DataTaken(View(d, sb), View(d', sb), sb, sb.dataStart + k)
  {
    DataBitWritten(d, d', sb, k, true);
  }

  /** `allocate_inode`: the first free inode number from 1 on. */
  method AllocateInode(dev: BlockDevice, sb: Super) returns (r: Result<nat>)
    requires Geometry(sb, dev.disk)
    modifies dev`disk
    ensures Geometry(sb, dev.disk)
    ensures r.Ok? ==> InodeTaken(old(View(dev.disk, sb)), View(dev.disk, sb), sb, r.value)
    ensures r.Err? ==> View(dev.disk, sb) == old(View(dev.disk, sb)) || exists i: nat :: InodeTaken(old(View(dev.disk, sb)), View(dev.disk, sb), sb, i)
    ensures r.Err? && dev.reliable ==> NoInodeLeft(old(View(dev.disk, sb)), sb) && dev.disk == old(dev.disk)
  {
    hide View, BitTaken, InodeTaken, BitAt;
    ghost var d := dev.disk;
    BitsSeen(d, sb);
    r := AllocateBit(dev, sb.inodeBitmap, 1, sb.ninodes);
    if r.Ok? {
      TakenInode(d, dev.disk, sb, r.value);
    } else if dev.disk != d {
      ghost var k: nat :| k < sb.ninodes && BitTaken(d, dev.disk, sb.inodeBitmap, 1, k);
      TakenInode(d, dev.disk, sb, k);
    }
  }

  /** `allocate_data_block`: the first free data block. */
  method AllocateDataBlock(dev: BlockDevice, sb: Super) returns (r: Result<nat>)
    requires Geometry(sb, dev.disk)
    modifies dev`disk
    ensures Geometry(sb, dev.disk)
    ensures r.Ok? ==> DataTaken(old(View(dev.disk, sb)), View(dev.disk, sb), sb, r.value)
    ensures r.Err? ==> View(dev.disk, sb) == old(View(dev.disk, sb)) || exists b: nat :: DataTaken(old(View(dev.disk, sb)), View(dev.disk, sb), sb, b)
    ensures r.Err? && dev.reliable ==> NoBlockLeft(old(View(dev.disk, sb)), sb) && dev.disk == old(dev.disk)
  {
    hide View, BitTaken, DataTaken, BitAt;
    ghost var d := dev.disk;
    BitsSeen(d, sb);
    var bit := AllocateBit(dev, sb.dataBitmap, 0, sb.nblocks - sb.dataStart);
    if bit.Ok? {
      TakenData(d, dev.disk, sb, bit.value);
      r := Ok(sb.dataStart + bit.value);
    } else {
      if dev.disk != d {
        ghost var k: nat :| k < sb.nblocks - sb.dataStart && BitTaken(d, dev.disk, sb.dataBitmap, 0, k);
        TakenData(d, dev.disk, sb, k);
      }
      r := Err(bit.error);
    }
  }

  /** `free_inode`. */
  method FreeInode(dev: BlockDevice, sb: Super, i: nat) returns (r: Result<()>)
    requires Geometry(sb, dev.disk) && i < sb.ninodes
    modifies dev`disk
    ensures Geometry(sb, dev.disk)
    ensures var fs := old(View(dev.disk, sb));
            var gone := fs.(inodeBits := fs.inodeBits - {i});
            (r.Ok? && View(dev.disk, sb) == gone) || (r.Err? && (View(dev.disk, sb) == fs || View(dev.disk, sb) == gone))
    ensures dev.reliable ==> (r.Ok? <==> i in old(View(dev.disk, sb)).inodeBits)
  {
    hide View, Patched, BitAt;
    ghost var d := dev.disk;
    BitsSeen(d, sb);
    r := FreeBit(dev, sb.inodeBitmap, i);
    if r.Ok? || dev.disk != d {
      InodeBitWritten(d, dev.disk, sb, i, false);
    }
  }

  /** `free_data_block`. */
  method FreeDataBlock(dev: BlockDevice, sb: Super, b: nat) returns (r: Result<()>)
    requires Geometry(sb, dev.disk) && DataBlockNumber(sb, b)
    modifies dev`disk
    ensures Geometry(sb, dev.disk)
    ensures var fs := old(View(dev.disk, sb));
            var gone := fs.(dataBits := fs.dataBits - {b - sb.dataStart});
            (r.Ok? && View(dev.disk, sb) == gone) || (r.Err? && (View(dev.disk, sb) == fs || View(dev.disk, sb) == gone))
    ensures dev.reliable ==> (r.Ok? <==> b - sb.dataStart in old(View(dev.disk, sb)).dataBits)
  {
    hide View, Patched, BitAt;
    ghost var d := dev.disk;
    BitsSeen(d, sb);
    r := FreeBit(dev, sb.dataBitmap, b - sb.dataStart);
    if r.Ok? || dev.disk != d {
      DataBitWritten(d, dev.disk, sb, b - sb.dataStart, false);
    }
  }

  // ---- scanning a directory ----

  /** The blocks of a directory are data blocks. */
  ghost predicate Listable(fs: Records, sb: Super, ino: INode) {
    && (forall j | 0 <= j < Count(ino) :: BlockNo(fs, ino, j) in fs.data)
    && (HasIndirect(ino) ==> ino.indirect as nat in fs.data)
  }

  lemma SameBlockNumber(d: Disk, sb: Super, ino: INode, j: nat)
    requires Geometry(sb, d) && (j >= DIRECT_BLOCKS ==> ino.indirect as nat in View(d, sb).data)
    ensures MappedBlock(d, ino, j) == BlockNo(View(d, sb), ino, j)
  {}

  /** Directory entries never straddle sectors. */
  lemma DirEntPlace(b: nat, i: nat)
    ensures var at := i * DIRENT_SIZE % BLOCK;
            && at + DIRENT_SIZE <= BLOCK && at % SECTOR + DIRENT_SIZE <= SECTOR && at / SECTOR < SECTORS_PER_BLOCK
            && SECTOR * (b * SECTORS_PER_BLOCK + at / SECTOR) + at % SECTOR == b * BLOCK + at
  {}

  lemma SameBytes(d: Disk, sector: nat, so: nat, n: nat)
    requires sector < |d| && so + n <= SECTOR
    ensures d[sector][so..so + n] == Bytes(d, SECTOR * sector + so, n)
  {}

  lemma ViewBlock(d: Disk, sb: Super, b: nat)
    requires Geometry(sb, d) && DataBlockNumber(sb, b)
    ensures b * BLOCK + BLOCK <= Size(d) && b * SECTORS_PER_BLOCK + SECTORS_PER_BLOCK <= |d|
    ensures b in View(d, sb).data && View(d, sb).data[b] == Bytes(d, b * BLOCK, BLOCK)
  {}

  lemma SameDirEnt(d: Disk, sb: Super, b: nat, i: nat)
    requires Geometry(sb, d) && DataBlockNumber(sb, b)
    ensures var at := i * DIRENT_SIZE % BLOCK;
            var sector := b * SECTORS_PER_BLOCK + at / SECTOR;
            && sector < |d| && at % SECTOR + DIRENT_SIZE <= SECTOR
            && b in View(d, sb).data && |View(d, sb).data[b]| == BLOCK
            && DirEntOf(d[sector][at % SECTOR..at % SECTOR + DIRENT_SIZE]) == EntryIn(View(d, sb).data[b], i)
  {
    var at := i * DIRENT_SIZE % BLOCK;
    var sector := b * SECTORS_PER_BLOCK + at / SECTOR;
    hide View, Geometry, DirEntOf, Bytes;
    DirEntPlace(b, i);
    ViewBlock(d, sb, b);
    SameRun(d, sector, at % SECTOR, b * BLOCK, at, DIRENT_SIZE);
  }

  /** A run of bytes within one sector is a run within its block. */
  lemma SameRun(d: Disk, sector: nat, so: nat, a: nat, at: nat, n: nat)
    requires sector < |d| && so + n <= SECTOR && SECTOR * sector + so == a + at && a + BLOCK <= Size(d) && at + n <= BLOCK
    ensures d[sector][so..so + n] == Bytes(d, a, BLOCK)[at..at + n]
  {}

  /** Reads entry `i` of a directory. */
  method ReadEntry(dev: BlockDevice, sb: Super, ino: INode, i: nat) returns (r: Result<DirEnt>)
    requires Geometry(sb, dev.disk) && Listable(View(dev.disk, sb), sb, ino) && i < EntryCount(ino)
    ensures r.Ok? ==> EntryAt(View(dev.disk, sb), ino, i) == Some(r.value)
    ensures r.Err? ==> r.error == DeviceIO && !dev.reliable
  {
    hide View, BlockNo, MappedBlock, EntryIn, Geometry;
    var at := i * DIRENT_SIZE;
    EntryInside(ino, i);
    ScanPlace(dev.disk, sb, ino, i);
    SameBlockNumber(dev.disk, sb, ino, at / BLOCK);
    var b := DataBlock(dev, ino, at / BLOCK);
    if b.Err? {
      return Err(b.error);
    }
    SameDirEnt(dev.disk, sb, b.value, i);
    var buf := dev.ReadSector(b.value * SECTORS_PER_BLOCK + at % BLOCK / SECTOR);
    if buf.Err? {
      return Err(buf.error);
    }
    r := Ok(DirEntOf(buf.value[at % BLOCK % SECTOR..at % BLOCK % SECTOR + DIRENT_SIZE]));
  }

  /** `lookup_path`: the scan of a directory agrees with the reference search. */
  method FindEntry(dev: BlockDevice, sb: Super, ino: INode, name: Name) returns (r: Result<U32>)
    requires Geometry(sb, dev.disk) && Listable(View(dev.disk, sb), sb, ino)
    ensures r == Find(View(dev.disk, sb), ino, name) || r == Err(DeviceIO)
    ensures dev.reliable ==> r == Find(View(dev.disk, sb), ino, name)
  {
    hide View, EntryAt, Geometry, Listable;
    if ino.ty != DIRECTORY || ino.sz % DIRENT_SIZE != 0 {
      return Err(Fs);
    }
    ghost var fs := View(dev.disk, sb);
    var i := 0;
    while i < ino.sz / DIRENT_SIZE
      invariant 0 <= i <= EntryCount(ino) && FindFrom(fs, ino, name, 0) == FindFrom(fs, ino, name, i)
    {
      var e := ReadEntry(dev, sb, ino, i);
      if e.Err? {
        return Err(e.error);
      }
      if e.value.nameLen > NAME_MAX {
        return Err(Fs);
      }
      if NameOf(e.value) == name {
        return Ok(e.value.inum);
      }
      i := i + 1;
    }
    r := Err(NotFound);
  }

  /** The block of entry `i` of a listable directory. */
  lemma ScanPlace(d: Disk, sb: Super, ino: INode, i: nat)
    requires Geometry(sb, d) && Listable(View(d, sb), sb, ino) && i * DIRENT_SIZE / BLOCK < Count(ino)
    ensures var b := BlockNo(View(d, sb), ino, i * DIRENT_SIZE / BLOCK);
            0 < b && DataBlockNumber(sb, b)
    ensures i * DIRENT_SIZE / BLOCK >= DIRECT_BLOCKS ==> ino.indirect as nat in View(d, sb).data
  {}

  // ---- opening a path ----

  const SLASH: Octet := 47

  /** `path.split('/')` without the empty pieces; `cur` is the piece being read. */
  function SplitFrom(s: seq<Octet>, cur: Name): seq<Name>
    decreases |s|
  {
    var piece := if cur == [] then [] else [cur];
    if s == [] then piece
    else if s[0] == SLASH then piece + SplitFrom(s[1..], [])
    else SplitFrom(s[1..], cur + [s[0]])
  }

  function Components(path: seq<Octet>): seq<Name> {
    SplitFrom(path, [])
  }

  /** No component is empty or contains a slash. */
  lemma {:induction false} ComponentsPlain(s: seq<Octet>, cur: Name)
    requires SLASH !in cur
    ensures forall k | 0 <= k < |SplitFrom(s, cur)| :: SplitFrom(s, cur)[k] != [] && SLASH !in SplitFrom(s, cur)[k]
    decreases |s|
  {
    if s != [] {
      if s[0] == SLASH {
        ComponentsPlain(s[1..], []);
      } else {
        ComponentsPlain(s[1..], cur + [s[0]]);
      }
    }
  }

  lemma {:induction false} SplitAtSlash(p: seq<Octet>, q: seq<Octet>, cur: Name)
    ensures SplitFrom(p + [SLASH] + q, cur) == SplitFrom(p, cur) + SplitFrom(q, [])
    decreases |p|
  {
    var s := p + [SLASH] + q;
    if p == [] {
      assert s[0] == SLASH && s[1..] == q;
    } else {
      assert s[0] == p[0] && s[1..] == p[1..] + [SLASH] + q;
      SplitAtSlash(p[1..], q, if p[0] == SLASH then [] else cur + [p[0]]);
    }
  }

  lemma {:induction false} SplitNowhere(n: seq<Octet>, cur: Name)
    requires SLASH !in n
    ensures SplitFrom(n, cur) == if cur + n == [] then [] else [cur + n]
    decreases |n|
  {
    if n == [] {
      assert cur + n == cur;
    } else {
      assert cur + [n[0]] + n[1..] == cur + n;
      SplitNowhere(n[1..], cur + [n[0]]);
    }
  }

  /** A path is split at every slash and nowhere else, and empty pieces are dropped. */
  lemma ComponentsSplit(p: seq<Octet>, q: seq<Octet>)
    ensures Components(p + [SLASH] + q) == Components(p) + Components(q)
    ensures SLASH !in p ==> Components(p) == if p == [] then [] else [p]
  {
    SplitAtSlash(p, q, []);
    if SLASH !in p {
      SplitNowhere(p, []);
      assert [] + p == p;
    }
  }

  /** An absolute path: a slash before every name. */
  function Joined(names: seq<Name>): seq<Octet> {
    if names == [] then [] else [SLASH] + names[0] + Joined(names[1..])
  }

  ghost predicate Plain(names: seq<Name>) {
    forall k | 0 <= k < |names| :: names[k] != [] && SLASH !in names[k]
  }

  /** The components of names joined by slashes are those names. */
  lemma {:induction false} ComponentsJoined(names: seq<Name>)
    requires Plain(names)
    ensures Components(Joined(names)) == names
    decreases |names|
  {
    if names != [] {
      var n, rest := names[0], Joined(names[1..]);
      assert [SLASH] + n + rest == [] + [SLASH] + (n + rest);
      ComponentsSplit([], n + rest);
      ComponentsJoined(names[1..]);
      if names[1..] == [] {
        assert n + rest == n;
        ComponentsSplit(n, []);
      } else {
        assert n + rest == n + [SLASH] + rest[1..] && rest == [] + [SLASH] + rest[1..];
        ComponentsSplit(n, rest[1..]);
        ComponentsSplit([], rest[1..]);
      }
    }
  }

  lemma SameRecord(d: Disk, sb: Super, i: nat)
    requires Geometry(sb, d) && i < sb.ninodes
    ensures var a := InodeAddress(sb, i);
            && a / SECTOR < |d| && a % SECTOR + INODE_SIZE <= SECTOR && i < |View(d, sb).inodes|
            && InodeOf(d[a / SECTOR][a % SECTOR..a % SECTOR + INODE_SIZE]) == View(d, sb).inodes[i]
  {
    InodePlace(d, sb, i);
    var a := InodeAddress(sb, i);
    assert View(d, sb).inodes[i] == InodeOf(Bytes(d, a, INODE_SIZE));
    hide Geometry, InodeOf, View, InodeAddress;
    SameBytes(d, a / SECTOR, a % SECTOR, INODE_SIZE);
  }

  /** `read_inode_from_block`: the record at its place in the table, if the disk is that long. */
  method ReadInode(dev: BlockDevice, sb: Super, i: nat) returns (r: Result<INode>)
    ensures r.Err? ==> r.error == DeviceIO && (dev.reliable ==> InodeAddress(sb, i) / SECTOR >= |dev.disk|)
    ensures Geometry(sb, dev.disk) && i < sb.ninodes ==> RecordRead(dev.disk, sb, i, r) && (dev.reliable ==> r.Ok?)
  {
    hide Geometry, InodeOf, View;
    var a := sb.tableStart * BLOCK + i * INODE_SIZE;
    RecordFits(64 * sb.tableStart + i);
    if Geometry(sb, dev.disk) && i < sb.ninodes { SameRecord(dev.disk, sb, i); }
    var buf := dev.ReadSector(a / SECTOR);
    if buf.Err? {
      return Err(buf.error);
    }
    r := Ok(InodeOf(buf.value[a % SECTOR..a % SECTOR + INODE_SIZE]));
  }

  /** What was read, if anything, is the record of inode `i`. */
  ghost predicate RecordRead(d: Disk, sb: Super, i: nat, r: Result<INode>)
    requires Geometry(sb, d)
  {
    r.Ok? ==> i < |View(d, sb).inodes| && r.value == View(d, sb).inodes[i]
  }

  /** `initialize`: reads the superblock, then the root inode, which it caches. */
  method Mount(dev: BlockDevice) returns (r: Result<(Super, INode)>)
    ensures r.Ok? ==> |dev.disk| > 0 && SuperOf(dev.disk[0]) == Ok(r.value.0)
    ensures r.Ok? && Geometry(r.value.0, dev.disk) && ROOT < r.value.0.ninodes ==> RecordRead(dev.disk, r.value.0, ROOT, Ok(r.value.1))
    ensures r.Err? ==> r.error == DeviceIO || (r.error == Fs && |dev.disk| > 0 && SuperOf(dev.disk[0]).Err?)
    ensures dev.reliable && |dev.disk| > 0 && SuperOf(dev.disk[0]).Ok? ==>
              var sb := SuperOf(dev.disk[0]).value;
              InodeAddress(sb, ROOT) / SECTOR < |dev.disk| || (Geometry(sb, dev.disk) && ROOT < sb.ninodes) ==> r.Ok?
  {
    hide Geometry, InodeAddress, RecordRead, SuperOf;
    var s := dev.ReadSector(0);
    if s.Err? {
      return Err(s.error);
    }
    SuperError(s.value);
    var sb := SuperOf(s.value);
    if sb.Err? {
      return Err(sb.error);
    }
    var root := ReadInode(dev, sb.value, ROOT);
    if root.Err? {
      return Err(root.error);
    }
    r := Ok((sb.value, root.value));
  }

  lemma SuperError(s: Sector)
    ensures SuperOf(s).Err? ==> SuperOf(s).error == Fs
  {}

  lemma PathPlain(path: seq<Octet>)
    ensures forall k | 0 <= k < |Components(path)| :: Components(path)[k] != [] && SLASH !in Components(path)[k]
  {
    ComponentsPlain(path, []);
  }
}
