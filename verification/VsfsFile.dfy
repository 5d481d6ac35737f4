/**
 Reading and writing regular files: byte ranges of a file are found through twelve direct block
 pointers and one block of indirect pointers, and moved sector by sector.  The device may fail at
 any sector operation, and a write it reports as failed may have landed.
 */
module VsfsFile {
  import opened Basics
  import opened VsfsDisk

  datatype VfsError = Fs | NotFound | DeviceIO
  datatype Result<+T> = Ok(value: T) | Err(error: VfsError)

  class BlockDevice {
    var disk: Disk
    /** A reliable device serves every sector it has. */
    const reliable: bool

    constructor (disk: Disk, reliable: bool)
      ensures this.disk == disk && this.reliable == reliable
    {
      this.disk, this.reliable := disk, reliable;
    }

    method ReadSector(i: nat) returns (r: Result<Sector>)
      ensures r.Ok? ==> i < |disk| && r.value == disk[i]
      ensures r.Err? ==> r.error == DeviceIO
      ensures reliable && i < |disk| ==> r.Ok?
    {
      var fails: bool := *;
      if i >= |disk| || (fails && !reliable) {
        return Err(DeviceIO);
      }
      r := Ok(disk[i]);
    }

    method WriteSector(i: nat, buf: Sector) returns (r: Result<()>)
      modifies this`disk
      ensures r.Ok? ==> i < |old(disk)| && disk == old(disk)[i := buf]
      ensures r.Err? ==> r.error == DeviceIO && (disk == old(disk) || (i < |old(disk)| && disk == old(disk)[i := buf]))
      ensures reliable && i < |old(disk)| ==> r.Ok?
    {
      if i >= |disk| {
        return Err(DeviceIO);
      }
      var fails: bool := *;
      var lands: bool := *;
      if fails && !reliable {
        if lands { disk := disk[i := buf]; }
        return Err(DeviceIO);
      }
      disk := disk[i := buf];
      r := Ok(());
    }
  }

  // ---- from file offsets to disk addresses ----

  /** The address of the indirect pointer for logical block `j`. */
  function PointerAddress(ino: INode, j: nat): nat
    requires j >= DIRECT_BLOCKS
  {
    ino.indirect * BLOCK + (j - DIRECT_BLOCKS) * 4
  }

  /** The disk block of logical block `j`; zero when there is none. */
  function MappedBlock(d: Disk, ino: INode, j: nat): U32 {
    if j < DIRECT_BLOCKS then ino.direct[j]
    else if j - DIRECT_BLOCKS >= INDIRECT_ENTRIES || ino.indirect == 0 || PointerAddress(ino, j) + 4 > Size(d) then 0
    else WordAt(Bytes(d, PointerAddress(ino, j), 4), 0)
  }

  /** The disk address of byte `k` of the file. */
  function Location(d: Disk, ino: INode, k: nat): nat {
    MappedBlock(d, ino, k / BLOCK) * BLOCK + k % BLOCK
  }

  function BlockCount(sz: nat): nat {
    (sz + BLOCK - 1) / BLOCK
  }

  predicate BlockOk(d: Disk, b: nat) {
    0 < b && b * BLOCK + BLOCK <= Size(d)
  }

  /** Every block of the file is there, no two are the same, and none is the indirect block. */
  ghost predicate FileOk(d: Disk, ino: INode) {
    var n := BlockCount(ino.sz);
    && (forall j | 0 <= j < n :: BlockOk(d, MappedBlock(d, ino, j)))
    && (forall i, j | 0 <= i < j < n :: MappedBlock(d, ino, i) != MappedBlock(d, ino, j))
    && (n > DIRECT_BLOCKS ==> BlockOk(d, ino.indirect) && forall j | 0 <= j < n :: MappedBlock(d, ino, j) != ino.indirect)
  }

  /** The bytes of the file. */
  ghost function Contents(d: Disk, ino: INode): (s: seq<Octet>)
    requires FileOk(d, ino)
    ensures |s| == ino.sz
  {
    seq<Octet>(ino.sz, k requires 0 <= k < ino.sz => LocationOk(d, ino, k); Peek(d, Location(d, ino, k)))
  }

  lemma LocationOk(d: Disk, ino: INode, k: nat)
    requires FileOk(d, ino) && k < ino.sz
    ensures k / BLOCK < BlockCount(ino.sz) && BlockOk(d, MappedBlock(d, ino, k / BLOCK))
    ensures Location(d, ino, k) < Size(d)
  {}

  /** The sector of a byte of a well-formed file exists. */
  lemma SectorInRange(d: Disk, ino: INode, k: nat)
    requires FileOk(d, ino) && k < ino.sz
    ensures MappedBlock(d, ino, k / BLOCK) != 0
    ensures MappedBlock(d, ino, k / BLOCK) * SECTORS_PER_BLOCK + k % BLOCK / SECTOR < |d|
  {}

  lemma LocationUnique(d: Disk, ino: INode, j: nat, k: nat)
    requires FileOk(d, ino) && j < ino.sz && k < ino.sz
    ensures Location(d, ino, j) == Location(d, ino, k) <==> j == k
  {}

  /** Within one sector, consecutive file bytes are consecutive on disk. */
  lemma SameSector(off: nat, i: nat)
    requires off % SECTOR + i < SECTOR
    ensures (off + i) / BLOCK == off / BLOCK && (off + i) % BLOCK == off % BLOCK + i
    ensures off % BLOCK % SECTOR == off % SECTOR
  {}

  /** The sector and the offset in it that hold file offset `off` of block `b`. */
  lemma SectorAddress(b: nat, off: nat)
    ensures SECTOR * (b * SECTORS_PER_BLOCK + off % BLOCK / SECTOR) + off % BLOCK % SECTOR == b * BLOCK + off % BLOCK
  {}

  lemma WordInSector(d: Disk, i: nat, off: nat)
    requires i < |d| && off + 4 <= SECTOR
    ensures WordAt(d[i], off) == WordAt(Bytes(d, SECTOR * i + off, 4), 0)
  {}

  /** `data_block`. */
  method DataBlock(dev: BlockDevice, ino: INode, j: nat) returns (r: Result<U32>)
    ensures r.Ok? ==> r.value == MappedBlock(dev.disk, ino, j) && r.value != 0
    ensures r.Err? ==> r.error == DeviceIO || (r.error == Fs && MappedBlock(dev.disk, ino, j) == 0)
    ensures MappedBlock(dev.disk, ino, j) != 0 && dev.reliable ==> r.Ok?
  {
    var b: U32;
    if j < DIRECT_BLOCKS {
      b := ino.direct[j];
    } else {
      var index := j - DIRECT_BLOCKS;
      if index >= INDIRECT_ENTRIES || ino.indirect == 0 {
        return Err(Fs);
      }
      var at := index * 4;
      var sector := ino.indirect * SECTORS_PER_BLOCK + at / SECTOR;
      var buf := dev.ReadSector(sector);
      assert SECTOR * sector + at % SECTOR == PointerAddress(ino, j);
      if buf.Err? {
        return Err(buf.error);
      }
      WordInSector(dev.disk, sector, at % SECTOR);
      b := WordAt(buf.value, at % SECTOR);
    }
    if b == 0 {
      return Err(Fs);
    }
    r := Ok(b);
  }

  // ---- reading ----

  /** How many bytes a request of `len` bytes at `offset` covers: it ends short only at the end of the file. */
  function Within(ino: INode, offset: nat, len: nat): (n: nat)
    ensures n <= len && (n > 0 ==> offset + n <= ino.sz) && (n == len || offset + n >= ino.sz)
  {
    if offset >= ino.sz then 0 else if len <= ino.sz - offset then len else ino.sz - offset
  }

  /** Byte `k` of the file has a place on the disk. */
  predicate HasByte(d: Disk, ino: INode, k: nat) {
    MappedBlock(d, ino, k / BLOCK) != 0 && Location(d, ino, k) < Size(d)
  }

  predicate IsByte(d: Disk, ino: INode, k: nat, b: Octet) {
    HasByte(d, ino, k) && b == Peek(d, Location(d, ino, k))
  }

  /** `s` holds the bytes of the file from `offset` on. */
  ghost predicate Copied(d: Disk, ino: INode, offset: nat, s: seq<Octet>) {
    forall k | 0 <= k < |s| :: IsByte(d, ino, offset + k, s[k])
  }

  lemma CopyNext(d: Disk, ino: INode, offset: nat, s: seq<Octet>, i: nat, n: nat)
    requires Copied(d, ino, offset, s) && MappedBlock(d, ino, (offset + |s|) / BLOCK) != 0
    requires i == MappedBlock(d, ino, (offset + |s|) / BLOCK) * SECTORS_PER_BLOCK + (offset + |s|) % BLOCK / SECTOR && i < |d|
    requires (offset + |s|) % SECTOR + n <= SECTOR
    ensures var so := (offset + |s|) % BLOCK % SECTOR;
            so + n <= SECTOR && Copied(d, ino, offset, s + d[i][so..so + n])
  {}

  /** The block of the last chunk is remembered. */
  method CachedBlock(dev: BlockDevice, ino: INode, j: nat, mapped: Option<(nat, U32)>) returns (r: Result<U32>)
    requires mapped.Some? ==> mapped.value.1 == MappedBlock(dev.disk, ino, mapped.value.0) && mapped.value.1 != 0
    ensures r.Ok? ==> r.value == MappedBlock(dev.disk, ino, j) && r.value != 0
    ensures r.Err? && MappedBlock(dev.disk, ino, j) != 0 ==> !dev.reliable
  {
    if mapped.Some? && mapped.value.0 == j {
      return Ok(mapped.value.1);
    }
    r := DataBlock(dev, ino, j);
  }

  /** `copy_from_slice` into a part of the buffer. */
  method CopyInto(buf: array<Octet>, at: nat, s: seq<Octet>)
    requires at + |s| <= buf.Length
    modifies buf
    ensures buf[..at + |s|] == old(buf[..at]) + s && buf[at + |s|..] == old(buf[at + |s|..])
  {
    forall i | at <= i < at + |s| { buf[i] := s[i - at]; }
  }

  /** The first `n` bytes of the buffer are the bytes of the file from `offset` on, and the rest is as it was. */
  ghost predicate Filled(d: Disk, ino: INode, offset: nat, was: seq<Octet>, now: seq<Octet>, n: nat) {
    |was| == |now| && n <= |now| && Copied(d, ino, offset, now[..n]) && now[n..] == was[n..]
  }

  ghost predicate PartlyFilled(d: Disk, ino: INode, offset: nat, was: seq<Octet>, now: seq<Octet>, limit: nat) {
    exists n: nat :: n <= limit && Filled(d, ino, offset, was, now, n)
  }

  lemma SomeFilled(d: Disk, ino: INode, offset: nat, was: seq<Octet>, now: seq<Octet>, n: nat, limit: nat)
    requires n <= limit && Filled(d, ino, offset, was, now, n)
    ensures PartlyFilled(d, ino, offset, was, now, limit)
  {}

  lemma FillNone(d: Disk, ino: INode, offset: nat, was: seq<Octet>)
    ensures Filled(d, ino, offset, was, was, 0)
  {}

  /** One more run of bytes from one sector. */
  lemma FillNext(d: Disk, ino: INode, offset: nat, was: seq<Octet>, now: seq<Octet>, now': seq<Octet>, total: nat, i: nat, n: nat)
    requires Filled(d, ino, offset, was, now, total) && MappedBlock(d, ino, (offset + total) / BLOCK) != 0
    requires i == MappedBlock(d, ino, (offset + total) / BLOCK) * SECTORS_PER_BLOCK + (offset + total) % BLOCK / SECTOR && i < |d|
    requires (offset + total) % SECTOR + n <= SECTOR && total + n <= |now| && |now'| == |now|
    requires var so := (offset + total) % BLOCK % SECTOR;
             so + n <= SECTOR && now'[..total + n] == now[..total] + d[i][so..so + n] && now'[total + n..] == now[total + n..]
    ensures Filled(d, ino, offset, was, now', total + n)
  {
    hide MappedBlock, IsByte;
    CopyNext(d, ino, offset, now[..total], i, n);
    assert now'[total + n..] == now[total..][n..] == was[total..][n..] == was[total + n..];
  }

  /** `read`: fills the front of `buf` from `offset` on and says how much; a device error leaves some of it filled. */
  method Read(dev: BlockDevice, ino: INode, offset: nat, buf: array<Octet>) returns (r: Result<nat>)
    modifies buf
    ensures ino.ty != FILE ==> r == Err(Fs)
    ensures r.Ok? ==> r.value <= Within(ino, offset, buf.Length) && Filled(dev.disk, ino, offset, old(buf[..]), buf[..], r.value)
    ensures r.Err? ==> PartlyFilled(dev.disk, ino, offset, old(buf[..]), buf[..], Within(ino, offset, buf.Length))
    ensures r.Ok? && r.value < Within(ino, offset, buf.Length) ==>
              !dev.reliable || MappedBlock(dev.disk, ino, (offset + r.value) / BLOCK) == 0
    ensures r.Ok? ==> r.value <= buf.Length && (r.value > 0 ==> offset + r.value <= ino.sz)
    ensures ino.ty == FILE && dev.reliable && FileOk(dev.disk, ino) ==> r.Ok? && (r.value == buf.Length || offset + r.value >= ino.sz)
    ensures ino.ty == FILE && (offset >= ino.sz || buf.Length == 0) ==> r == Ok(0) && buf[..] == old(buf[..])
  {
    hide FileOk, MappedBlock, HasByte, Location, Filled, PartlyFilled;
    ghost var was := buf[..];
    FillNone(dev.disk, ino, offset, was);
    SomeFilled(dev.disk, ino, offset, was, was, 0, Within(ino, offset, buf.Length));
    if ino.ty != FILE {
      return Err(Fs);
    }
    if offset >= ino.sz || buf.Length == 0 {
      return Ok(0);
    }
    var want := Within(ino, offset, buf.Length);
    var total := 0;
    var mapped: Option<(nat, U32)> := None;
    while total < want
      invariant 0 <= total <= want && Filled(dev.disk, ino, offset, was, buf[..], total)
      invariant mapped.Some? ==> mapped.value.1 == MappedBlock(dev.disk, ino, mapped.value.0) && mapped.value.1 != 0
    {
      var at := offset + total;
      SomeFilled(dev.disk, ino, offset, was, buf[..], total, want);
      var b := CachedBlock(dev, ino, at / BLOCK, mapped);
      if b.Err? {
        if FileOk(dev.disk, ino) { SectorInRange(dev.disk, ino, at); }
        if total > 0 {
          return Ok(total);
        }
        return Err(b.error);
      }
      mapped := Some((at / BLOCK, b.value));
      var sector := b.value * SECTORS_PER_BLOCK + at % BLOCK / SECTOR;
      var so := at % BLOCK % SECTOR;
      var s := dev.ReadSector(sector);
      if s.Err? {
        if FileOk(dev.disk, ino) { SectorInRange(dev.disk, ino, at); }
        return Err(s.error);
      }
      var n := if SECTOR - so <= want - total then SECTOR - so else want - total;
      SameSector(at, 0);
      ghost var now := buf[..];
      CopyInto(buf, total, s.value[so..so + n]);
      FillNext(dev.disk, ino, offset, was, now, buf[..], total, sector, n);
      total := total + n;
    }
    r := Ok(total);
  }

  /** On a well-formed file, what was read is a slice of its contents. */
  lemma ReadIsSlice(d: Disk, ino: INode, offset: nat, s: seq<Octet>)
    requires FileOk(d, ino) && offset + |s| <= ino.sz && Copied(d, ino, offset, s)
    ensures s == Contents(d, ino)[offset..offset + |s|]
  {}

  // ---- writing ----

  /** Address `a` holds one of the `n` file bytes from `offset` on. */
  ghost predicate Covered(d: Disk, ino: INode, offset: nat, n: nat, a: nat) {
    exists k: nat :: offset <= k < offset + n && Location(d, ino, k) == a
  }

  /** `d'` is `d` with the file bytes from `offset` on replaced by `bytes`, and nothing else changed. */
  ghost predicate Overwritten(d: Disk, d': Disk, ino: INode, offset: nat, bytes: seq<Octet>) {
    && |d'| == |d|
    && (forall k: nat | offset <= k < offset + |bytes| ::
          Location(d, ino, k) < Size(d) && Peek(d', Location(d, ino, k)) == bytes[k - offset])
    && (forall a: nat | a < Size(d) && !Covered(d, ino, offset, |bytes|, a) :: Peek(d', a) == Peek(d, a))
  }

  lemma OverwriteNone(d: Disk, ino: INode, offset: nat)
    ensures Overwritten(d, d, ino, offset, [])
  {}

  lemma NextLocations(d: Disk, ino: INode, at: nat, i: nat)
    requires at % SECTOR + i < SECTOR
    ensures Location(d, ino, at + i) == Location(d, ino, at) + i
  {}

  lemma ChunkCovers(d: Disk, ino: INode, offset: nat, n: nat, m: nat, a: nat)
    requires (offset + n) % SECTOR + m <= SECTOR
    ensures Covered(d, ino, offset, n + m, a) <==>
            Covered(d, ino, offset, n, a) || Location(d, ino, offset + n) <= a < Location(d, ino, offset + n) + m
  {
    var at := offset + n;
    if Covered(d, ino, offset, n + m, a) {
      var k: nat :| offset <= k < offset + (n + m) && Location(d, ino, k) == a;
      if k >= at { NextLocations(d, ino, at, k - at); }
    }
    if Location(d, ino, at) <= a < Location(d, ino, at) + m {
      NextLocations(d, ino, at, a - Location(d, ino, at));
      assert Location(d, ino, at + (a - Location(d, ino, at))) == a;
    }
  }

  lemma BeforeChunk(d: Disk, ino: INode, at: nat, m: nat, k: nat)
    requires FileOk(d, ino) && k < at && at + m <= ino.sz && at % SECTOR + m <= SECTOR
    ensures !(Location(d, ino, at) <= Location(d, ino, k) < Location(d, ino, at) + m)
  {}

  lemma OverwriteNext(d0: Disk, d: Disk, d': Disk, ino: INode, offset: nat, bytes: seq<Octet>, chunk: seq<Octet>)
    requires FileOk(d0, ino) && Overwritten(d0, d, ino, offset, bytes)
    requires var at := offset + |bytes|;
             && at % SECTOR + |chunk| <= SECTOR && at + |chunk| <= ino.sz
             && Patched(d, Location(d0, ino, at), chunk, d')
    ensures Overwritten(d0, d', ino, offset, bytes + chunk)
  {
    var at := offset + |bytes|;
    var here := Location(d0, ino, at);
    forall k: nat | offset <= k < offset + |bytes + chunk|
      ensures Location(d0, ino, k) < Size(d0) && Peek(d', Location(d0, ino, k)) == (bytes + chunk)[k - offset]
    {
      LocationOk(d0, ino, k);
      if k >= at {
        NextLocations(d0, ino, at, k - at);
      } else {
        BeforeChunk(d0, ino, at, |chunk|, k);
      }
    }
    forall a: nat | a < Size(d0) && !Covered(d0, ino, offset, |bytes + chunk|, a) ensures Peek(d', a) == Peek(d0, a) {
      ChunkCovers(d0, ino, offset, |bytes|, |chunk|, a);
    }
  }

  /** Blocks that are not blocks of the file are not touched. */
  lemma OtherBlocks(d: Disk, d': Disk, ino: INode, offset: nat, bytes: seq<Octet>, b: nat, a: nat)
    requires FileOk(d, ino) && Overwritten(d, d', ino, offset, bytes) && offset + |bytes| <= ino.sz
    requires forall j | 0 <= j < BlockCount(ino.sz) :: MappedBlock(d, ino, j) != b
    requires b * BLOCK <= a < b * BLOCK + BLOCK && a < Size(d)
    ensures Peek(d', a) == Peek(d, a)
  {}

  /** The block pointers of any inode whose indirect block is not a block of the written file stay as they are. */
  lemma PointersKept(d: Disk, d': Disk, ino: INode, offset: nat, bytes: seq<Octet>, other: INode, j: nat)
    requires FileOk(d, ino) && Overwritten(d, d', ino, offset, bytes) && offset + |bytes| <= ino.sz
    requires j >= DIRECT_BLOCKS ==> forall i | 0 <= i < BlockCount(ino.sz) :: MappedBlock(d, ino, i) != other.indirect
    ensures MappedBlock(d', other, j) == MappedBlock(d, other, j)
  {
    if DIRECT_BLOCKS <= j < DIRECT_BLOCKS + INDIRECT_ENTRIES && PointerAddress(other, j) + 4 <= Size(d) {
      var p := PointerAddress(other, j);
      forall i | 0 <= i < 4 ensures Bytes(d', p, 4)[i] == Bytes(d, p, 4)[i] {
        OtherBlocks(d, d', ino, offset, bytes, other.indirect, p + i);
      }
      assert Bytes(d', p, 4) == Bytes(d, p, 4);
    }
  }

  lemma WriteBlocks(d: Disk, d': Disk, ino: INode, offset: nat, bytes: seq<Octet>)
    requires FileOk(d, ino) && Overwritten(d, d', ino, offset, bytes) && offset + |bytes| <= ino.sz
    ensures FileOk(d', ino) && |d'| == |d|
    ensures forall j | 0 <= j < BlockCount(ino.sz) :: MappedBlock(d', ino, j) == MappedBlock(d, ino, j)
  {
    forall j | 0 <= j < BlockCount(ino.sz) ensures MappedBlock(d', ino, j) == MappedBlock(d, ino, j) {
      PointersKept(d, d', ino, offset, bytes, ino, j);
    }
    hide MappedBlock, Overwritten;
  }

  lemma WrittenByte(d: Disk, d': Disk, ino: INode, offset: nat, bytes: seq<Octet>, k: nat)
    requires FileOk(d, ino) && Overwritten(d, d', ino, offset, bytes) && offset + |bytes| <= ino.sz && k < ino.sz
    ensures Location(d, ino, k) < Size(d) == Size(d')
    ensures Peek(d', Location(d, ino, k)) == if offset <= k < offset + |bytes| then bytes[k - offset] else Peek(d, Location(d, ino, k))
  {
    hide FileOk, Location;
    LocationOk(d, ino, k);
    if !(offset <= k < offset + |bytes|) { LocationAlone(d, ino, offset, |bytes|, k); }
  }

  /** The written file keeps its blocks, and its contents are the old ones with the range replaced. */
  lemma WriteReplaces(d: Disk, d': Disk, ino: INode, offset: nat, bytes: seq<Octet>)
    requires FileOk(d, ino) && Overwritten(d, d', ino, offset, bytes) && offset + |bytes| <= ino.sz
    ensures FileOk(d', ino)
    ensures Contents(d', ino) == Spliced(Contents(d, ino), offset, bytes)
  {
    hide FileOk, Overwritten, MappedBlock;
    WriteBlocks(d, d', ino, offset, bytes);
    forall k | 0 <= k < ino.sz ensures Contents(d', ino)[k] == Spliced(Contents(d, ino), offset, bytes)[k] {
      LocationOk(d, ino, k);
      WrittenByte(d, d', ino, offset, bytes, k);
      assert Location(d', ino, k) == Location(d, ino, k);
    }
  }

  lemma LocationAlone(d: Disk, ino: INode, offset: nat, n: nat, k: nat)
    requires FileOk(d, ino) && offset + n <= ino.sz && k < ino.sz && !(offset <= k < offset + n)
    ensures !Covered(d, ino, offset, n, Location(d, ino, k))
  {}

  /** Two files share no block: no data block of one is a data block or the indirect block of the other. */
  ghost predicate Apart(d: Disk, ino: INode, other: INode) {
    forall i | 0 <= i < BlockCount(ino.sz) ::
      && (BlockCount(other.sz) > DIRECT_BLOCKS ==> MappedBlock(d, ino, i) != other.indirect)
      && (forall j | 0 <= j < BlockCount(other.sz) :: MappedBlock(d, ino, i) != MappedBlock(d, other, j))
  }

  /** Every other file keeps its blocks and its contents. */
  lemma WriteKeepsOthers(d: Disk, d': Disk, ino: INode, offset: nat, bytes: seq<Octet>, other: INode)
    requires FileOk(d, ino) && Overwritten(d, d', ino, offset, bytes) && offset + |bytes| <= ino.sz
    requires FileOk(d, other) && Apart(d, ino, other)
    ensures FileOk(d', other) && Contents(d', other) == Contents(d, other)
  {
    forall j | 0 <= j < BlockCount(other.sz) ensures MappedBlock(d', other, j) == MappedBlock(d, other, j) {
      PointersKept(d, d', ino, offset, bytes, other, j);
    }
    forall k | 0 <= k < other.sz ensures Contents(d', other)[k] == Contents(d, other)[k] {
      LocationOk(d, other, k);
      OtherBlocks(d, d', ino, offset, bytes, MappedBlock(d, other, k / BLOCK), Location(d, other, k));
    }
  }

  /** One chunk of a write: read the sector unless all of it is replaced, splice, write it back. */
  method WriteChunk(dev: BlockDevice, sector: nat, so: nat, chunk: seq<Octet>) returns (r: Result<()>)
    requires so + |chunk| <= SECTOR
    modifies dev`disk
    ensures r.Ok? ==> Patched(old(dev.disk), SECTOR * sector + so, chunk, dev.disk)
    ensures r.Err? ==> dev.disk == old(dev.disk) || Patched(old(dev.disk), SECTOR * sector + so, chunk, dev.disk)
    ensures dev.reliable && sector < |old(dev.disk)| ==> r.Ok?
  {
    var buf: Sector := seq(SECTOR, _ => 0);
    if |chunk| != SECTOR {
      var s := dev.ReadSector(sector);
      if s.Err? {
        return Err(s.error);
      }
      buf := s.value;
    }
    ghost var d := dev.disk;
    buf := Spliced(buf, so, chunk);
    if sector < |d| {
      SectorPatch(d, sector, so, chunk);
      assert buf == Spliced(d[sector], so, chunk);
    }
    r := dev.WriteSector(sector, buf);
  }

  /** Some first part of `data` has replaced the file bytes from `offset` on. */
  ghost predicate PartlyWritten(d: Disk, d': Disk, ino: INode, offset: nat, data: seq<Octet>) {
    exists n :: 0 <= n <= |data| && Overwritten(d, d', ino, offset, data[..n])
  }

  /** What the loop of `write` keeps, on a well-formed file. */
  lemma WriteAdvance(d0: Disk, d: Disk, d': Disk, ino: INode, offset: nat, data: seq<Octet>, total: nat, n: nat)
    requires total + n <= |data| && FileOk(d0, ino) && Overwritten(d0, d, ino, offset, data[..total])
    requires offset + total + n <= ino.sz && (offset + total) % SECTOR + n <= SECTOR
    requires Patched(d, Location(d0, ino, offset + total), data[total..total + n], d')
    ensures Overwritten(d0, d', ino, offset, data[..total + n])
  {
    OverwriteNext(d0, d, d', ino, offset, data[..total], data[total..total + n]);
    assert data[..total] + data[total..total + n] == data[..total + n];
  }

  lemma WritePlace(d0: Disk, d: Disk, ino: INode, offset: nat, bytes: seq<Octet>, at: nat)
    requires FileOk(d0, ino) && Overwritten(d0, d, ino, offset, bytes) && offset + |bytes| <= ino.sz && at < ino.sz
    ensures MappedBlock(d, ino, at / BLOCK) == MappedBlock(d0, ino, at / BLOCK) && MappedBlock(d, ino, at / BLOCK) != 0
    ensures var sector := MappedBlock(d, ino, at / BLOCK) * SECTORS_PER_BLOCK + at % BLOCK / SECTOR;
            sector < |d| && SECTOR * sector + at % BLOCK % SECTOR == Location(d0, ino, at)
  {
    SectorInRange(d0, ino, at);
    LocationOk(d0, ino, at);
    PointersKept(d0, d, ino, offset, bytes, ino, at / BLOCK);
    SectorAddress(MappedBlock(d, ino, at / BLOCK), at);
  }

  lemma CacheKept(d0: Disk, d: Disk, d': Disk, ino: INode, offset: nat, bytes: seq<Octet>, bytes': seq<Octet>, at: nat)
    requires FileOk(d0, ino) && at < ino.sz && offset + |bytes| <= ino.sz && offset + |bytes'| <= ino.sz
    requires Overwritten(d0, d, ino, offset, bytes) && Overwritten(d0, d', ino, offset, bytes')
    ensures MappedBlock(d', ino, at / BLOCK) == MappedBlock(d, ino, at / BLOCK)
  {
    WritePlace(d0, d, ino, offset, bytes, at);
    WritePlace(d0, d', ino, offset, bytes', at);
  }

  /**
   `write` on a well-formed file: the bytes from `offset` up to the end of the request or of the
   file are replaced, whichever comes first; the file never grows.  When the device fails, some
   first part of them is.
   */
  method Write(dev: BlockDevice, ino: INode, offset: nat, data: seq<Octet>) returns (r: Result<nat>)
    requires FileOk(dev.disk, ino)
    modifies dev`disk
    ensures ino.ty != FILE ==> r == Err(Fs) && dev.disk == old(dev.disk)
    ensures r.Ok? ==> r.value <= Within(ino, offset, |data|) && Overwritten(old(dev.disk), dev.disk, ino, offset, data[..r.value])
    ensures r.Err? ==> PartlyWritten(old(dev.disk), dev.disk, ino, offset, data[..Within(ino, offset, |data|)])
    ensures r.Ok? ==> r.value <= |data| && (r.value > 0 ==> offset + r.value <= ino.sz)
    ensures ino.ty == FILE && dev.reliable ==>
              r.Ok? && r.value == Within(ino, offset, |data|) && (r.value == |data| || offset + r.value >= ino.sz)
    ensures ino.ty == FILE && (offset >= ino.sz || data == []) ==> r == Ok(0) && dev.disk == old(dev.disk)
  {
    hide FileOk, MappedBlock, Location, Overwritten, Patched;
    ghost var d0 := dev.disk;
    OverwriteNone(d0, ino, offset);
    assert data[..0] == [];
    var want := Within(ino, offset, |data|);
    assert data[..want][..0] == [];
    if ino.ty != FILE {
      return Err(Fs);
    }
    if offset >= ino.sz || data == [] {
      return Ok(0);
    }
    var total := 0;
    var mapped: Option<(nat, U32)> := None;
    while total < want
      invariant 0 <= total <= want && Overwritten(d0, dev.disk, ino, offset, data[..total])
      invariant mapped.Some? ==> mapped.value.0 == (offset + total - 1) / BLOCK && total > 0
      invariant mapped.Some? ==> mapped.value.1 == MappedBlock(dev.disk, ino, mapped.value.0) && mapped.value.1 != 0
    {
      var at := offset + total;
      assert data[..want][..total] == data[..total];
      WritePlace(d0, dev.disk, ino, offset, data[..total], at);
      var b := CachedBlock(dev, ino, at / BLOCK, mapped);
      if b.Err? {
        if total > 0 {
          return Ok(total);
        }
        return Err(b.error);
      }
      var sector := b.value * SECTORS_PER_BLOCK + at % BLOCK / SECTOR;
      var so := at % BLOCK % SECTOR;
      var n := if SECTOR - so <= want - total then SECTOR - so else want - total;
      SameSector(at, 0);
      ghost var d := dev.disk;
      var ok := WriteChunk(dev, sector, so, data[total..total + n]);
      assert data[..want][..total + n] == data[..total + n];
      if dev.disk != d {
        WriteAdvance(d0, d, dev.disk, ino, offset, data, total, n);
      }
      if ok.Err? {
        return Err(ok.error);
      }
      WriteAdvance(d0, d, dev.disk, ino, offset, data, total, n);
      CacheKept(d0, d, dev.disk, ino, offset, data[..total], data[..total + n], at);
      mapped := Some((at / BLOCK, b.value));
      SameSector(at, n - 1);
      total := total + n;
    }
    r := Ok(total);
  }
}
