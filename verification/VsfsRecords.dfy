/**
 The disk seen as records: the inode table, the two bitmaps and the data blocks.  Each of the
 kernel's small writes (an inode record, a bitmap bit, a part of a data block) changes exactly one
 record of this view.
 */
module VsfsRecords {
  import opened Basics
  import opened VsfsDisk
  import opened VsfsFile

  /** The superblock. */
  datatype Super = Super(nblocks: nat, ninodes: nat, inodeBitmap: nat, dataBitmap: nat,
                         tableStart: nat, tableBlocks: nat, dataStart: nat)

  const BITS_PER_BLOCK: nat := 32768

  /** The parts of the disk do not overlap, and each bitmap fits its block. */
  predicate Geometry(sb: Super, d: Disk) {
    && sb.nblocks * BLOCK <= Size(d) && sb.dataStart <= sb.nblocks
    && sb.ninodes * INODE_SIZE <= sb.tableBlocks * BLOCK
    && sb.tableStart + sb.tableBlocks <= sb.dataStart
    && sb.inodeBitmap < sb.tableStart && sb.dataBitmap < sb.tableStart && sb.inodeBitmap != sb.dataBitmap
    && sb.ninodes <= BITS_PER_BLOCK && sb.nblocks - sb.dataStart <= BITS_PER_BLOCK
  }

  const MAGIC: U32 := 0x5653_4653

  predicate SuperSized(sb: Super) {
    && sb.nblocks < 0x1_0000_0000 && sb.ninodes < 0x1_0000_0000 && sb.inodeBitmap < 0x1_0000_0000 && sb.dataBitmap < 0x1_0000_0000
    && sb.tableStart < 0x1_0000_0000 && sb.tableBlocks < 0x1_0000_0000 && sb.dataStart < 0x1_0000_0000
  }

  /** The eight words of the superblock record. */
  function SuperBytes(sb: Super): (s: seq<Octet>)
    requires SuperSized(sb)
    ensures |s| == 32
  {
    WordsBytes([MAGIC, sb.nblocks, sb.ninodes, sb.inodeBitmap, sb.dataBitmap, sb.tableStart, sb.tableBlocks, sb.dataStart])
  }

  /** What mounting makes of the first sector. */
  function SuperOf(s: seq<Octet>): Result<Super>
    requires |s| >= 32
  {
    if WordAt(s, 0) != MAGIC then Err(Fs)
    else Ok(Super(WordAt(s, 4), WordAt(s, 8), WordAt(s, 12), WordAt(s, 16), WordAt(s, 20), WordAt(s, 24), WordAt(s, 28)))
  }

  lemma SuperRoundTrip(sb: Super, rest: seq<Octet>)
    requires SuperSized(sb)
    ensures SuperOf(SuperBytes(sb) + rest) == Ok(sb)
  {
    hide WordAt, WordsBytes;
    var ws: seq<U32> := [MAGIC, sb.nblocks, sb.ninodes, sb.inodeBitmap, sb.dataBitmap, sb.tableStart, sb.tableBlocks, sb.dataStart];
    var s := SuperBytes(sb) + rest;
    forall j | 0 <= j < 8 ensures WordAt(s, 4 * j) == ws[j] {
      WordOf(ws, j);
      assert s[4 * j..4 * j + 4] == WordsBytes(ws)[4 * j..4 * j + 4];
      WordInside(s, 4 * j, ws[j]);
    }
    assert WordAt(s, 4 * 0) == ws[0] && WordAt(s, 4 * 1) == ws[1] && WordAt(s, 4 * 2) == ws[2] && WordAt(s, 4 * 3) == ws[3];
    assert WordAt(s, 4 * 4) == ws[4] && WordAt(s, 4 * 5) == ws[5] && WordAt(s, 4 * 6) == ws[6] && WordAt(s, 4 * 7) == ws[7];
  }

  datatype Records = Records(inodes: seq<INode>, inodeBits: set<nat>, dataBits: set<nat>, data: map<nat, seq<Octet>>)

  // ---- the view ----

  function InodeAddress(sb: Super, i: nat): nat {
    sb.tableStart * BLOCK + i * INODE_SIZE
  }

  function InodeAt(d: Disk, sb: Super, i: nat): INode
    requires Geometry(sb, d) && i < sb.ninodes
  {
    InodeOf(Bytes(d, InodeAddress(sb, i), INODE_SIZE))
  }

  predicate BitAt(d: Disk, block: nat, k: nat)
    requires k < BITS_PER_BLOCK && block * BLOCK + BLOCK <= Size(d)
  {
    BitOf(Peek(d, block * BLOCK + k / 8), k % 8)
  }

  ghost function Bits(d: Disk, block: nat, n: nat): (s: set<nat>)
    requires n <= BITS_PER_BLOCK && block * BLOCK + BLOCK <= Size(d)
    ensures forall k: nat :: k in s <==> k < n && BitAt(d, block, k)
  {
    set k: nat | k < n && BitAt(d, block, k)
  }

  predicate DataBlockNumber(sb: Super, b: nat) {
    sb.dataStart <= b < sb.nblocks
  }

  ghost function Blocks(d: Disk, sb: Super): (m: map<nat, seq<Octet>>)
    requires Geometry(sb, d)
    ensures forall b: nat :: b in m <==> DataBlockNumber(sb, b)
    ensures forall b: nat | DataBlockNumber(sb, b) :: m[b] == Bytes(d, b * BLOCK, BLOCK)
  {
    map b: nat | b < sb.nblocks && DataBlockNumber(sb, b) :: Bytes(d, b * BLOCK, BLOCK)
  }

  ghost function Inodes(d: Disk, sb: Super): (s: seq<INode>)
    requires Geometry(sb, d)
    ensures |s| == sb.ninodes && forall i | 0 <= i < |s| :: s[i] == InodeAt(d, sb, i)
  {
    seq(sb.ninodes, i requires 0 <= i < sb.ninodes => InodeAt(d, sb, i))
  }

  ghost function View(d: Disk, sb: Super): Records
    requires Geometry(sb, d)
  {
    Records(Inodes(d, sb), Bits(d, sb.inodeBitmap, sb.ninodes), Bits(d, sb.dataBitmap, sb.nblocks - sb.dataStart), Blocks(d, sb))
  }

  // ---- which part of the view a patch can touch ----

  lemma BitsKept(d: Disk, a: nat, bytes: seq<Octet>, d': Disk, block: nat, n: nat)
    requires n <= BITS_PER_BLOCK && block * BLOCK + BLOCK <= Size(d) && Patched(d, a, bytes, d')
    requires a + |bytes| <= block * BLOCK || block * BLOCK + BLOCK <= a
    ensures Bits(d', block, n) == Bits(d, block, n)
  {}

  lemma InodesKept(d: Disk, a: nat, bytes: seq<Octet>, d': Disk, sb: Super)
    requires Geometry(sb, d) && Patched(d, a, bytes, d')
    requires a + |bytes| <= sb.tableStart * BLOCK || sb.tableStart * BLOCK + sb.tableBlocks * BLOCK <= a
    ensures Inodes(d', sb) == Inodes(d, sb)
  {
    forall i | 0 <= i < sb.ninodes ensures InodeAt(d', sb, i) == InodeAt(d, sb, i) {
      PatchElsewhere(d, a, bytes, d', InodeAddress(sb, i), INODE_SIZE);
    }
  }

  lemma BlocksKept(d: Disk, a: nat, bytes: seq<Octet>, d': Disk, sb: Super)
    requires Geometry(sb, d) && Patched(d, a, bytes, d') && a + |bytes| <= sb.dataStart * BLOCK
    ensures Blocks(d', sb) == Blocks(d, sb)
  {
    forall b: nat | DataBlockNumber(sb, b) ensures Bytes(d', b * BLOCK, BLOCK) == Bytes(d, b * BLOCK, BLOCK) {
      assert sb.dataStart * BLOCK <= b * BLOCK && b * BLOCK + BLOCK <= sb.nblocks * BLOCK;
      PatchElsewhere(d, a, bytes, d', b * BLOCK, BLOCK);
    }
  }

  // ---- one record at a time ----

  /** Writing one inode record changes that inode and nothing else. */
  lemma InodeWritten(d: Disk, d': Disk, sb: Super, i: nat, ino: INode)
    requires Geometry(sb, d) && i < sb.ninodes && Patched(d, InodeAddress(sb, i), InodeBytes(ino), d')
    ensures Geometry(sb, d') && View(d', sb) == View(d, sb).(inodes := View(d, sb).inodes[i := ino])
  {
    var a := InodeAddress(sb, i);
    assert a + INODE_SIZE <= sb.tableStart * BLOCK + sb.tableBlocks * BLOCK;
    BitsKept(d, a, InodeBytes(ino), d', sb.inodeBitmap, sb.ninodes);
    BitsKept(d, a, InodeBytes(ino), d', sb.dataBitmap, sb.nblocks - sb.dataStart);
    BlocksKept(d, a, InodeBytes(ino), d', sb);
    forall j | 0 <= j < sb.ninodes ensures InodeAt(d', sb, j) == if j == i then ino else InodeAt(d, sb, j) {
      if j == i {
        PatchHere(d, a, InodeBytes(ino), d');
        InodeRoundTrip(ino);
      } else {
        PatchElsewhere(d, a, InodeBytes(ino), d', InodeAddress(sb, j), INODE_SIZE);
      }
    }
    assert Inodes(d', sb) == Inodes(d, sb)[i := ino];
  }

  /** Writing part of a data block changes that block and nothing else. */
  lemma DataWritten(d: Disk, d': Disk, sb: Super, b: nat, off: nat, bytes: seq<Octet>)
    requires Geometry(sb, d) && DataBlockNumber(sb, b) && off + |bytes| <= BLOCK && Patched(d, b * BLOCK + off, bytes, d')
    ensures Geometry(sb, d') && b in View(d, sb).data && |View(d, sb).data[b]| == BLOCK
    ensures View(d', sb) == View(d, sb).(data := View(d, sb).data[b := Spliced(View(d, sb).data[b], off, bytes)])
  {
    var a := b * BLOCK + off;
    assert sb.dataStart * BLOCK <= b * BLOCK;
    assert sb.inodeBitmap * BLOCK + BLOCK <= sb.dataStart * BLOCK && sb.dataBitmap * BLOCK + BLOCK <= sb.dataStart * BLOCK;
    BitsKept(d, a, bytes, d', sb.inodeBitmap, sb.ninodes);
    BitsKept(d, a, bytes, d', sb.dataBitmap, sb.nblocks - sb.dataStart);
    InodesKept(d, a, bytes, d', sb);
    BlocksSpliced(d, d', sb, b, off, bytes);
  }

  lemma BlocksSpliced(d: Disk, d': Disk, sb: Super, b: nat, off: nat, bytes: seq<Octet>)
    requires Geometry(sb, d) && DataBlockNumber(sb, b) && off + |bytes| <= BLOCK && Patched(d, b * BLOCK + off, bytes, d')
    ensures Geometry(sb, d') && b in Blocks(d, sb) && |Blocks(d, sb)[b]| == BLOCK
    ensures Blocks(d', sb) == Blocks(d, sb)[b := Spliced(Blocks(d, sb)[b], off, bytes)]
  {
    var m, m' := Blocks(d, sb), Blocks(d', sb);
    forall c | c in m ensures m'[c] == if c == b then Spliced(m[b], off, bytes) else m[c] {
      if c == b {
        BlockSpliced(d, d', b, off, bytes);
      } else {
        assert c < b ==> c * BLOCK + BLOCK <= b * BLOCK;
        assert b < c ==> b * BLOCK + BLOCK <= c * BLOCK;
        PatchElsewhere(d, b * BLOCK + off, bytes, d', c * BLOCK, BLOCK);
      }
    }
  }

  lemma BlockSpliced(d: Disk, d': Disk, b: nat, off: nat, bytes: seq<Octet>)
    requires b * BLOCK + BLOCK <= Size(d) && off + |bytes| <= BLOCK && Patched(d, b * BLOCK + off, bytes, d')
    ensures Bytes(d', b * BLOCK, BLOCK) == Spliced(Bytes(d, b * BLOCK, BLOCK), off, bytes)
  {}

  /** Rewriting the byte of bit `k` with that bit set or cleared. */
  lemma BitWritten(d: Disk, d': Disk, block: nat, n: nat, k: nat, on: bool)
    requires n <= BITS_PER_BLOCK && block * BLOCK + BLOCK <= Size(d) && k < n
    requires Patched(d, block * BLOCK + k / 8, [SetBit(Peek(d, block * BLOCK + k / 8), k % 8, on)], d')
    ensures Bits(d', block, n) == if on then Bits(d, block, n) + {k} else Bits(d, block, n) - {k}
  {}

  lemma InodeBitWritten(d: Disk, d': Disk, sb: Super, k: nat, on: bool)
    requires Geometry(sb, d) && k < sb.ninodes
    requires Patched(d, sb.inodeBitmap * BLOCK + k / 8, [SetBit(Peek(d, sb.inodeBitmap * BLOCK + k / 8), k % 8, on)], d')
    ensures Geometry(sb, d')
    ensures View(d', sb) == View(d, sb).(inodeBits := if on then View(d, sb).inodeBits + {k} else View(d, sb).inodeBits - {k})
  {
    var a := sb.inodeBitmap * BLOCK + k / 8;
    var bytes := [SetBit(Peek(d, a), k % 8, on)];
    assert a + 1 <= sb.inodeBitmap * BLOCK + BLOCK <= sb.tableStart * BLOCK;
    BitWritten(d, d', sb.inodeBitmap, sb.ninodes, k, on);
    assert sb.dataBitmap < sb.inodeBitmap ==> sb.dataBitmap * BLOCK + BLOCK <= sb.inodeBitmap * BLOCK;
    assert sb.inodeBitmap < sb.dataBitmap ==> sb.inodeBitmap * BLOCK + BLOCK <= sb.dataBitmap * BLOCK;
    BitsKept(d, a, bytes, d', sb.dataBitmap, sb.nblocks - sb.dataStart);
    InodesKept(d, a, bytes, d', sb);
    BlocksKept(d, a, bytes, d', sb);
  }

  lemma DataBitWritten(d: Disk, d': Disk, sb: Super, k: nat, on: bool)
    requires Geometry(sb, d) && k < sb.nblocks - sb.dataStart
    requires Patched(d, sb.dataBitmap * BLOCK + k / 8, [SetBit(Peek(d, sb.dataBitmap * BLOCK + k / 8), k % 8, on)], d')
    ensures Geometry(sb, d')
    ensures View(d', sb) == View(d, sb).(dataBits := if on then View(d, sb).dataBits + {k} else View(d, sb).dataBits - {k})
  {
    var a := sb.dataBitmap * BLOCK + k / 8;
    var bytes := [SetBit(Peek(d, a), k % 8, on)];
    assert a + 1 <= sb.dataBitmap * BLOCK + BLOCK <= sb.tableStart * BLOCK;
    BitWritten(d, d', sb.dataBitmap, sb.nblocks - sb.dataStart, k, on);
    assert sb.dataBitmap < sb.inodeBitmap ==> sb.dataBitmap * BLOCK + BLOCK <= sb.inodeBitmap * BLOCK;
    assert sb.inodeBitmap < sb.dataBitmap ==> sb.inodeBitmap * BLOCK + BLOCK <= sb.dataBitmap * BLOCK;
    BitsKept(d, a, bytes, d', sb.inodeBitmap, sb.ninodes);
    InodesKept(d, a, bytes, d', sb);
    BlocksKept(d, a, bytes, d', sb);
  }
}
