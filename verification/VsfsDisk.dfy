/**
 The disk of the file system: sectors of bytes, addressed by byte, and the fixed-size records kept
 on it.  The kernel decodes these records and the image tool encodes them; both directions of the
 agreement are proved here.
 */
module VsfsDisk {
  import opened Basics

  type Octet = n: nat | n < 256

  const SECTOR: nat := 512
  const BLOCK: nat := 4096
  const SECTORS_PER_BLOCK: nat := 8

  type Sector = s: seq<Octet> | |s| == SECTOR witness seq(SECTOR, _ => 0)
  type Disk = seq<Sector>

  function Size(d: Disk): nat {
    SECTOR * |d|
  }

  /** The byte at address `a`. */
  function Peek(d: Disk, a: nat): Octet
    requires a < Size(d)
  {
    d[a / SECTOR][a % SECTOR]
  }

  /** The `n` bytes from address `a` on. */
  function Bytes(d: Disk, a: nat, n: nat): (s: seq<Octet>)
    requires a + n <= Size(d)
    ensures |s| == n && forall i | 0 <= i < n :: s[i] == Peek(d, a + i)
  {
    seq<Octet>(n, i requires 0 <= i < n => Peek(d, a + i))
  }

  /** One sector with `bytes` written from offset `off` on. */
  function Spliced(s: seq<Octet>, off: nat, bytes: seq<Octet>): (r: seq<Octet>)
    requires off + |bytes| <= |s|
    ensures |r| == |s|
    ensures forall i | 0 <= i < |s| :: r[i] == if off <= i < off + |bytes| then bytes[i - off] else s[i]
  {
    s[..off] + bytes + s[off + |bytes|..]
  }

  /** `d'` is `d` with `bytes` written at address `a`. */
  ghost predicate Patched(d: Disk, a: nat, bytes: seq<Octet>, d': Disk) {
    && a + |bytes| <= Size(d) && |d'| == |d|
    && (forall x: nat | x < Size(d) :: Peek(d', x) == if a <= x < a + |bytes| then bytes[x - a] else Peek(d, x))
  }

  /** One byte of a patched disk. */
  function PatchedByte(d: Disk, a: nat, bytes: seq<Octet>, x: nat): Octet
    requires x < Size(d)
  {
    if a <= x < a + |bytes| then bytes[x - a] else Peek(d, x)
  }

  /** The disk with `bytes` written at address `a`. */
  function Patch(d: Disk, a: nat, bytes: seq<Octet>): (d': Disk)
    requires a + |bytes| <= Size(d)
    ensures Patched(d, a, bytes, d')
  {
    var d': Disk := seq(|d|, s requires 0 <= s < |d| => PatchSector(d, a, bytes, s));
    d'
  }

  function PatchSector(d: Disk, a: nat, bytes: seq<Octet>, s: nat): (r: Sector)
    requires s < |d|
    ensures forall i | 0 <= i < SECTOR :: r[i] == PatchedByte(d, a, bytes, SECTOR * s + i)
  {
    var r: seq<Octet> := seq<Octet>(SECTOR, i requires 0 <= i < SECTOR => PatchedByte(d, a, bytes, SECTOR * s + i));
    r
  }

  /** Rewriting one sector with some bytes spliced in patches the disk. */
  lemma SectorPatch(d: Disk, i: nat, off: nat, bytes: seq<Octet>)
    requires i < |d| && off + |bytes| <= SECTOR
    ensures Patched(d, SECTOR * i + off, bytes, d[i := Spliced(d[i], off, bytes)])
  {}

  /** A run of bytes that does not meet the patch is not changed by it. */
  lemma PatchElsewhere(d: Disk, a: nat, bytes: seq<Octet>, d': Disk, b: nat, n: nat)
    requires Patched(d, a, bytes, d') && b + n <= Size(d) && (b + n <= a || a + |bytes| <= b)
    ensures Bytes(d', b, n) == Bytes(d, b, n)
  {}

  lemma PatchHere(d: Disk, a: nat, bytes: seq<Octet>, d': Disk)
    requires Patched(d, a, bytes, d')
    ensures Bytes(d', a, |bytes|) == bytes
  {}

  // ---- little-endian numbers ----

  function Word(b0: Octet, b1: Octet, b2: Octet, b3: Octet): U32 {
    b0 as int + 0x100 * (b1 as int + 0x100 * (b2 as int + 0x100 * b3 as int))
  }

  function WordAt(s: seq<Octet>, i: nat): U32
    requires i + 4 <= |s|
  {
    Word(s[i], s[i + 1], s[i + 2], s[i + 3])
  }

  function WordBytes(n: U32): (s: seq<Octet>)
    ensures |s| == 4
  {
    var n1 := n as int / 0x100;
    var n2 := n1 / 0x100;
    [n as int % 0x100, n1 % 0x100, n2 % 0x100, n2 / 0x100]
  }

  function HalfAt(s: seq<Octet>, i: nat): U16
    requires i + 2 <= |s|
  {
    s[i] as int + 0x100 * s[i + 1] as int
  }

  function HalfBytes(n: U16): (s: seq<Octet>)
    ensures |s| == 2
  {
    [n as int % 0x100, n as int / 0x100]
  }

  /** Several words one after the other. */
  function WordsBytes(ws: seq<U32>): (s: seq<Octet>)
    ensures |s| == 4 * |ws|
  {
    seq(4 * |ws|, i requires 0 <= i < 4 * |ws| => WordBytes(ws[i / 4])[i % 4])
  }

  function WordsAt(s: seq<Octet>, i: nat, n: nat): (ws: seq<U32>)
    requires i + 4 * n <= |s|
    ensures |ws| == n
  {
    seq(n, j requires 0 <= j < n => WordAt(s, i + 4 * j))
  }

  lemma WordInside(s: seq<Octet>, i: nat, n: U32)
    requires i + 4 <= |s| && s[i..i + 4] == WordBytes(n)
    ensures WordAt(s, i) == n
  {}

  lemma WordOf(ws: seq<U32>, j: nat)
    requires j < |ws|
    ensures WordsBytes(ws)[4 * j..4 * j + 4] == WordBytes(ws[j])
  {}

  // ---- inode records ----

  const DIRECTORY: U16 := 1
  const FILE: U16 := 2
  const DIRECT_BLOCKS: nat := 12
  const INDIRECT_ENTRIES: nat := 1024
  const INODE_SIZE: nat := 64

  type Pointers = s: seq<U32> | |s| == DIRECT_BLOCKS witness seq(DIRECT_BLOCKS, _ => 0)

  /** `INodeInner`. */
  datatype INode = INode(ty: U16, links: U16, dev: U32, sz: U32, direct: Pointers, indirect: U32)

  function InodeBytes(ino: INode): (s: seq<Octet>)
    ensures |s| == INODE_SIZE
  {
    HalfBytes(ino.ty) + HalfBytes(ino.links) + WordBytes(ino.dev) + WordBytes(ino.sz)
    + WordsBytes(ino.direct) + WordBytes(ino.indirect)
  }

  function InodeOf(s: seq<Octet>): INode
    requires |s| == INODE_SIZE
  {
    INode(HalfAt(s, 0), HalfAt(s, 2), WordAt(s, 4), WordAt(s, 8), WordsAt(s, 12, DIRECT_BLOCKS), WordAt(s, 60))
  }

  /** What is written as an inode record is what is read back. */
  lemma InodeRoundTrip(ino: INode)
    ensures InodeOf(InodeBytes(ino)) == ino
  {
    hide InodeBytes, WordBytes, WordAt, HalfBytes, HalfAt, WordsBytes;
    var s := InodeBytes(ino);
    InodeFields(ino);
    HalfInside(s, 0, ino.ty);
    HalfInside(s, 2, ino.links);
    WordInside(s, 4, ino.dev);
    WordInside(s, 8, ino.sz);
    WordInside(s, 60, ino.indirect);
    forall j | 0 <= j < DIRECT_BLOCKS ensures WordAt(s, 12 + 4 * j) == ino.direct[j] {
      WordOf(ino.direct, j);
      SliceInside(s, 12, 60, 4 * j, 4);
      WordInside(s, 12 + 4 * j, ino.direct[j]);
    }
    assert WordsAt(s, 12, DIRECT_BLOCKS) == ino.direct;
  }

  /** Where the fields of an inode record are. */
  lemma InodeFields(ino: INode)
    ensures var s := InodeBytes(ino);
            && s[0..2] == HalfBytes(ino.ty) && s[2..4] == HalfBytes(ino.links)
            && s[4..8] == WordBytes(ino.dev) && s[8..12] == WordBytes(ino.sz)
            && s[12..60] == WordsBytes(ino.direct) && s[60..64] == WordBytes(ino.indirect)
  {
    hide WordBytes, HalfBytes, WordsBytes;
    var half := HalfBytes(ino.ty) + HalfBytes(ino.links);
    var head := half + WordBytes(ino.dev) + WordBytes(ino.sz);
    var s := InodeBytes(ino);
    assert |half| == 4 && |head| == 12 && |WordsBytes(ino.direct)| == 48;
    assert s == head + WordsBytes(ino.direct) + WordBytes(ino.indirect);
    assert head[..4] == half && head[4..8] == WordBytes(ino.dev) && head[8..] == WordBytes(ino.sz);
    assert half[..2] == HalfBytes(ino.ty) && half[2..] == HalfBytes(ino.links);
    assert s[..12] == head && s[12..60] == WordsBytes(ino.direct) && s[60..] == WordBytes(ino.indirect);
    SliceInside(s, 0, 12, 0, 4);
    SliceInside(s, 0, 12, 4, 4);
    SliceInside(s, 0, 12, 8, 4);
    SliceInside(s, 0, 4, 0, 2);
    SliceInside(s, 0, 4, 2, 2);
  }

  lemma SliceInside(s: seq<Octet>, from: nat, to: nat, i: nat, n: nat)
    requires from + i + n <= to <= |s|
    ensures s[from + i..from + i + n] == s[from..to][i..i + n]
  {
    var l, r := s[from + i..from + i + n], s[from..to][i..i + n];
    forall k | 0 <= k < n ensures l[k] == r[k] {
      assert l[k] == s[from + i + k] && r[k] == s[from..to][i + k];
    }
  }

  lemma HalfInside(s: seq<Octet>, i: nat, n: U16)
    requires i + 2 <= |s| && s[i..i + 2] == HalfBytes(n)
    ensures HalfAt(s, i) == n
  {
    assert s[i] == s[i..i + 2][0] && s[i + 1] == s[i..i + 2][1];
  }

  // ---- directory entries ----

  const DIRENT_SIZE: nat := 32
  const NAME_MAX: nat := 27

  type NameField = s: seq<Octet> | |s| == NAME_MAX witness seq(NAME_MAX, _ => 0)

  /** `DirEnt`: only the first `nameLen` bytes of `name` count. */
  datatype DirEnt = DirEnt(inum: U32, nameLen: Octet, name: NameField)

  function DirEntBytes(e: DirEnt): (s: seq<Octet>)
    ensures |s| == DIRENT_SIZE
  {
    WordBytes(e.inum) + [e.nameLen] + e.name
  }

  function DirEntOf(s: seq<Octet>): DirEnt
    requires |s| == DIRENT_SIZE
  {
    DirEnt(WordAt(s, 0), s[4], s[5..])
  }

  lemma DirEntRoundTrip(e: DirEnt)
    ensures DirEntOf(DirEntBytes(e)) == e
  {}

  /** The entry for `name`, its field padded with zeros. */
  function EntryFor(inum: U32, name: seq<Octet>): DirEnt
    requires |name| <= NAME_MAX
  {
    DirEnt(inum, |name|, name + seq(NAME_MAX - |name|, _ => 0))
  }

  /** The name an entry carries, if its length is one. */
  function NameOf(e: DirEnt): (s: seq<Octet>)
    requires e.nameLen <= NAME_MAX
    ensures |s| == e.nameLen
  {
    e.name[..e.nameLen]
  }

  lemma EntryName(inum: U32, name: seq<Octet>)
    requires |name| <= NAME_MAX
    ensures NameOf(EntryFor(inum, name)) == name
  {}

  // ---- bitmaps ----

  /** Bit `k` of a number. */
  predicate BitOf(b: nat, k: nat) {
    if k == 0 then b % 2 == 1 else BitOf(b / 2, k - 1)
  }

  /** The number with bit `k` set or cleared: `b | 1 << k` or `b & !(1 << k)`. */
  function WithBit(b: nat, k: nat, on: bool): nat {
    if k == 0 then b / 2 * 2 + (if on then 1 else 0) else WithBit(b / 2, k - 1, on) * 2 + b % 2
  }

  lemma {:induction false} WithBitBits(b: nat, k: nat, on: bool, j: nat)
    ensures BitOf(WithBit(b, k, on), j) == if j == k then on else BitOf(b, j)
  {
    if k > 0 && j > 0 {
      assert WithBit(b, k, on) / 2 == WithBit(b / 2, k - 1, on);
      WithBitBits(b / 2, k - 1, on, j - 1);
    }
  }

  function Power(w: nat): nat {
    if w == 0 then 1 else 2 * Power(w - 1)
  }

  /** Setting a clear bit adds its power of two, and clearing a set one takes it away. */
  lemma {:induction false} WithBitPower(b: nat, k: nat)
    ensures !BitOf(b, k) ==> WithBit(b, k, true) == b + Power(k)
    ensures BitOf(b, k) ==> WithBit(b, k, false) == b - Power(k)
  {
    if k > 0 { WithBitPower(b / 2, k - 1); }
  }

  lemma {:induction false} WithBitBound(b: nat, k: nat, on: bool, w: nat)
    requires b < Power(w) && k < w
    ensures WithBit(b, k, on) < Power(w)
  {
    if k > 0 { WithBitBound(b / 2, k - 1, on, w - 1); }
  }

  function SetBit(b: Octet, k: nat, on: bool): (r: Octet)
    requires k < 8
    ensures forall j: nat :: BitOf(r, j) == if j == k then on else BitOf(b, j)
  {
    assert Power(8) == 256;
    WithBitBound(b, k, on, 8);
    assert forall j: nat :: BitOf(WithBit(b, k, on), j) == (if j == k then on else BitOf(b, j)) by {
      forall j: nat ensures BitOf(WithBit(b, k, on), j) == if j == k then on else BitOf(b, j) { WithBitBits(b, k, on, j); }
    }
    WithBit(b, k, on)
  }

  /** A zero byte has no bit set. */
  lemma {:induction false} ZeroBits(k: nat)
    ensures !BitOf(0, k)
  {
    if k > 0 { ZeroBits(k - 1); }
  }
}
