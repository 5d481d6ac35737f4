/**
 Sv39 page-table entries and virtual addresses, as laid out by section 4.4 of the RISC-V
 Privileged Architecture (version 20211203).

 An entry is modelled twice: packed, as the 64-bit word the hardware reads, and decoded, as
 its permission bits and frame number.  The packed operations are the shift-and-mask
 expressions of the kernel; the lemmas show that each of them computes on the packed word what
 the record operation of the same name computes on the decoded entry.
 */
module Sv39 {
  import opened Basics

  datatype Flags = Flags(v: bool, r: bool, w: bool, x: bool, u: bool, g: bool, a: bool, d: bool)
  {
    /** The union of two flag sets. */
    function Or(o: Flags): Flags {
      Flags(v || o.v, r || o.r, w || o.w, x || o.x, u || o.u, g || o.g, a || o.a, d || o.d)
    }

    function Without(o: Flags): Flags {
      Flags(v && !o.v, r && !o.r, w && !o.w, x && !o.x, u && !o.u, g && !o.g, a && !o.a, d && !o.d)
    }

    /** Every flag of `o` is set here. */
    predicate Contains(o: Flags) {
      (o.v ==> v) && (o.r ==> r) && (o.w ==> w) && (o.x ==> x) && (o.u ==> u)
      && (o.g ==> g) && (o.a ==> a) && (o.d ==> d)
    }

    predicate Rwx() {
      r || w || x
    }
  }

  const NONE := Flags(false, false, false, false, false, false, false, false)
  const V := NONE.(v := true)
  const R := NONE.(r := true)
  const W := NONE.(w := true)
  const U := NONE.(u := true)
  const RW := NONE.(r := true, w := true)
  const RWX := NONE.(r := true, w := true, x := true)
  const VAD := NONE.(v := true, a := true, d := true)

  /** A decoded entry: its flags and the frame number it names. */
  datatype Pte = Pte(flags: Flags, ppn: nat)
  {
    predicate Valid() { flags.v }

    predicate Leaf() { flags.v && flags.Rwx() }

    /** A valid entry that is not a leaf names the next-level table. */
    predicate Pointer() { flags.v && !flags.Rwx() }

    predicate UserLeaf() { Leaf() && flags.u }

    function SetFlags(f: Flags): Pte { Pte(flags.Or(f), ppn) }

    function UnsetFlags(f: Flags): Pte { Pte(flags.Without(f), ppn) }
  }

  const EMPTY := Pte(NONE, 0)

  // ---- packed entries ----

  const MASK_PPN: bv64 := 0x3F_FFFF_FFFF_FC00

  function FlagBits(f: Flags): bv64 {
    (if f.v then 1 else 0) | (if f.r then 2 else 0) | (if f.w then 4 else 0) | (if f.x then 8 else 0)
    | (if f.u then 16 else 0) | (if f.g then 32 else 0) | (if f.a then 64 else 0) | (if f.d then 128 else 0)
  }

  function DecodeFlags(b: bv64): Flags {
    Flags(b & 1 != 0, b & 2 != 0, b & 4 != 0, b & 8 != 0, b & 16 != 0, b & 32 != 0, b & 64 != 0, b & 128 != 0)
  }

  function PpnField(b: bv64): bv64 {
    (b & MASK_PPN) >> 10
  }

  function Decode(b: bv64): Pte {
    Pte(DecodeFlags(b), PpnField(b) as nat)
  }

  predicate IsValid(b: bv64) { b & 1 == 1 }

  predicate IsLeaf(b: bv64) { IsValid(b) && b & 0xe != 0 }

  predicate IsWritable(b: bv64) { b & 4 != 0 }

  predicate IsUser(b: bv64) { b & 16 != 0 }

  function SetFlags(b: bv64, bits: bv64): bv64 { b | bits }

  function UnsetFlags(b: bv64, bits: bv64): bv64 { b & !bits }

  function PhysicalAddress(b: bv64): bv64 { (b & MASK_PPN) << 2 }

  function SetPhysicalAddress(b: bv64, addr: bv64): bv64 {
    (!MASK_PPN & b) | (((addr >> 12) << 10) & MASK_PPN)
  }

  /** Packing flags and reading them back loses nothing and stays within the low eight bits. */
  lemma FlagsRoundTrip(f: Flags)
    ensures DecodeFlags(FlagBits(f)) == f
    ensures FlagBits(f) & !0xff == 0
  {
    assert FlagBits(f) & 1 != 0 <==> f.v;
    assert FlagBits(f) & 2 != 0 <==> f.r;
    assert FlagBits(f) & 4 != 0 <==> f.w;
    assert FlagBits(f) & 8 != 0 <==> f.x;
    assert FlagBits(f) & 16 != 0 <==> f.u;
    assert FlagBits(f) & 32 != 0 <==> f.g;
    assert FlagBits(f) & 64 != 0 <==> f.a;
    assert FlagBits(f) & 128 != 0 <==> f.d;
  }

  lemma OrBits(b: bv64, c: bv64)
    ensures DecodeFlags(b | c) == DecodeFlags(b).Or(DecodeFlags(c))
    ensures DecodeFlags(b & !c) == DecodeFlags(b).Without(DecodeFlags(c))
  {}

  lemma PpnUntouched(b: bv64, c: bv64)
    requires c & !0xff == 0
    ensures PpnField(b | c) == PpnField(b) && PpnField(b & !c) == PpnField(b)
  {}

  /** Setting or clearing flag bits of the word does so on the entry and keeps the frame. */
  lemma SetFlagsDecodes(b: bv64, bits: bv64)
    requires bits & !0xff == 0
    ensures Decode(SetFlags(b, bits)) == Decode(b).SetFlags(DecodeFlags(bits))
    ensures Decode(UnsetFlags(b, bits)) == Decode(b).UnsetFlags(DecodeFlags(bits))
  {
    OrBits(b, bits);
    PpnUntouched(b, bits);
  }

  /** The tests on the word are the tests on the entry. */
  lemma TestsDecode(b: bv64)
    ensures IsValid(b) == Decode(b).Valid()
    ensures IsLeaf(b) == Decode(b).Leaf()
    ensures IsWritable(b) == Decode(b).flags.w && IsUser(b) == Decode(b).flags.u
  {}

  /** The bit test that a flag word contains another is the test on the flags. */
  lemma ContainsDecodes(b: bv64, bits: bv64)
    requires bits & !0xff == 0
    ensures b & bits == bits <==> DecodeFlags(b).Contains(DecodeFlags(bits))
  {
    assert bits == (bits & 1) | (bits & 2) | (bits & 4) | (bits & 8) | (bits & 16) | (bits & 32) | (bits & 64) | (bits & 128);
  }

  lemma SetAddressFields(b: bv64, addr: bv64)
    ensures DecodeFlags(SetPhysicalAddress(b, addr)) == DecodeFlags(b)
    ensures PpnField(SetPhysicalAddress(b, addr)) == (addr >> 12) & 0xFFF_FFFF_FFFF
  {}

  /** Installing an address replaces the frame number and keeps every flag. */
  lemma SetAddressDecodes(b: bv64, addr: bv64)
    requires addr < 0x100_0000_0000_0000
    ensures Decode(SetPhysicalAddress(b, addr)) == Decode(b).(ppn := (addr >> 12) as nat)
  {
    SetAddressFields(b, addr);
    assert (addr >> 12) & 0xFFF_FFFF_FFFF == addr >> 12;
  }

  /**
   The address read back is the address installed exactly when it is page-aligned and fits the
   56 bits of a physical address; any other address is silently truncated.
   */
  lemma AddressRoundTrip(b: bv64, addr: bv64)
    ensures PhysicalAddress(SetPhysicalAddress(b, addr)) == addr
       <==> addr & 0xfff == 0 && addr < 0x100_0000_0000_0000
  {}

  // ---- virtual addresses ----

  const PAGE: nat := 4096
  const ENTRIES: nat := 512
  /** Virtual pages of a 39-bit address space. */
  const PAGES: nat := 0x800_0000

  /** The check of `VirtualAddress::from_raw`: bits 63 to 39 all equal bit 38. */
  predicate FromRawAccepts(addr: nat) {
    var sign := addr / 0x40_0000_0000 % 2;
    var upper := addr / 0x80_0000_0000;
    (sign == 0 && upper == 0) || (sign == 1 && upper == 0x200_0000 - 1)
  }

  /** The virtual page number: bits 38 to 12 of an address. */
  function PageOf(addr: nat): (v: nat)
    ensures v < PAGES
  {
    addr / PAGE % PAGES
  }

  /** Index of page `v` in its level-`l` table: VPN[2], VPN[1] and VPN[0]. */
  function Index(v: nat, l: nat): (i: nat)
    requires l <= 2
    ensures i < ENTRIES
  {
    if l == 0 then v % ENTRIES
    else if l == 1 then v / ENTRIES % ENTRIES
    else v / (ENTRIES * ENTRIES) % ENTRIES
  }

  lemma PageFields(q: nat)
    ensures q % PAGES % 512 == q % 512
    ensures q % PAGES / 512 % 512 == q / 512 % 512
    ensures q % PAGES / 262144 == q / 262144 % 512
  {
    var n, r := q / PAGES, q % PAGES;
    Quotient(q, r, PAGES, n, 512, 262144);
    Quotient(q, r, PAGES, n, 262144, 512);
    assert r / 262144 < 512;
    Remainder(r / 512, n, 512, 512);
    Remainder(r / 262144, n, 512, 1);
  }

  /** Adding a multiple of `d * k` to `r` adds a multiple of `k` to the quotient by `d`. */
  lemma Quotient(q: nat, r: nat, pages: nat, n: nat, d: nat, k: nat)
    requires d > 0 && pages == d * k && q == pages * n + r
    ensures q / d == k * n + r / d && q % d == r % d
  {
    var m := k * n + r / d;
    assert q == d * m + r % d by {
      assert pages * n == d * (k * n);
      assert d * m == d * (k * n) + d * (r / d);
    }
    Division(q, d, m, r % d);
  }

  lemma Division(x: nat, d: nat, m: nat, r: nat)
    requires d > 0 && x == d * m + r && r < d
    ensures x / d == m && x % d == r
  {
    var y := x / d;
    assert x == d * y + x % d;
    assert y < m ==> d * (y + 1) <= d * m;
    assert y > m ==> d * (m + 1) <= d * y;
  }

  lemma Remainder(r: nat, n: nat, d: nat, k: nat)
    requires d > 0
    ensures (d * k * n + r) % d == r % d
  {
    var m := k * n + r / d;
    assert d * k * n + r == d * m + r % d by {
      assert d * k * n == d * (k * n);
      assert d * m == d * (k * n) + d * (r / d);
    }
    Division(d * k * n + r, d, m, r % d);
  }

  /** Shifting the address by 12, 21 or 30 bits and masking gives the three indices. */
  lemma VpnFields(addr: nat)
    ensures Index(PageOf(addr), 0) == addr / 0x1000 % 512
    ensures Index(PageOf(addr), 1) == addr / 0x20_0000 % 512
    ensures Index(PageOf(addr), 2) == addr / 0x4000_0000 % 512
  {
    PageFields(addr / PAGE);
    assert addr / PAGE / 512 == addr / 0x20_0000;
    assert addr / PAGE / 262144 == addr / 0x4000_0000;
  }

  /** Accepted addresses are the two halves of the address space, and nothing else. */
  lemma AcceptedAddresses(addr: nat)
    requires addr < U64_LIMIT
    ensures FromRawAccepts(addr) <==> addr < 0x40_0000_0000 || addr >= U64_LIMIT - 0x40_0000_0000
  {}

  /** The canonical address of byte `off` of page `v`. */
  function Canonical(v: nat, off: nat): (addr: nat)
    requires v < PAGES && off < PAGE
  {
    if v < PAGES / 2 then v * PAGE + off
    else U64_LIMIT - 0x80_0000_0000 + v * PAGE + off
  }

  /** Canonical addresses and (page, offset) pairs correspond one to one. */
  lemma CanonicalBijection(addr: nat)
    requires addr < U64_LIMIT
    ensures FromRawAccepts(addr) <==> addr == Canonical(PageOf(addr), addr % PAGE)
    ensures forall v: nat, off: nat | v < PAGES && off < PAGE && addr == Canonical(v, off) ::
              v == PageOf(addr) && off == addr % PAGE
  {
    AcceptedAddresses(addr);
    hide FromRawAccepts;
    CanonicalHere(addr);
    forall v: nat, off: nat | v < PAGES && off < PAGE && addr == Canonical(v, off) ensures v == PageOf(addr) && off == addr % PAGE {
      CanonicalBack(v, off);
    }
  }

  lemma CanonicalHere(addr: nat)
    requires addr < U64_LIMIT
    ensures addr < 0x40_0000_0000 || addr >= U64_LIMIT - 0x40_0000_0000 <==> addr == Canonical(PageOf(addr), addr % PAGE)
  {
    var q := addr / PAGE;
    assert addr == q * PAGE + addr % PAGE && q < U64_LIMIT / PAGE;
  }

  lemma CanonicalBack(v: nat, off: nat)
    requires v < PAGES && off < PAGE
    ensures v == PageOf(Canonical(v, off)) && off == Canonical(v, off) % PAGE
  {
    var upper := (U64_LIMIT - 0x80_0000_0000) / PAGE;
    assert Canonical(v, off) == (if v < PAGES / 2 then v else upper + v) * PAGE + off;
  }

  /** A page is determined by its three indices. */
  lemma IndicesDetermine(u: nat, v: nat)
    requires u < PAGES && v < PAGES
    ensures u == v <==> Index(u, 2) == Index(v, 2) && Index(u, 1) == Index(v, 1) && Index(u, 0) == Index(v, 0)
    ensures u / ENTRIES == v / ENTRIES <==> Index(u, 2) == Index(v, 2) && Index(u, 1) == Index(v, 1)
    ensures u / (ENTRIES * ENTRIES) == v / (ENTRIES * ENTRIES) <==> Index(u, 2) == Index(v, 2)
  {
    hide Index;
    Digits(u);
    Digits(v);
  }

  /** The three indices are the digits of the page number. */
  lemma Digits(v: nat)
    requires v < PAGES
    ensures v / 262144 == Index(v, 2) && v / 512 == 512 * Index(v, 2) + Index(v, 1) && v == 512 * (v / 512) + Index(v, 0)
  {
    assert v / 512 / 512 == v / 262144;
  }
}
