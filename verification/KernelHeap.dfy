/**
 The kernel heap: a list of blocks threaded through the memory it manages, searched first-fit, with
 a back offset before each payload that leads `dealloc` to its header.

 Memory is 64-bit words at addresses that are multiples of eight.  A header is four words: the size
 of the block, whether it is free, and an optional pointer to the next header.
 */
module KernelHeap {
  import opened Basics

  const HEADER: nat := 32
  const WORD: nat := 8
  const MIN_SPLIT: nat := 48

  type Memory = map<nat, nat>

  // ---- alignment ----

  predicate PowerOfTwo(a: nat) {
    a == 1 || (a > 1 && a % 2 == 0 && PowerOfTwo(a / 2))
  }

  predicate Aligned(x: nat, a: nat)
    requires a > 0
  {
    x % a == 0
  }

  /** The least multiple of `a` at or above `x`. */
  function RoundUp(x: nat, a: nat): nat
    requires a > 0
  {
    (x + a - 1) / a * a
  }

  lemma AtLeastOne(n: nat, a: nat)
    requires n >= 1
    ensures n * a >= a
  {}

  lemma QuotientUnique(x: nat, a: nat, q: nat, r: nat)
    requires a > 0 && x == q * a + r && r < a
    ensures x / a == q && x % a == r
  {
    var q' := x / a;
    assert x == q' * a + x % a;
    assert (q' - q) * a == r - x % a;
    if q' > q { AtLeastOne(q' - q, a); }
    if q' < q { AtLeastOne(q - q', a); }
  }

  /** Rounding up gives the least multiple at or above `x`. */
  lemma RoundUpIs(x: nat, a: nat)
    requires a > 0
    ensures x <= RoundUp(x, a) < x + a && RoundUp(x, a) % a == 0
    ensures x % a == 0 ==> RoundUp(x, a) == x
  {
    var q, r := (x + a - 1) / a, (x + a - 1) % a;
    assert x + a - 1 == q * a + r;
    QuotientUnique(q * a, a, q, 0);
    if x % a == 0 {
      assert x + a - 1 == x / a * a + (a - 1);
      QuotientUnique(x + a - 1, a, x / a, a - 1);
    }
  }

  /** An alignment divides eight or is a multiple of it. */
  lemma {:induction false} SmallOrMultiple(a: nat)
    requires PowerOfTwo(a)
    ensures a == 1 || a == 2 || a == 4 || a % 8 == 0
    decreases a
  {
    if a > 1 {
      var h := a / 2;
      SmallOrMultiple(h);
      assert a == 2 * h;
    }
  }

  lemma MultipleOfMultiple(x: nat, a: nat)
    requires a > 0 && a % 8 == 0 && x % a == 0
    ensures x % 8 == 0
  {
    var k, m := x / a, a / 8;
    assert x == k * a && a == 8 * m;
    assert x == 8 * (k * m);
  }

  lemma EightFits(x: nat, a: nat)
    requires x % 8 == 0 && (a == 1 || a == 2 || a == 4)
    ensures x % a == 0
  {
    var q := x / 8;
    assert x == 8 * q;
    if a == 1 {
      assert x % 1 == 0;
    } else if a == 2 {
      assert x == 2 * (4 * q);
      assert x % 2 == 0;
    } else {
      assert x == 4 * (2 * q);
      assert x % 4 == 0;
    }
  }

  // ---- where things go ----

  /** Where the payload of a block with its header at `h` starts. */
  function DataStart(h: nat, align: nat): nat
    requires align > 0
  {
    RoundUp(h + HEADER + WORD, align)
  }

  /** How much of a block with its header at `h` a request takes. */
  function Need(h: nat, size: nat, align: nat): nat
    requires align > 0
  {
    RoundUp(DataStart(h, align) - h + size, WORD)
  }

  lemma Placement(h: nat, size: nat, align: nat)
    requires h % 8 == 0 && PowerOfTwo(align)
    ensures align > 0
    ensures var p := DataStart(h, align);
            && h + HEADER + WORD <= p && p % align == 0 && p % 8 == 0
            && p + size <= h + Need(h, size, align) && Need(h, size, align) % 8 == 0
  {
    assert align > 0;
    hide PowerOfTwo, RoundUp;
    SmallOrMultiple(align);
    var x := h + HEADER + WORD;
    RoundUpIs(x, align);
    var p := DataStart(h, align);
    if align % 8 == 0 {
      MultipleOfMultiple(p, align);
    } else {
      EightFits(x, align);
    }
    RoundUpIs(p - h + size, WORD);
  }

  // ---- the same in 64 bits ----

  /** What a `Layout` that may be passed to `alloc` is: not empty, and at most `isize::MAX` when padded to its alignment. */
  predicate LayoutOk(size: nat, align: nat) {
    PowerOfTwo(align) && 0 < size && size + align <= 0x8000_0000_0000_0000
  }

  /** `data_start`, as computed. */
  function DataStart64(h: Address, align: nat): Address
    requires align > 0
  {
    AlignUp((h + HEADER + WORD) % U64_LIMIT, align)
  }

  /** `alloc_size`, as computed. */
  function Need64(h: Address, size: nat, align: nat): Address
    requires align > 0
  {
    AlignUp(((DataStart64(h, align) as int - h) % U64_LIMIT + size) % U64_LIMIT, WORD)
  }

  /** A power of two divides every larger one. */
  lemma {:induction false} PowerDivides(a: nat, m: nat)
    requires PowerOfTwo(a) && PowerOfTwo(m) && a <= m
    ensures a > 0 && m % a == 0
    decreases a
  {
    if a > 1 {
      var x, y := a / 2, m / 2;
      PowerDivides(x, y);
      var q := y / x;
      assert y == q * x && a == 2 * x && m == 2 * y;
      assert m == q * a;
      QuotientUnique(m, a, q, 0);
    }
  }

  lemma {:induction false} PowerTimes(a: nat, b: nat)
    requires PowerOfTwo(a) && PowerOfTwo(b)
    ensures PowerOfTwo(a * b)
    decreases a
  {
    if a > 1 {
      var x := a / 2;
      PowerTimes(x, b);
      assert a == 2 * x;
      assert a * b == 2 * (x * b);
      Positive(x, b);
    }
  }

  lemma Positive(x: nat, y: nat)
    requires PowerOfTwo(x) && PowerOfTwo(y)
    ensures x * y > 0
  {}

  lemma LimitIsPower()
    ensures PowerOfTwo(U64_LIMIT)
  {
    assert PowerOfTwo(2) && PowerOfTwo(4) && PowerOfTwo(8) && PowerOfTwo(16);
    PowerTimes(16, 16);
    PowerTimes(256, 256);
    PowerTimes(65536, 65536);
    PowerTimes(0x1_0000_0000, 0x1_0000_0000);
  }

  lemma Modulo(x: nat, m: nat)
    requires m <= x < m + m
    ensures x % m == x - m
  {
    QuotientUnique(x, m, 1, x - m);
  }

  lemma NoWrap(x: Address, a: nat)
    requires a > 0 && x + a <= U64_LIMIT
    ensures AlignUp(x, a) == RoundUp(x, a)
  {
    QuotientUnique(x + a - 1, U64_LIMIT, 0, x + a - 1);
  }

  lemma RoundsTo(x: nat, a: nat, m: nat)
    requires a > 0 && m % a == 0 && x <= m < x + a
    ensures RoundUp(x, a) == m
  {
    var q := m / a;
    assert m == q * a;
    QuotientUnique(x + a - 1, a, q, x + a - 1 - m);
  }

  /** A sum that does not fit 64 bits rounds to zero; without the wrap it would round to the limit. */
  lemma Wraps(x: Address, a: nat)
    requires PowerOfTwo(a) && a <= U64_LIMIT < x + a
    ensures a > 0 && AlignUp(x, a) == 0 && RoundUp(x, a) == U64_LIMIT
  {
    hide PowerOfTwo, RoundUp;
    LimitIsPower();
    PowerDivides(a, U64_LIMIT);
    RoundsTo(x, a, U64_LIMIT);
    Modulo(x + a - 1, U64_LIMIT);
    QuotientUnique(x + a - 1 - U64_LIMIT, a, 0, x + a - 1 - U64_LIMIT);
  }

  /** An offset that reaches the end of the block leaves no room. */
  lemma LargeOffset(offset: nat, size: nat, sz: nat)
    requires offset >= sz && 0 < size && offset + size + WORD <= U64_LIMIT
    ensures AlignUp(offset + size, WORD) > sz
  {
    hide RoundUp, AlignUp;
    NoWrap(offset + size, WORD);
    RoundUpIs(offset + size, WORD);
  }

  /** The payload starts within the address space. */
  lemma NearFits(h: Address, size: nat, align: nat)
    requires 0 < align && 0 < size && size + align <= 0x8000_0000_0000_0000 && h + HEADER + WORD + align <= U64_LIMIT
    ensures DataStart64(h, align) == DataStart(h, align) && Need64(h, size, align) == Need(h, size, align)
  {
    hide RoundUp, AlignUp;
    var x := h + HEADER + WORD;
    Small(x);
    NoWrap(x, align);
    RoundUpIs(x, align);
    var offset := DataStart(h, align) - h;
    assert DataStart64(h, align) == DataStart(h, align);
    Small(offset);
    Small(offset + size);
    NoWrap(offset + size, WORD);
  }

  lemma Negative(x: nat)
    requires 0 < x < U64_LIMIT
    ensures (0 - x) % U64_LIMIT == U64_LIMIT - x
  {}

  lemma Small(x: nat)
    requires x < U64_LIMIT
    ensures x % U64_LIMIT == x
  {}

  /** Rounding up carries past the end of the address space. */
  lemma FarFails(b: Block, size: nat, align: nat)
    requires LayoutOk(size, align) && align > 0 && b.at + b.sz <= U64_LIMIT
    requires b.at + HEADER + WORD < U64_LIMIT < b.at + HEADER + WORD + align
    ensures Need64(b.at, size, align) > b.sz && Need(b.at, size, align) > b.sz
  {
    hide RoundUp, AlignUp, PowerOfTwo;
    Wraps(b.at + HEADER + WORD, align);
    assert DataStart64(b.at, align) == 0 by { Small(b.at + HEADER + WORD); }
    Negative(b.at);
    LargeOffset(U64_LIMIT - b.at, size, b.sz);
    RoundUpIs(DataStart(b.at, align) - b.at + size, WORD);
  }

  /** The first place for a payload is the end of the address space. */
  lemma EdgeFails(b: Block, size: nat, align: nat)
    requires LayoutOk(size, align) && align > 0 && b.at + HEADER + WORD == U64_LIMIT && b.at + b.sz <= U64_LIMIT
    ensures Need64(b.at, size, align) > b.sz && Need(b.at, size, align) > b.sz
  {
    hide RoundUp, AlignUp, PowerOfTwo;
    NoWrap(0, align);
    RoundUpIs(0, align);
    assert DataStart64(b.at, align) == 0 by { assert U64_LIMIT % U64_LIMIT == 0; }
    Negative(b.at);
    Small(U64_LIMIT - b.at + size);
    LargeOffset(U64_LIMIT - b.at, size, b.sz);
    RoundUpIs(b.at + HEADER + WORD, align);
    RoundUpIs(DataStart(b.at, align) - b.at + size, WORD);
  }

  /** The header is the last thing in the address space. */
  lemma LastFails(b: Block, size: nat, align: nat)
    requires LayoutOk(size, align) && align > 0 && b.at % 8 == 0 && b.at + HEADER == U64_LIMIT && b.sz == HEADER
    ensures Need64(b.at, size, align) > b.sz && Need(b.at, size, align) > b.sz
  {
    hide RoundUp, AlignUp, PowerOfTwo;
    var x := b.at + HEADER + WORD;
    assert x % U64_LIMIT == WORD;
    NoWrap(WORD, align);
    RoundUpIs(WORD, align);
    var d := DataStart64(b.at, align);
    assert (d as int - b.at) % U64_LIMIT == d + HEADER;
    LargeOffset(d + HEADER, size, b.sz);
    RoundUpIs(x, align);
    RoundUpIs(DataStart(b.at, align) - b.at + size, WORD);
  }

  /**
   On a block inside the address space, the wrapped sums fit if and only if the exact ones do, and
   then they are the same.
   */
  lemma WrapHarmless(b: Block, size: nat, align: nat)
    requires LayoutOk(size, align) && align > 0 && b.at + b.sz <= U64_LIMIT && HEADER <= b.sz && b.at % 8 == 0
    ensures b.sz >= Need64(b.at, size, align) <==> b.sz >= Need(b.at, size, align)
    ensures b.sz >= Need(b.at, size, align) ==> DataStart64(b.at, align) == DataStart(b.at, align) && Need64(b.at, size, align) == Need(b.at, size, align)
  {
    hide PowerOfTwo, Need, Need64, DataStart, DataStart64;
    if b.at + HEADER + WORD + align <= U64_LIMIT {
      NearFits(b.at, size, align);
    } else if b.at + HEADER + WORD < U64_LIMIT {
      FarFails(b, size, align);
    } else if b.at + HEADER == U64_LIMIT {
      LastFails(b, size, align);
    } else {
      EdgeFails(b, size, align);
    }
  }

  // ---- blocks ----

  datatype Payload = Payload(ptr: nat, size: nat, align: nat)
  datatype Block = Block(at: nat, sz: nat, used: Option<Payload>)

  /** The words of the heap are there. */
  ghost predicate Backed(m: Memory, start: nat, end: nat) {
    forall a: nat | a % 8 == 0 && start <= a && a + WORD <= end :: a in m
  }

  /** The blocks lie one after the other from `start` to `end`. */
  ghost predicate Tiled(bs: seq<Block>, start: nat, end: nat) {
    && bs != [] && bs[0].at == start && bs[|bs| - 1].at + bs[|bs| - 1].sz == end
    && (forall i | 0 <= i < |bs| - 1 :: bs[i].at + bs[i].sz == bs[i + 1].at)
    && (forall i | 0 <= i < |bs| :: bs[i].at % 8 == 0 && bs[i].sz >= HEADER)
  }

  /** The header of a block, as it is in memory. */
  predicate HeaderOn(m: Memory, b: Block, next: Option<nat>) {
    && b.at in m && b.at + 8 in m && b.at + 16 in m && b.at + 24 in m
    && m[b.at] == b.sz && (m[b.at + 8] != 0) == b.used.None?
    && (if next.None? then m[b.at + 16] == 0 else m[b.at + 16] == 1 && m[b.at + 24] == next.value)
  }

  /** The payload lies in its block, aligned, and the word before it leads back to the header. */
  predicate PayloadOn(m: Memory, b: Block) {
    b.used.Some? ==>
      var p := b.used.value;
      && PowerOfTwo(p.align) && p.align > 0 && p.ptr == DataStart(b.at, p.align) && Need(b.at, p.size, p.align) <= b.sz
      && b.at + HEADER + WORD <= p.ptr && Aligned(p.ptr, p.align) && p.ptr % 8 == 0 && p.ptr + p.size <= b.at + b.sz
      && p.ptr - WORD in m && m[p.ptr - WORD] == p.ptr - b.at
  }

  function NextOf(bs: seq<Block>, i: nat): Option<nat>
    requires i < |bs|
  {
    if i + 1 < |bs| then Some(bs[i + 1].at) else None
  }

  ghost predicate HeapOk(m: Memory, bs: seq<Block>, start: nat, end: nat) {
    && Backed(m, start, end) && Tiled(bs, start, end)
    && (forall i | 0 <= i < |bs| :: HeaderOn(m, bs[i], NextOf(bs, i)) && PayloadOn(m, bs[i]))
  }

  /** Sizes of all blocks together. */
  function Total(bs: seq<Block>): nat {
    if bs == [] then 0 else bs[0].sz + Total(bs[1..])
  }

  lemma {:induction false} TiledTotal(bs: seq<Block>, start: nat, end: nat)
    requires Tiled(bs, start, end)
    ensures Total(bs) == end - start
    decreases |bs|
  {
    if |bs| > 1 {
      assert forall i | 0 <= i < |bs[1..]| - 1 :: bs[1..][i].at + bs[1..][i].sz == bs[1..][i + 1].at by {
        forall i | 0 <= i < |bs[1..]| - 1 ensures bs[1..][i].at + bs[1..][i].sz == bs[1..][i + 1].at {
          assert bs[i + 1].at + bs[i + 1].sz == bs[i + 1 + 1].at;
        }
      }
      TiledTotal(bs[1..], bs[1].at, end);
      assert bs[0].at + bs[0].sz == bs[0 + 1].at;
    }
  }

  lemma {:induction false} TiledOrder(bs: seq<Block>, start: nat, end: nat, i: nat, j: nat)
    requires Tiled(bs, start, end) && i < j < |bs|
    ensures bs[i].at + bs[i].sz <= bs[j].at
    decreases j
  {
    if i + 1 < j {
      TiledOrder(bs, start, end, i, j - 1);
      assert bs[j - 1].at + bs[j - 1].sz == bs[j - 1 + 1].at;
    } else {
      assert bs[i].at + bs[i].sz == bs[i + 1].at;
    }
  }

  lemma {:induction false} TiledWithin(bs: seq<Block>, start: nat, end: nat, i: nat)
    requires Tiled(bs, start, end) && i < |bs|
    ensures start <= bs[i].at && bs[i].at + bs[i].sz <= end
  {
    if i > 0 { TiledOrder(bs, start, end, 0, i); }
    if i < |bs| - 1 { TiledOrder(bs, start, end, i, |bs| - 1); }
  }

  // ---- requests ----

  /** The block can serve the request. */
  predicate Fits(b: Block, size: nat, align: nat)
    requires align > 0
  {
    b.used.None? && b.sz >= Need(b.at, size, align)
  }

  /** The block has room for an aligned payload at `p`, behind a header and the payload's back offset. */
  predicate HasRoom(b: Block, size: nat, align: nat, p: nat)
    requires align > 0
  {
    p % align == 0 && b.at + HEADER + WORD <= p && p + size <= b.at + b.sz
  }

  lemma RoundUpLeast(x: nat, a: nat, y: nat)
    requires a > 0 && x <= y && y % a == 0
    ensures RoundUp(x, a) <= y
  {
    RoundUpIs(x, a);
    var z := RoundUp(x, a);
    hide RoundUp;
    var q, r := y / a, z / a;
    assert y == q * a && z == r * a;
    if r > q { AtLeastOne(r - q, a); }
  }

  /** A free block serves a request if and only if there is room for it anywhere in the block. */
  lemma FitsExactly(b: Block, size: nat, align: nat)
    requires b.at % 8 == 0 && b.sz % 8 == 0 && PowerOfTwo(align)
    ensures align > 0 && (Fits(b, size, align) <==> b.used.None? && exists p: nat :: HasRoom(b, size, align, p))
  {
    Placement(b.at, size, align);
    hide PowerOfTwo, RoundUp;
    if Fits(b, size, align) {
      assert HasRoom(b, size, align, DataStart(b.at, align));
    }
    if p: nat :| HasRoom(b, size, align, p) {
      RoundUpLeast(b.at + HEADER + WORD, align, p);
      RoundUpLeast(DataStart(b.at, align) - b.at + size, WORD, b.sz);
    }
  }

  /** A request for one word takes 48 bytes. */
  lemma OneWord(h: nat)
    requires h % 8 == 0
    ensures Need(h, WORD, WORD) == 48
  {
    hide RoundUp;
    RoundUpIs(h + HEADER + WORD, WORD);
    RoundUpIs(HEADER + WORD + WORD, WORD);
    assert DataStart(h, WORD) == h + HEADER + WORD;
  }

  /** What is left of a block becomes a block of its own if and only if it could serve a request for one word. */
  lemma SplitExactly(b: Block, size: nat, align: nat)
    requires b.at % 8 == 0 && b.sz % 8 == 0 && PowerOfTwo(align) && align > 0 && Fits(b, size, align)
    ensures |Served(b, size, align)| == 2 <==>
            Fits(Block(b.at + Need(b.at, size, align), b.sz - Need(b.at, size, align), None), WORD, WORD)
  {
    hide PowerOfTwo, Need, DataStart;
    Placement(b.at, size, align);
    OneWord(b.at + Need(b.at, size, align));
  }

  /** Block `i` is the first that can serve the request. */
  ghost predicate FirstFit(bs: seq<Block>, i: nat, size: nat, align: nat)
    requires align > 0
  {
    i < |bs| && Fits(bs[i], size, align) && forall j | 0 <= j < i :: !Fits(bs[j], size, align)
  }

  /** The block that serves the request, and what is split off behind it. */
  function Served(b: Block, size: nat, align: nat): seq<Block>
    requires align > 0 && Fits(b, size, align)
  {
    var need := Need(b.at, size, align);
    var p := Some(Payload(DataStart(b.at, align), size, align));
    if b.sz - need >= MIN_SPLIT then [Block(b.at, need, p), Block(b.at + need, b.sz - need, None)] else [Block(b.at, b.sz, p)]
  }

  /** The blocks after block `i` has been replaced by others that cover the same ground. */
  function Replaced(bs: seq<Block>, i: nat, mid: seq<Block>): seq<Block>
    requires i < |bs|
  {
    bs[..i] + mid + bs[i + 1..]
  }

  /** Memory changed only inside one block. */
  ghost predicate OnlyIn(m: Memory, m': Memory, b: Block) {
    m'.Keys == m.Keys && forall a: nat | a in m && !(b.at <= a < b.at + b.sz) :: m'[a] == m[a]
  }

  lemma OtherHeader(m: Memory, m': Memory, b: Block, c: Block, next: Option<nat>)
    requires OnlyIn(m, m', b) && HeaderOn(m, c, next) && PayloadOn(m, c) && c.sz >= HEADER
    requires c.at + c.sz <= b.at || b.at + b.sz <= c.at
    ensures HeaderOn(m', c, next) && PayloadOn(m', c)
  {}

  lemma BlockKept(m: Memory, m': Memory, bs: seq<Block>, start: nat, end: nat, i: nat, k: nat)
    requires HeapOk(m, bs, start, end) && i < |bs| && k < |bs| && k != i && OnlyIn(m, m', bs[i])
    ensures HeaderOn(m', bs[k], NextOf(bs, k)) && PayloadOn(m', bs[k])
  {
    hide HeaderOn, PayloadOn, OnlyIn;
    if k < i { TiledOrder(bs, start, end, k, i); } else { TiledOrder(bs, start, end, i, k); }
    OtherHeader(m, m', bs[i], bs[k], NextOf(bs, k));
  }

  lemma TiledOne(bs: seq<Block>, start: nat, end: nat, i: nat, b: Block)
    requires Tiled(bs, start, end) && i < |bs| && b.at == bs[i].at && b.sz == bs[i].sz
    ensures Tiled(bs[i := b], start, end)
    ensures forall k | 0 <= k < |bs| :: NextOf(bs[i := b], k) == NextOf(bs, k)
  {}

  /** One block replaced by one block at the same place. */
  lemma ReplaceOne(m: Memory, m': Memory, bs: seq<Block>, start: nat, end: nat, i: nat, b: Block)
    requires HeapOk(m, bs, start, end) && i < |bs| && OnlyIn(m, m', bs[i]) && b.at == bs[i].at && b.sz == bs[i].sz
    requires HeaderOn(m', b, NextOf(bs, i)) && PayloadOn(m', b)
    ensures HeapOk(m', bs[i := b], start, end)
  {
    hide HeaderOn, PayloadOn, Tiled, NextOf;
    var bs' := bs[i := b];
    TiledOne(bs, start, end, i, b);
    forall k | 0 <= k < |bs'| ensures HeaderOn(m', bs'[k], NextOf(bs', k)) && PayloadOn(m', bs'[k]) {
      if k != i { BlockKept(m, m', bs, start, end, i, k); }
    }
  }

  function TwoAt(bs: seq<Block>, i: nat, b: Block, c: Block, k: nat): Block
    requires i < |bs| && k <= |bs|
  {
    if k < i then bs[k] else if k == i then b else if k == i + 1 then c else bs[k - 1]
  }

  lemma TwoNext(bs: seq<Block>, i: nat, b: Block, c: Block)
    requires i < |bs| && b.at == bs[i].at
    ensures var bs' := Replaced(bs, i, [b, c]);
            && |bs'| == |bs| + 1 && (forall k | 0 <= k < |bs'| :: bs'[k] == TwoAt(bs, i, b, c, k))
            && NextOf(bs', i) == Some(c.at) && NextOf(bs', i + 1) == NextOf(bs, i)
            && (forall k | 0 <= k < i :: NextOf(bs', k) == NextOf(bs, k))
            && (forall k | i + 1 < k < |bs'| :: NextOf(bs', k) == NextOf(bs, k - 1))
  {}

  lemma TiledTwo(bs: seq<Block>, start: nat, end: nat, i: nat, b: Block, c: Block)
    requires Tiled(bs, start, end) && i < |bs|
    requires b.at == bs[i].at && c.at == b.at + b.sz && b.sz + c.sz == bs[i].sz && b.sz >= HEADER && c.sz >= HEADER && c.at % 8 == 0
    ensures var bs' := Replaced(bs, i, [b, c]);
            && |bs'| == |bs| + 1 && Tiled(bs', start, end)
            && (forall k | 0 <= k < |bs'| :: bs'[k] == TwoAt(bs, i, b, c, k))
            && NextOf(bs', i) == Some(c.at) && NextOf(bs', i + 1) == NextOf(bs, i)
            && (forall k | 0 <= k < i :: NextOf(bs', k) == NextOf(bs, k))
            && (forall k | i + 1 < k < |bs'| :: NextOf(bs', k) == NextOf(bs, k - 1))
  {
    hide NextOf, Replaced;
    var bs' := Replaced(bs, i, [b, c]);
    TwoNext(bs, i, b, c);
    assert bs[i].at + bs[i].sz == c.at + c.sz;
    forall k | 0 <= k < |bs'| - 1 ensures bs'[k].at + bs'[k].sz == bs'[k + 1].at {
      if k < i { assert bs[k].at + bs[k].sz == bs[k + 1].at; }
      if k > i { assert bs[k - 1].at + bs[k - 1].sz == bs[k - 1 + 1].at; }
    }
  }

  /** One block replaced by two that share its ground. */
  lemma ReplaceTwo(m: Memory, m': Memory, bs: seq<Block>, start: nat, end: nat, i: nat, b: Block, c: Block)
    requires HeapOk(m, bs, start, end) && i < |bs| && OnlyIn(m, m', bs[i])
    requires b.at == bs[i].at && c.at == b.at + b.sz && b.sz + c.sz == bs[i].sz && b.sz >= HEADER && c.sz >= HEADER && c.at % 8 == 0
    requires HeaderOn(m', b, Some(c.at)) && PayloadOn(m', b) && HeaderOn(m', c, NextOf(bs, i)) && PayloadOn(m', c)
    ensures HeapOk(m', Replaced(bs, i, [b, c]), start, end)
  {
    hide HeaderOn, PayloadOn, Tiled, NextOf, Replaced;
    var bs' := Replaced(bs, i, [b, c]);
    TiledTwo(bs, start, end, i, b, c);
    forall k | 0 <= k < |bs'| ensures HeaderOn(m', bs'[k], NextOf(bs', k)) && PayloadOn(m', bs'[k]) {
      if k < i {
        BlockKept(m, m', bs, start, end, i, k);
      } else if k > i + 1 {
        BlockKept(m, m', bs, start, end, i, k - 1);
      }
    }
  }

  // ---- the writes ----

  /** A block consumed whole: its free flag and its back offset. */
  function ServeWhole(m: Memory, b: Block, p: nat): Memory
    requires WORD <= p && b.at <= p
  {
    m[b.at + 8 := 0][p - WORD := p - b.at]
  }

  /** A block split: its header, the back offset, and a header for what is left. */
  function ServeSplit(m: Memory, b: Block, p: nat, need: nat): Memory
    requires WORD <= p && b.at <= p && need <= b.sz && b.at + 16 in m && b.at + 24 in m
  {
    var n := b.at + need;
    m[b.at := need][b.at + 8 := 0][p - WORD := p - b.at]
    [n := b.sz - need][n + 8 := 1][n + 16 := m[b.at + 16]][n + 24 := m[b.at + 24]]
    [b.at + 16 := 1][b.at + 24 := n]
  }

  /** Where a request lands in a block that fits it. */
  ghost predicate Lands(m: Memory, b: Block, p: nat, size: nat, align: nat, need: nat) {
    && PowerOfTwo(align) && align > 0 && p == DataStart(b.at, align) && need == Need(b.at, size, align)
    && b.at % 8 == 0 && b.at + HEADER + WORD <= p && Aligned(p, align) && p % 8 == 0
    && p + size <= b.at + need && need % 8 == 0 && need <= b.sz
    && (forall a: nat | a % 8 == 0 && b.at <= a && a + WORD <= b.at + b.sz :: a in m)
  }

  lemma LandsIn(m: Memory, bs: seq<Block>, start: nat, end: nat, i: nat, size: nat, align: nat)
    requires HeapOk(m, bs, start, end) && PowerOfTwo(align) && align > 0 && i < |bs| && Fits(bs[i], size, align)
    ensures Lands(m, bs[i], DataStart(bs[i].at, align), size, align, Need(bs[i].at, size, align))
    ensures HeaderOn(m, bs[i], NextOf(bs, i)) && HEADER <= bs[i].sz
  {
    Placement(bs[i].at, size, align);
    TiledWithin(bs, start, end, i);
  }

  lemma WholeWrites(m: Memory, b: Block, next: Option<nat>, p: nat, size: nat, align: nat, need: nat)
    requires HeaderOn(m, b, next) && Lands(m, b, p, size, align, need)
    ensures var m' := ServeWhole(m, b, p);
            var b' := Block(b.at, b.sz, Some(Payload(p, size, align)));
            OnlyIn(m, m', b) && HeaderOn(m', b', next) && PayloadOn(m', b')
  {
    hide PowerOfTwo, DataStart, Need, Aligned;
    assert p - WORD in m;
  }

  lemma SplitValues(m: Memory, b: Block, p: nat, need: nat)
    requires b.at in m && b.at + 8 in m && b.at + 16 in m && b.at + 24 in m && WORD <= p && p - WORD in m && need <= b.sz
    requires var n := b.at + need; n in m && n + 8 in m && n + 16 in m && n + 24 in m
    requires b.at + HEADER + WORD <= p <= b.at + need && MIN_SPLIT <= b.sz - need
    ensures var m' := ServeSplit(m, b, p, need);
            var n := b.at + need;
            && m'.Keys == m.Keys
            && m'[b.at] == need && m'[b.at + 8] == 0 && m'[b.at + 16] == 1 && m'[b.at + 24] == n && m'[p - WORD] == p - b.at
            && m'[n] == b.sz - need && m'[n + 8] == 1 && m'[n + 16] == m[b.at + 16] && m'[n + 24] == m[b.at + 24]
            && OnlyIn(m, m', b)
  {}

  lemma SplitWrites(m: Memory, b: Block, next: Option<nat>, p: nat, size: nat, align: nat, need: nat)
    requires HeaderOn(m, b, next) && Lands(m, b, p, size, align, need) && b.sz - need >= MIN_SPLIT
    ensures var m' := ServeSplit(m, b, p, need);
            var b' := Block(b.at, need, Some(Payload(p, size, align)));
            var c := Block(b.at + need, b.sz - need, None);
            && OnlyIn(m, m', b) && HeaderOn(m', b', Some(c.at)) && PayloadOn(m', b') && HeaderOn(m', c, next) && PayloadOn(m', c)
  {
    hide PowerOfTwo, DataStart, Need, Aligned, ServeSplit, OnlyIn;
    var n := b.at + need;
    assert p - WORD in m && n in m && n + 8 in m && n + 16 in m && n + 24 in m;
    SplitValues(m, b, p, need);
  }

  lemma WholeOk(m: Memory, bs: seq<Block>, start: nat, end: nat, i: nat, size: nat, align: nat)
    requires HeapOk(m, bs, start, end) && PowerOfTwo(align) && align > 0 && i < |bs| && Fits(bs[i], size, align)
    requires bs[i].sz - Need(bs[i].at, size, align) < MIN_SPLIT
    ensures var p := DataStart(bs[i].at, align);
            && WORD <= p && bs[i].at <= p && OnlyIn(m, ServeWhole(m, bs[i], p), bs[i])
            && HeapOk(ServeWhole(m, bs[i], p), Replaced(bs, i, Served(bs[i], size, align)), start, end)
  {
    hide DataStart, Need, HeapOk, HeaderOn, PayloadOn, OnlyIn, ServeWhole, NextOf, PowerOfTwo;
    LandsIn(m, bs, start, end, i, size, align);
    var b := bs[i];
    var p := DataStart(b.at, align);
    var b' := Block(b.at, b.sz, Some(Payload(p, size, align)));
    WholeWrites(m, b, NextOf(bs, i), p, size, align, Need(b.at, size, align));
    ReplaceOne(m, ServeWhole(m, b, p), bs, start, end, i, b');
    assert Replaced(bs, i, Served(b, size, align)) == bs[i := b'];
  }

  ghost predicate SplitServed(m: Memory, bs: seq<Block>, start: nat, end: nat, i: nat, size: nat, align: nat, p: nat, need: nat)
    requires i < |bs| && align > 0
  {
    && Fits(bs[i], size, align) && need <= bs[i].sz
    && WORD <= p && bs[i].at <= p && bs[i].at + 16 in m && bs[i].at + 24 in m && OnlyIn(m, ServeSplit(m, bs[i], p, need), bs[i])
    && HeapOk(ServeSplit(m, bs[i], p, need), Replaced(bs, i, Served(bs[i], size, align)), start, end)
  }

  lemma SplitOk(m: Memory, bs: seq<Block>, start: nat, end: nat, i: nat, size: nat, align: nat)
    requires HeapOk(m, bs, start, end) && PowerOfTwo(align) && align > 0 && i < |bs| && Fits(bs[i], size, align)
    requires bs[i].sz - Need(bs[i].at, size, align) >= MIN_SPLIT
    ensures SplitServed(m, bs, start, end, i, size, align, DataStart(bs[i].at, align), Need(bs[i].at, size, align))
  {
    hide DataStart, Need, HeapOk, OnlyIn, NextOf, PayloadOn, HeaderOn, PowerOfTwo, ServeSplit, Replaced, Aligned;
    LandsIn(m, bs, start, end, i, size, align);
    var b := bs[i];
    var p := DataStart(b.at, align);
    var need := Need(b.at, size, align);
    SplitWrites(m, b, NextOf(bs, i), p, size, align, need);
    ReplaceTwo(m, ServeSplit(m, b, p, need), bs, start, end, i, Block(b.at, need, Some(Payload(p, size, align))), Block(b.at + need, b.sz - need, None));
  }

  // ---- operations on values ----

  /** The first block from position `i` on that can serve the request. */
  function FitFrom(bs: seq<Block>, size: nat, align: nat, i: nat): Option<nat>
    requires align > 0
    decreases |bs| - i
  {
    if i >= |bs| then None else if Fits(bs[i], size, align) then Some(i) else FitFrom(bs, size, align, i + 1)
  }

  lemma {:induction false} FitFromIs(bs: seq<Block>, size: nat, align: nat, i: nat)
    requires align > 0
    ensures match FitFrom(bs, size, align, i)
            case None => forall j | i <= j < |bs| :: !Fits(bs[j], size, align)
            case Some(k) => i <= k < |bs| && Fits(bs[k], size, align) && forall j | i <= j < k :: !Fits(bs[j], size, align)
    decreases |bs| - i
  {
    if i < |bs| && !Fits(bs[i], size, align) { FitFromIs(bs, size, align, i + 1); }
  }

  /** Block `i` holds the live payload at `ptr`. */
  predicate LiveAt(bs: seq<Block>, i: nat, ptr: nat) {
    i < |bs| && bs[i].used.Some? && bs[i].used.value.ptr == ptr
  }

  /** Word `w` belongs to the payload of block `b`. */
  predicate InPayload(b: Block, w: nat) {
    b.used.Some? && w % 8 == 0 && b.used.value.ptr <= w < b.used.value.ptr + b.used.value.size
  }

  lemma BlockOk(m: Memory, bs: seq<Block>, start: nat, end: nat, i: nat)
    requires HeapOk(m, bs, start, end) && i < |bs|
    ensures HeaderOn(m, bs[i], NextOf(bs, i)) && PayloadOn(m, bs[i]) && HEADER <= bs[i].sz
  {}

  lemma ClientWrites(m: Memory, b: Block, next: Option<nat>, w: nat, v: nat)
    requires HeaderOn(m, b, next) && PayloadOn(m, b) && InPayload(b, w) && w in m
    ensures HeaderOn(m[w := v], b, next) && PayloadOn(m[w := v], b) && OnlyIn(m, m[w := v], b)
  {}

  /** A client may overwrite its payload without harm to the heap. */
  lemma ClientOk(m: Memory, bs: seq<Block>, start: nat, end: nat, i: nat, w: nat, v: nat)
    requires HeapOk(m, bs, start, end) && i < |bs| && InPayload(bs[i], w) && w in m
    ensures HeapOk(m[w := v], bs, start, end)
  {
    hide HeapOk, HeaderOn, PayloadOn, OnlyIn, NextOf, InPayload;
    BlockOk(m, bs, start, end, i);
    ClientWrites(m, bs[i], NextOf(bs, i), w, v);
    ReplaceOne(m, m[w := v], bs, start, end, i, bs[i]);
    assert bs[i := bs[i]] == bs;
  }

  lemma FreeWrites(m: Memory, b: Block, next: Option<nat>)
    requires HeaderOn(m, b, next) && HEADER <= b.sz
    ensures b.at + 8 in m
    ensures var m' := m[b.at + 8 := 1];
            HeaderOn(m', b.(used := None), next) && PayloadOn(m', b.(used := None)) && OnlyIn(m, m', b)
  {}

  /** Marking the block of a live payload free. */
  lemma FreeOk(m: Memory, bs: seq<Block>, start: nat, end: nat, i: nat)
    requires HeapOk(m, bs, start, end) && i < |bs| && bs[i].used.Some?
    ensures bs[i].at + 8 in m && HeapOk(m[bs[i].at + 8 := 1], bs[i := bs[i].(used := None)], start, end)
    ensures OnlyIn(m, m[bs[i].at + 8 := 1], bs[i])
  {
    hide HeapOk, HeaderOn, PayloadOn, OnlyIn, NextOf;
    BlockOk(m, bs, start, end, i);
    FreeWrites(m, bs[i], NextOf(bs, i));
    ReplaceOne(m, m[bs[i].at + 8 := 1], bs, start, end, i, bs[i].(used := None));
  }

  /** Live payloads are aligned, inside the heap, and do not overlap. */
  lemma LivePayloads(m: Memory, bs: seq<Block>, start: nat, end: nat, i: nat, j: nat)
    requires HeapOk(m, bs, start, end) && i < |bs| && j < |bs| && i != j && bs[i].used.Some? && bs[j].used.Some?
    ensures var p, q := bs[i].used.value, bs[j].used.value;
            && p.align > 0 && Aligned(p.ptr, p.align) && start < p.ptr && p.ptr + p.size <= end
            && (p.ptr + p.size <= q.ptr || q.ptr + q.size <= p.ptr)
  {
    TiledWithin(bs, start, end, i);
    assert PayloadOn(m, bs[i]) && PayloadOn(m, bs[j]);
    if i < j { TiledOrder(bs, start, end, i, j); } else { TiledOrder(bs, start, end, j, i); }
  }

  /** A live pointer belongs to one block, and the word before it leads to that block's header. */
  lemma BackOffset(m: Memory, bs: seq<Block>, start: nat, end: nat, i: nat, ptr: nat)
    requires HeapOk(m, bs, start, end) && LiveAt(bs, i, ptr)
    ensures WORD <= ptr && ptr - WORD in m && ptr - m[ptr - WORD] == bs[i].at
    ensures forall j | 0 <= j < |bs| && j != i :: !LiveAt(bs, j, ptr)
  {
    hide PowerOfTwo, DataStart, Need, Aligned, HeaderOn, NextOf, Tiled;
    assert PayloadOn(m, bs[i]);
    forall j | 0 <= j < |bs| && j != i ensures !LiveAt(bs, j, ptr) {
      assert PayloadOn(m, bs[j]);
      if j < i { TiledOrder(bs, start, end, j, i); } else { TiledOrder(bs, start, end, i, j); }
    }
  }

  /** After a payload is freed, the same request fits its block again. */
  lemma FreedFits(m: Memory, bs: seq<Block>, start: nat, end: nat, i: nat)
    requires HeapOk(m, bs, start, end) && i < |bs| && bs[i].used.Some?
    ensures var p := bs[i].used.value;
            p.align > 0 && Fits(bs[i].(used := None), p.size, p.align) && FitFrom(bs[i := bs[i].(used := None)], p.size, p.align, 0).Some?
  {
    BlockOk(m, bs, start, end, i);
    hide HeapOk, Need, FitFrom;
    var p := bs[i].used.value;
    var bs' := bs[i := bs[i].(used := None)];
    assert Fits(bs'[i], p.size, p.align);
    FitFromIs(bs', p.size, p.align, 0);
  }

  // ---- the allocator ----

  /** `new`: a range that starts at zero or cannot hold a header is refused. */
  method NewHeap(start: nat, end: nat, mem: Memory) returns (h: Option<Heap>)
    requires start % 8 == 0 && Backed(mem, start, end)
    ensures h.None? <==> start + HEADER > end || start == 0
    ensures h.Some? ==> fresh(h.value) && h.value.Valid() && h.value.start == start && h.value.end == end
    ensures h.Some? ==> h.value.blocks == [Block(start, end - start, None)]
  {
    if start + HEADER > end || start == 0 {
      return None;
    }
    var heap := new Heap(start, end, mem);
    h := Some(heap);
  }

  class Heap {
    const start: nat
    const end: nat
    var mem: Memory
    ghost var blocks: seq<Block>

    ghost predicate Valid()
      reads this
    {
      HeapOk(mem, blocks, start, end)
    }

    /** `new`: one free block over the whole range. */
    constructor (start: nat, end: nat, mem: Memory)
      requires start % 8 == 0 && start + HEADER <= end && Backed(mem, start, end)
      ensures Valid() && blocks == [Block(start, end - start, None)] && this.start == start && this.end == end
    {
      this.start, this.end := start, end;
      this.mem := mem[start := end - start][start + 8 := 1][start + 16 := 0];
      blocks := [Block(start, end - start, None)];
    }

    /** `alloc`: walks the list, with sums in 64 bits; no block that fits is a kernel panic, here `None`. */
    method Alloc(size: nat, align: nat) returns (r: Option<nat>)
      requires Valid() && LayoutOk(size, align) && align > 0 && end <= U64_LIMIT
      modifies this
      ensures Valid()
      ensures r.None? ==> mem == old(mem) && blocks == old(blocks) && forall i | 0 <= i < |blocks| :: !Fits(blocks[i], size, align)
      ensures r.Some? ==> AllocatedBy(old(mem), old(blocks), mem, blocks, size, align, r.value)
      ensures r.Some? ==> HeapStep(old(mem), old(blocks), AllocOp(size, align), mem, blocks)
    {
      hide DataStart64, Need64, Need, DataStart, PowerOfTwo, HeapOk, HeaderOn, OnlyIn, ServeWhole, ServeSplit, Served, Replaced;
      ghost var i := 0;
      HeadBlock(mem, blocks, start, end);
      var cur := start;
      while true
        invariant i < |blocks| && cur == blocks[i].at && mem == old(mem) && blocks == old(blocks)
        invariant forall j | 0 <= j < i :: !Fits(blocks[j], size, align)
        decreases |blocks| - i
      {
        ReadHeader(mem, blocks, start, end, i);
        InSpace(mem, blocks, start, end, i);
        WrapHarmless(blocks[i], size, align);
        var p := DataStart64(cur, align);
        var need := Need64(cur, size, align);
        if mem[cur + 8] != 0 && mem[cur] >= need {
          ghost var b := blocks[i];
          var sz := mem[cur];
          if sz - need >= MIN_SPLIT {
            SplitOk(mem, blocks, start, end, i, size, align);
            WriteSplit(b, cur, p, need, sz);
          } else {
            WholeOk(mem, blocks, start, end, i, size, align);
            WriteWhole(b, cur, p);
          }
          blocks := Replaced(blocks, i, Served(b, size, align));
          Allocated(old(mem), old(blocks), mem, i, size, align);
          return Some(p);
        }
        if mem[cur + 16] == 0 {
          return None;
        }
        cur := mem[cur + 24];
        i := i + 1;
      }
    }

    method WriteWhole(ghost b: Block, cur: nat, p: nat)
      requires b.at == cur && WORD <= p && cur <= p
      modifies this`mem
      ensures mem == ServeWhole(old(mem), b, p)
    {
      mem := mem[cur + 8 := 0];
      mem := mem[p - WORD := p - cur];
    }

    method WriteSplit(ghost b: Block, cur: nat, p: nat, need: nat, sz: nat)
      requires b.at == cur && b.sz == sz && WORD <= p && cur <= p && need <= sz && cur + 16 in mem && cur + 24 in mem
      modifies this`mem
      ensures mem == ServeSplit(old(mem), b, p, need)
    {
      var tag, next := mem[cur + 16], mem[cur + 24];
      mem := mem[cur := need];
      mem := mem[cur + 8 := 0];
      mem := mem[p - WORD := p - cur];
      var n := cur + need;
      mem := mem[n := sz - need];
      mem := mem[n + 8 := 1];
      mem := mem[n + 16 := tag];
      mem := mem[n + 24 := next];
      mem := mem[cur + 16 := 1];
      mem := mem[cur + 24 := n];
    }

    /** `dealloc` of a live payload: the word before it leads to the header, which becomes free. */
    method Dealloc(ptr: nat, ghost i: nat)
      requires Valid() && LiveAt(blocks, i, ptr)
      modifies this
      ensures Valid() && blocks == old(blocks)[i := old(blocks)[i].(used := None)] && mem == old(mem)[old(blocks)[i].at + 8 := 1]
      ensures OnlyIn(old(mem), mem, old(blocks)[i]) && HeapStep(old(mem), old(blocks), FreeOp(ptr), mem, blocks)
    {
      hide HeapOk, OnlyIn;
      BackOffset(mem, blocks, start, end, i, ptr);
      FreeOk(mem, blocks, start, end, i);
      var h := ptr - mem[ptr - WORD];
      mem := mem[h + 8 := 1];
      blocks := blocks[i := blocks[i].(used := None)];
    }

    /** A client writes into its own payload. */
    method ClientWrite(w: nat, v: nat, ghost i: nat)
      requires Valid() && i < |blocks| && InPayload(blocks[i], w) && w in mem
      modifies this`mem
      ensures Valid() && mem == old(mem)[w := v] && HeapStep(old(mem), blocks, WriteOp(w, v), mem, blocks)
    {
      ClientOk(mem, blocks, start, end, i, w, v);
      mem := mem[w := v];
    }
  }

  /** Memory after block `b` has served the request. */
  ghost predicate MemoryServed(m: Memory, b: Block, size: nat, align: nat, m': Memory)
    requires align > 0
  {
    var p, need := DataStart(b.at, align), Need(b.at, size, align);
    && WORD <= p && b.at <= p && need <= b.sz && b.at + 16 in m && b.at + 24 in m
    && m' == if b.sz - need >= MIN_SPLIT then ServeSplit(m, b, p, need) else ServeWhole(m, b, p)
  }

  /** The first block that fits has served the request. */
  ghost predicate AllocatedBy(m: Memory, bs: seq<Block>, m': Memory, bs': seq<Block>, size: nat, align: nat, ptr: nat)
    requires align > 0
  {
    exists i: nat ::
      && FirstFit(bs, i, size, align) && bs' == Replaced(bs, i, Served(bs[i], size, align))
      && ptr == DataStart(bs[i].at, align) && MemoryServed(m, bs[i], size, align, m')
  }

  lemma Allocated(m: Memory, bs: seq<Block>, m': Memory, i: nat, size: nat, align: nat)
    requires align > 0 && FirstFit(bs, i, size, align) && MemoryServed(m, bs[i], size, align, m')
    ensures AllocatedBy(m, bs, m', Replaced(bs, i, Served(bs[i], size, align)), size, align, DataStart(bs[i].at, align))
  {}

  lemma ServedOk(m: Memory, bs: seq<Block>, start: nat, end: nat, i: nat, size: nat, align: nat, m': Memory)
    requires HeapOk(m, bs, start, end) && PowerOfTwo(align) && align > 0 && i < |bs| && Fits(bs[i], size, align)
    requires MemoryServed(m, bs[i], size, align, m')
    ensures HeapOk(m', Replaced(bs, i, Served(bs[i], size, align)), start, end) && OnlyIn(m, m', bs[i])
  {
    hide Need, DataStart, HeapOk, OnlyIn, ServeSplit, ServeWhole, Replaced, Served;
    if bs[i].sz - Need(bs[i].at, size, align) >= MIN_SPLIT {
      SplitOk(m, bs, start, end, i, size, align);
    } else {
      WholeOk(m, bs, start, end, i, size, align);
    }
  }

  lemma InSpace(m: Memory, bs: seq<Block>, start: nat, end: nat, i: nat)
    requires HeapOk(m, bs, start, end) && i < |bs|
    ensures bs[i].at + bs[i].sz <= end && HEADER <= bs[i].sz && bs[i].at % 8 == 0
  {
    TiledWithin(bs, start, end, i);
  }

  lemma HeadBlock(m: Memory, bs: seq<Block>, start: nat, end: nat)
    requires HeapOk(m, bs, start, end)
    ensures bs != [] && bs[0].at == start
  {}

  /** What the allocator reads of block `i`. */
  predicate Reads(m: Memory, bs: seq<Block>, i: nat)
    requires i < |bs|
  {
    var h := bs[i].at;
    && h in m && h + 8 in m && h + 16 in m && h + 24 in m
    && m[h] == bs[i].sz && (m[h + 8] != 0) == bs[i].used.None?
    && (m[h + 16] == 0 <==> i == |bs| - 1) && (i < |bs| - 1 ==> m[h + 24] == bs[i + 1].at)
  }

  lemma ReadHeader(m: Memory, bs: seq<Block>, start: nat, end: nat, i: nat)
    requires HeapOk(m, bs, start, end) && i < |bs|
    ensures Reads(m, bs, i)
  {}

  /** Every live payload keeps its words while another request is served or another payload freed. */
  lemma PayloadsKept(m: Memory, m': Memory, bs: seq<Block>, start: nat, end: nat, i: nat, j: nat, w: nat)
    requires HeapOk(m, bs, start, end) && i < |bs| && j < |bs| && i != j && OnlyIn(m, m', bs[i]) && InPayload(bs[j], w) && w in m
    ensures w in m' && m'[w] == m[w]
  {
    assert PayloadOn(m, bs[j]);
    if i < j { TiledOrder(bs, start, end, i, j); } else { TiledOrder(bs, start, end, j, i); }
  }

  // ---- whole runs ----

  datatype HeapOp = AllocOp(size: nat, align: nat) | FreeOp(ptr: nat) | WriteOp(w: nat, v: nat)

  /** One request, release or client write; a request that nothing fits ends the run in a panic. */
  ghost predicate HeapStep(m: Memory, bs: seq<Block>, op: HeapOp, m': Memory, bs': seq<Block>) {
    match op
    case AllocOp(size, align) =>
      PowerOfTwo(align) && align > 0 && exists ptr: nat :: AllocatedBy(m, bs, m', bs', size, align, ptr)
    case FreeOp(ptr) =>
      exists i: nat :: LiveAt(bs, i, ptr) && m' == m[bs[i].at + 8 := 1] && bs' == bs[i := bs[i].(used := None)]
    case WriteOp(w, v) =>
      bs' == bs && w in m && m' == m[w := v] && exists i: nat :: i < |bs| && InPayload(bs[i], w)
  }

  lemma HeapStepOk(m: Memory, bs: seq<Block>, op: HeapOp, m': Memory, bs': seq<Block>, start: nat, end: nat)
    requires HeapOk(m, bs, start, end) && HeapStep(m, bs, op, m', bs')
    ensures HeapOk(m', bs', start, end)
  {
    hide HeapOk, MemoryServed, Need, DataStart, Served, Replaced, PowerOfTwo;
    match op
    case AllocOp(size, align) =>
      var ptr: nat :| AllocatedBy(m, bs, m', bs', size, align, ptr);
      var i: nat :| && FirstFit(bs, i, size, align) && bs' == Replaced(bs, i, Served(bs[i], size, align))
                    && ptr == DataStart(bs[i].at, align) && MemoryServed(m, bs[i], size, align, m');
      ServedOk(m, bs, start, end, i, size, align, m');
    case FreeOp(ptr) =>
      var i: nat :| LiveAt(bs, i, ptr) && m' == m[bs[i].at + 8 := 1] && bs' == bs[i := bs[i].(used := None)];
      FreeOk(m, bs, start, end, i);
    case WriteOp(w, v) =>
      var i: nat :| i < |bs| && InPayload(bs[i], w);
      ClientOk(m, bs, start, end, i, w, v);
  }

  datatype HeapState = HeapState(mem: Memory, blocks: seq<Block>)

  ghost predicate HeapRun(ss: seq<HeapState>, ops: seq<HeapOp>) {
    |ss| == |ops| + 1 && forall k | 0 <= k < |ops| :: HeapStep(ss[k].mem, ss[k].blocks, ops[k], ss[k + 1].mem, ss[k + 1].blocks)
  }

  /** Integrity after every sequence of requests, releases and client writes. */
  lemma {:induction false} HeapRunOk(ss: seq<HeapState>, ops: seq<HeapOp>, start: nat, end: nat, k: nat)
    requires HeapRun(ss, ops) && k < |ss| && HeapOk(ss[0].mem, ss[0].blocks, start, end)
    ensures HeapOk(ss[k].mem, ss[k].blocks, start, end) && Total(ss[k].blocks) == end - start
    decreases k
  {
    hide HeapStep, HeapOk;
    if k > 0 {
      HeapRunOk(ss, ops, start, end, k - 1);
      assert HeapStep(ss[k - 1].mem, ss[k - 1].blocks, ops[k - 1], ss[k - 1 + 1].mem, ss[k - 1 + 1].blocks);
      HeapStepOk(ss[k - 1].mem, ss[k - 1].blocks, ops[k - 1], ss[k].mem, ss[k].blocks, start, end);
    }
    HeapTotal(ss[k].mem, ss[k].blocks, start, end);
  }

  /** The sizes of the blocks sum to the length of the heap. */
  lemma HeapTotal(m: Memory, bs: seq<Block>, start: nat, end: nat)
    requires HeapOk(m, bs, start, end)
    ensures Total(bs) == end - start
  {
    TiledTotal(bs, start, end);
  }
}
