/**
 What the other modules share: optional values, machine integers, ranges of numbers, and rounding as
 the kernel's helpers do it.
 */
module Basics {

  datatype Option<+T> = None | Some(value: T)

  type U16 = n: nat | n < 0x1_0000
  type U32 = n: nat | n < 0x1_0000_0000

  predicate Between(lo: nat, x: nat, hi: nat) {
    lo <= x < hi
  }

  /** The numbers from `lo` on below `hi`. */
  ghost function Span(lo: nat, hi: nat): (s: set<nat>)
    ensures forall x: nat :: x in s <==> lo <= x < hi
  {
    set x: nat | lo <= x < hi && Between(lo, x, hi)
  }

  /** One past the last 64-bit number. */
  const U64_LIMIT: nat := 0x1_0000_0000_0000_0000

  type Address = a: nat | a < U64_LIMIT

  /** `align_up`, for an alignment that is a power of two; the sum wraps around at 64 bits. */
  function AlignUp(a: Address, align: nat): Address
    requires align > 0
  {
    var sum := (a + align - 1) % U64_LIMIT;
    Below(sum, align);
    sum / align * align
  }

  lemma Below(x: nat, a: nat)
    requires a > 0
    ensures 0 <= x / a * a <= x
  {
    var q := x / a;
    assert x == q * a + x % a && q >= 0;
  }
}
