/**
 The sorted list of regions of an address space: looking up an address by binary search, adding
 pages, and moving the program break.  Addresses are 64-bit.
 */
module VmRegions {
  import opened Basics
  import opened Sv39

  datatype VmRegion = VmRegion(start: Address, end: Address, flags: Flags)

  /** `helper::align_down`. */
  function AlignDown(a: Address): Address {
    a / PAGE * PAGE
  }

  /** `VirtAddr::align_up`, to a page. */
  function PageUp(a: Address): Address {
    AlignUp(a, PAGE)
  }

  /** Rounding up gives the least page boundary at or above `a`, unless the last page is passed. */
  lemma AlignUpRounds(a: Address)
    ensures PageUp(a) % PAGE == 0
    ensures a <= U64_LIMIT - PAGE <==> a <= PageUp(a)
    ensures a <= U64_LIMIT - PAGE ==> PageUp(a) < a + PAGE
    ensures a > U64_LIMIT - PAGE ==> PageUp(a) == 0
  {}

  // ---- the list ----

  ghost predicate RegionsOk(rs: seq<VmRegion>) {
    && (forall i, j | 0 <= i < j < |rs| :: rs[i].start < rs[j].start)
    && (forall i | 0 <= i < |rs| :: rs[i].start % PAGE == 0 && rs[i].end == rs[i].start + PAGE)
  }

  /** The regions do not overlap. */
  lemma Disjoint(rs: seq<VmRegion>, i: nat, j: nat)
    requires RegionsOk(rs) && i < j < |rs|
    ensures rs[i].end <= rs[j].start
  {}

  /** The reference lookup: try the regions one after the other. */
  function Scan(rs: seq<VmRegion>, a: Address): Option<Flags> {
    if rs == [] then None
    else if rs[0].start <= a < rs[0].end then Some(rs[0].flags)
    else Scan(rs[1..], a)
  }

  lemma {:induction false} ScanFinds(rs: seq<VmRegion>, a: Address, i: nat)
    requires i < |rs| && rs[i].start <= a < rs[i].end
    requires forall j | 0 <= j < i :: !(rs[j].start <= a < rs[j].end)
    ensures Scan(rs, a) == Some(rs[i].flags)
  {
    if i > 0 {
      assert rs[1..][i - 1] == rs[i];
      ScanFinds(rs[1..], a, i - 1);
    }
  }

  lemma {:induction false} ScanMisses(rs: seq<VmRegion>, a: Address)
    requires forall j | 0 <= j < |rs| :: !(rs[j].start <= a < rs[j].end)
    ensures Scan(rs, a).None?
  {
    if rs != [] {
      ScanMisses(rs[1..], a);
    }
  }

  /** The permissions of each page in a region, by page number. */
  ghost function RegionMap(rs: seq<VmRegion>): map<nat, Flags>
    requires RegionsOk(rs)
  {
    map i | 0 <= i < |rs| :: rs[i].start / PAGE := rs[i].flags
  }

  lemma InRegion(rs: seq<VmRegion>, i: nat)
    requires RegionsOk(rs) && i < |rs|
    ensures rs[i].start / PAGE in RegionMap(rs) && RegionMap(rs)[rs[i].start / PAGE] == rs[i].flags
  {}

  lemma ScanIsMap(rs: seq<VmRegion>, a: Address)
    requires RegionsOk(rs)
    ensures Scan(rs, a) == if a / PAGE in RegionMap(rs) then Some(RegionMap(rs)[a / PAGE]) else None
  {}

  /** `binary_search_by_key` on the start addresses. */
  method Search(rs: seq<VmRegion>, key: Address) returns (found: bool, i: nat)
    requires RegionsOk(rs)
    ensures found ==> i < |rs| && rs[i].start == key
    ensures !found ==> i <= |rs|
    ensures !found ==> forall j | 0 <= j < i :: rs[j].start < key
    ensures !found ==> forall j | i <= j < |rs| :: key < rs[j].start
  {
    var lo, hi := 0, |rs|;
    while lo < hi
      invariant 0 <= lo <= hi <= |rs|
      invariant forall j | 0 <= j < lo :: rs[j].start < key
      invariant forall j | hi <= j < |rs| :: key < rs[j].start
    {
      var mid := (lo + hi) / 2;
      if rs[mid].start == key {
        return true, mid;
      } else if rs[mid].start < key {
        lo := mid + 1;
      } else {
        hi := mid;
      }
    }
    return false, lo;
  }

  /** The lookup of the fault handler agrees with the reference lookup. */
  method Lookup(rs: seq<VmRegion>, a: Address) returns (r: Option<Flags>)
    requires RegionsOk(rs)
    ensures r == Scan(rs, a)
  {
    var found, i := Search(rs, a);
    if found {
      forall j | 0 <= j < i ensures !(rs[j].start <= a < rs[j].end) { Disjoint(rs, j, i); }
      ScanFinds(rs, a, i);
      return Some(rs[i].flags);
    }
    if i > 0 && a < rs[i - 1].end {
      forall j | 0 <= j < i - 1 ensures !(rs[j].start <= a < rs[j].end) { Disjoint(rs, j, i - 1); }
      ScanFinds(rs, a, i - 1);
      return Some(rs[i - 1].flags);
    }
    forall j | 0 <= j < |rs| ensures !(rs[j].start <= a < rs[j].end) {
      if i > 0 && j < i - 1 { Disjoint(rs, j, i - 1); }
    }
    ScanMisses(rs, a);
    r := None;
  }

  // ---- adding pages ----

  ghost predicate InsertPoint(rs: seq<VmRegion>, i: nat, key: Address) {
    && i <= |rs|
    && (forall j | 0 <= j < i :: rs[j].start < key)
    && (forall j | i <= j < |rs| :: key < rs[j].start)
  }

  lemma InsertedOk(rs: seq<VmRegion>, i: nat, r: VmRegion)
    requires RegionsOk(rs) && InsertPoint(rs, i, r.start) && r.start % PAGE == 0 && r.end == r.start + PAGE
    ensures RegionsOk(rs[..i] + [r] + rs[i..])
  {}

  lemma InsertFresh(rs: seq<VmRegion>, i: nat, r: VmRegion)
    requires RegionsOk(rs) && InsertPoint(rs, i, r.start) && r.start % PAGE == 0
    ensures r.start / PAGE !in RegionMap(rs)
  {}

  lemma Inserted(rs: seq<VmRegion>, i: nat, r: VmRegion)
    requires RegionsOk(rs) && InsertPoint(rs, i, r.start) && r.start % PAGE == 0 && r.end == r.start + PAGE
    ensures var rs' := rs[..i] + [r] + rs[i..];
            && r.start / PAGE !in RegionMap(rs) && RegionsOk(rs')
            && RegionMap(rs') == RegionMap(rs)[r.start / PAGE := r.flags]
  {
    hide RegionsOk, RegionMap;
    var rs' := rs[..i] + [r] + rs[i..];
    InsertedOk(rs, i, r);
    InsertFresh(rs, i, r);
    assert rs'[i] == r;
    InRegion(rs', i);
    forall p | p in RegionMap(rs) ensures p in RegionMap(rs') && RegionMap(rs')[p] == RegionMap(rs)[p] {
      InsertKeeps(rs, rs', i, r, p);
    }
    forall p | p in RegionMap(rs') ensures p == r.start / PAGE || p in RegionMap(rs) {
      InsertAdds(rs, rs', i, r, p);
    }
  }

  lemma InsertKeeps(rs: seq<VmRegion>, rs': seq<VmRegion>, i: nat, r: VmRegion, p: nat)
    requires i <= |rs| && rs' == rs[..i] + [r] + rs[i..] && RegionsOk(rs) && RegionsOk(rs') && p in RegionMap(rs)
    ensures p in RegionMap(rs') && RegionMap(rs')[p] == RegionMap(rs)[p]
  {
    hide RegionMap, RegionsOk;
    var j := RegionAt(rs, p);
    InRegion(rs, j);
    var j' := if j < i then j else j + 1;
    assert rs'[j'] == rs[j];
    InRegion(rs', j');
  }

  lemma RegionAt(rs: seq<VmRegion>, p: nat) returns (j: nat)
    requires RegionsOk(rs) && p in RegionMap(rs)
    ensures j < |rs| && rs[j].start / PAGE == p
  {
    j :| 0 <= j < |rs| && rs[j].start / PAGE == p;
  }

  lemma InsertAdds(rs: seq<VmRegion>, rs': seq<VmRegion>, i: nat, r: VmRegion, p: nat)
    requires i <= |rs| && rs' == rs[..i] + [r] + rs[i..] && RegionsOk(rs) && RegionsOk(rs') && p in RegionMap(rs')
    ensures p == r.start / PAGE || p in RegionMap(rs)
  {}

  /** `map_page_if_not_exist`: a page that no region holds gets one of its own. */
  method AddIfAbsent(rs: seq<VmRegion>, a: Address, flags: Flags) returns (r: Option<seq<VmRegion>>)
    requires RegionsOk(rs) && a % PAGE == 0
    ensures r.None? <==> a / PAGE !in RegionMap(rs) && a == U64_LIMIT - PAGE
    ensures r.Some? ==> RegionsOk(r.value)
    ensures r.Some? ==> RegionMap(r.value) ==
                        if a / PAGE in RegionMap(rs) then RegionMap(rs) else RegionMap(rs)[a / PAGE := flags]
  {
    var found, i := Search(rs, a);
    if found {
      InRegion(rs, i);
      return Some(rs);
    }
    if i > 0 && a < rs[i - 1].end {
      InRegion(rs, i - 1);
      return Some(rs);
    }
    assert a / PAGE !in RegionMap(rs);
    if a + PAGE >= U64_LIMIT {
      return None;
    }
    Inserted(rs, i, VmRegion(a, a + PAGE, flags));
    r := Some(rs[..i] + [VmRegion(a, a + PAGE, flags)] + rs[i..]);
  }

  /** `insert_mapping` of one page; an existing start address makes the kernel panic, the last page overflows. */
  method Insert(rs: seq<VmRegion>, a: Address, flags: Flags) returns (r: Option<seq<VmRegion>>)
    requires RegionsOk(rs) && a % PAGE == 0
    ensures r.None? <==> a / PAGE in RegionMap(rs) || a == U64_LIMIT - PAGE
    ensures r.Some? ==> RegionsOk(r.value) && RegionMap(r.value) == RegionMap(rs)[a / PAGE := flags]
  {
    if a == U64_LIMIT - PAGE {
      return None;
    }
    var found, i := Search(rs, a);
    if found {
      InRegion(rs, i);
      return None;
    }
    Inserted(rs, i, VmRegion(a, a + PAGE, flags));
    r := Some(rs[..i] + [VmRegion(a, a + PAGE, flags)] + rs[i..]);
  }

  // ---- the program break ----

  /** The pages `lo`, ..., `hi - 1` all lie in regions. */
  ghost predicate Covers(m: map<nat, Flags>, lo: nat, hi: nat) {
    forall p | lo <= p < hi :: p in m
  }

  /** `m` with every page from `lo` up to `hi` that it does not hold yet. */
  ghost function Filled(m: map<nat, Flags>, lo: nat, hi: nat, flags: Flags): map<nat, Flags> {
    map p | p in m.Keys + Span(lo, hi) :: if p in m then m[p] else flags
  }

  lemma FilledNext(m: map<nat, Flags>, lo: nat, hi: nat, flags: Flags)
    requires lo <= hi
    ensures var f := Filled(m, lo, hi, flags);
            Filled(m, lo, hi + 1, flags) == if hi in f then f else f[hi := flags]
    ensures Filled(m, lo, lo, flags) == m
  {}

  lemma FilledNone(m: map<nat, Flags>, lo: nat, hi: nat, flags: Flags)
    ensures hi <= lo ==> Filled(m, lo, hi, flags) == m
  {}

  /** The loop of `brk`: regions for the pages from `from` up to `to`. */
  method Grow(rs: seq<VmRegion>, from: Address, to: Address, flags: Flags) returns (rs': seq<VmRegion>)
    requires RegionsOk(rs) && from % PAGE == 0 && to % PAGE == 0
    ensures RegionsOk(rs')
    ensures RegionMap(rs') == Filled(RegionMap(rs), from / PAGE, to / PAGE, flags)
  {
    hide RegionsOk, RegionMap, Filled;
    rs' := rs;
    var a := from;
    FilledNext(RegionMap(rs), from / PAGE, from / PAGE, flags);
    FilledNone(RegionMap(rs), from / PAGE, to / PAGE, flags);
    while a < to
      invariant a % PAGE == 0 && from <= a && (a <= to || a == from) && RegionsOk(rs')
      invariant RegionMap(rs') == Filled(RegionMap(rs), from / PAGE, a / PAGE, flags)
      decreases U64_LIMIT - a
    {
      var r := AddIfAbsent(rs', a, flags);
      FilledNext(RegionMap(rs), from / PAGE, a / PAGE, flags);
      rs' := r.value;
      a := a + PAGE;
    }
  }

  const USER_RW: Flags := RW.Or(U)

  /** What `brk` does with the break and the regions. */
  method MoveBreak(rs: seq<VmRegion>, startBrk: Address, brk: Address, newBrk: Address)
    returns (rs': seq<VmRegion>, brk': Address)
    requires RegionsOk(rs)
    ensures RegionsOk(rs')
    ensures brk' == if startBrk >= newBrk then brk else newBrk
    ensures RegionMap(rs') == if startBrk >= newBrk || newBrk <= brk then RegionMap(rs)
                              else Filled(RegionMap(rs), PageUp(brk) / PAGE, PageUp(newBrk) / PAGE, USER_RW)
  {
    if startBrk >= newBrk {
      return rs, brk;
    }
    if newBrk < brk {
      return rs, newBrk;
    } else if newBrk > brk {
      var from, to := PageUp(brk), PageUp(newBrk);
      rs' := Grow(rs, from, to, USER_RW);
      return rs', newBrk;
    } else {
      return rs, brk;
    }
  }

  /** Everything between the start of the heap and the break lies in regions. */
  ghost predicate HeapCovered(m: map<nat, Flags>, startBrk: Address, brk: Address) {
    Covers(m, (startBrk + PAGE - 1) / PAGE, (brk + PAGE - 1) / PAGE)
  }

  /** `brk` as a relation on the region map and the break. */
  ghost predicate BreakMoved(m: map<nat, Flags>, brk: Address, m': map<nat, Flags>, brk': Address, startBrk: Address, newBrk: Address) {
    && brk' == (if startBrk >= newBrk then brk else newBrk)
    && m' == (if startBrk >= newBrk || newBrk <= brk then m
              else Filled(m, PageUp(brk) / PAGE, PageUp(newBrk) / PAGE, USER_RW))
  }

  /**
   Through every grow, shrink and regrow the heap stays covered, exactly when the new break does
   not lie in the last page of the address space while that page is not already covered: there
   rounding up wraps around to zero and no page is added.
   */
  lemma BreakStaysCovered(m: map<nat, Flags>, brk: Address, m': map<nat, Flags>, brk': Address, startBrk: Address, newBrk: Address)
    requires startBrk <= brk <= U64_LIMIT - PAGE && HeapCovered(m, startBrk, brk)
    requires BreakMoved(m, brk, m', brk', startBrk, newBrk)
    ensures startBrk <= brk'
    ensures HeapCovered(m', startBrk, brk') <==>
            newBrk <= U64_LIMIT - PAGE || Covers(m, PageUp(brk) / PAGE, U64_LIMIT / PAGE)
  {
    if startBrk < newBrk && newBrk > brk {
      AlignUpRounds(brk);
      AlignUpRounds(newBrk);
      assert (brk + PAGE - 1) / PAGE == PageUp(brk) / PAGE;
      if newBrk <= U64_LIMIT - PAGE {
        assert (newBrk + PAGE - 1) / PAGE == PageUp(newBrk) / PAGE;
      } else {
        assert (newBrk + PAGE - 1) / PAGE == U64_LIMIT / PAGE;
        assert m' == m;
      }
    }
  }

  /** Moving the break of an empty heap into the last page of the address space covers nothing. */
  lemma LastPageUncovered()
    ensures var top := U64_LIMIT - 1;
            HeapCovered(map[], 0, 0) && BreakMoved(map[], 0, map[], top, 0, top) && !HeapCovered(map[], 0, top)
  {
    var m: map<nat, Flags> := map[];
    AlignUpRounds(U64_LIMIT - 1);
    assert Filled(m, 0, 0, USER_RW) == m;
    assert Between(0, 0, U64_LIMIT / PAGE) && 0 !in m;
  }

  /** A region once there keeps its permissions. */
  lemma BreakKeepsRegions(m: map<nat, Flags>, brk: Address, m': map<nat, Flags>, brk': Address, startBrk: Address, newBrk: Address)
    requires BreakMoved(m, brk, m', brk', startBrk, newBrk)
    ensures m.Keys <= m'.Keys && forall p | p in m :: m'[p] == m[p]
  {}
}
