/**
 What a program can do with the heap that `brk` has given it.
 */
module HeapBreak {
  import opened Basics
  import opened Sv39
  import opened FrameAllocator
  import opened PageTables
  import opened VmRegions
  import opened CowMachine
  import opened EagerCopy
  import opened CowRuns
  import opened AddressSpaces

  /** `brk` raises the break of space `a` from `brk` to `newBrk`. */
  ghost predicate Raised(s: Sys, pool: set<Frame>, a: Id, startBrk: Address, brk: Address, newBrk: Address, s': Sys) {
    && Inv(s, pool) && s'.owner.Keys <= pool && a in s.views && a in s'.views && startBrk <= brk < newBrk
    && BreakMoved(s.views[a].region, brk, s'.views[a].region, newBrk, startBrk, newBrk)
    && Performs(s, Regions(a, s'.views[a].region, startBrk, newBrk), s', Done)
  }

  /** Address `x` lies in a page between the old break and the new one that had no region. */
  ghost predicate NewHeap(s: Sys, a: Id, brk: Address, newBrk: Address, x: nat) {
    a in s.views && PageUp(brk) <= x < PageUp(newBrk) && x / PAGE !in s.views[a].region
  }

  lemma RaisedPage(m: map<nat, Flags>, brk: Address, m': map<nat, Flags>, startBrk: Address, newBrk: Address, x: nat)
    requires BreakMoved(m, brk, m', newBrk, startBrk, newBrk) && startBrk <= brk < newBrk
    requires PageUp(brk) <= x < PageUp(newBrk) && x / PAGE !in m
    ensures x / PAGE in m' && m'[x / PAGE].r && m'[x / PAGE].w
  {
    AlignUpRounds(brk);
    AlignUpRounds(newBrk);
    hide PageUp;
    assert PageUp(brk) / PAGE <= x / PAGE < PageUp(newBrk) / PAGE;
  }

  /** Page `v` may be read and written and is not yet there. */
  ghost predicate Promised(e: Eager, a: Id, v: nat) {
    a in e && v !in e[a].pages && v in e[a].region && e[a].region[v].r && e[a].region[v].w
  }

  lemma RaiseGives(s: Sys, pool: set<Frame>, a: Id, startBrk: Address, brk: Address, newBrk: Address, s': Sys, x: nat)
    requires Raised(s, pool, a, startBrk, brk, newBrk, s') && NewHeap(s, a, brk, newBrk, x)
    ensures Inv(s', pool) && Promised(Abs(s'), a, x / PAGE)
  {
    hide Inv, Abs, Step, Honest, BreakMoved, PageUp;
    StepRefines(s, pool, Regions(a, s'.views[a].region, startBrk, newBrk), s', Done);
    RaisedPage(s.views[a].region, brk, s'.views[a].region, startBrk, newBrk, x);
    PagesInRegions(s, pool, a);
  }

  lemma PagesInRegions(s: Sys, pool: set<Frame>, a: Id)
    requires Inv(s, pool) && a in s.views
    ensures a in Abs(s) && Abs(s)[a].pages.Keys <= s.views[a].region.Keys
  {
    assert ViewOk(s.views[a]);
    hide Inv;
    AllBacked(s, pool);
    SeenEach(s.data, s.views[a]);
  }

  /** After a grow, a load from any byte of the new heap pages is served, and gives zero. */
  lemma NewHeapLoads(s: Sys, pool: set<Frame>, a: Id, startBrk: Address, brk: Address, newBrk: Address, s1: Sys, x: nat, s2: Sys, out: Outcome)
    requires Raised(s, pool, a, startBrk, brk, newBrk, s1) && NewHeap(s, a, brk, newBrk, x)
    requires Performs(s1, Load(a, x / PAGE, x % PAGE), s2, out) && s2.owner.Keys <= pool
    ensures out == Loaded(0)
  {
    hide Inv, Abs, Step, Honest, Raised, NewHeap;
    RaiseGives(s, pool, a, startBrk, brk, newBrk, s1, x);
    StepRefines(s1, pool, Load(a, x / PAGE, x % PAGE), s2, out);
  }

  /** After a grow, a store to any byte of the new heap pages is served, and a load gives that byte back. */
  lemma NewHeapStores(s: Sys, pool: set<Frame>, a: Id, startBrk: Address, brk: Address, newBrk: Address, s1: Sys,
                      x: nat, byte: Byte, s2: Sys, out: Outcome, s3: Sys, back: Outcome)
    requires Raised(s, pool, a, startBrk, brk, newBrk, s1) && NewHeap(s, a, brk, newBrk, x)
    requires Performs(s1, Store(a, x / PAGE, x % PAGE, byte), s2, out) && s2.owner.Keys <= pool
    requires Performs(s2, Load(a, x / PAGE, x % PAGE), s3, back) && s3.owner.Keys <= pool
    ensures out == Done && back == Loaded(byte)
  {
    hide Inv, Abs, Step, Honest, Raised, NewHeap;
    RaiseGives(s, pool, a, startBrk, brk, newBrk, s1, x);
    StepRefines(s1, pool, Store(a, x / PAGE, x % PAGE, byte), s2, out);
    StepRefines(s2, pool, Load(a, x / PAGE, x % PAGE), s3, back);
  }
}
