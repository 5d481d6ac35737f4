/**
 Kernel stacks: one guard frame and sixteen stack frames, allocated one by one and released by
 address range.  The release is right exactly when the sixteen frames are consecutive.
 */
module KernelStacks {
  import opened Basics
  import opened FrameAllocator

  const KERNEL_STACK_PAGES: nat := 16

  /** What a memory manager remembers of its kernel stack; `NoStack` is `KernelStackRegion::EMPTY`. */
  datatype KernelStack = NoStack | KernelStack(guard: Frame, bottom: Frame)

  lemma {:induction false} RangeSize(lo: Frame, hi: Frame)
    requires lo <= hi
    ensures |Span(lo, hi)| == hi - lo
    decreases hi - lo
  {
    if lo < hi {
      RangeSize(lo, hi - 1);
      assert Span(lo, hi) == Span(lo, hi - 1) + {hi - 1};
    } else {
      assert Span(lo, hi) == {};
    }
  }

  /** The frames the release gives back. */
  ghost function StackFrames(st: KernelStack): set<Frame> {
    if st.NoStack? then {} else {st.guard} + Span(st.bottom, st.bottom + KERNEL_STACK_PAGES)
  }

  /** The frames a space owns for its stack are the ones the release gives back, each once. */
  ghost predicate StackHeld(owned: set<Frame>, st: KernelStack) {
    owned == StackFrames(st) && (st.KernelStack? ==> st.guard !in Span(st.bottom, st.bottom + KERNEL_STACK_PAGES))
  }

  /** The frames the allocator manages. */
  predicate Managed(start: Frame, f: Frame) {
    start <= f < start + POOL
  }

  /** The first-fit choice: `f` is the lowest free frame. */
  ghost predicate Lowest(start: Frame, used: set<Frame>, f: Frame) {
    Managed(start, f) && f !in used && forall g: Frame | Managed(start, g) && g < f :: g in used
  }

  ghost predicate FreeRun(start: Frame, used: set<Frame>, b: Frame) {
    forall f: Frame | b <= f < b + KERNEL_STACK_PAGES :: Managed(start, f) && f !in used
  }

  /** Above the lowest free frame, the next free frame starts a run of sixteen free frames. */
  ghost predicate StackFits(start: Frame, used: set<Frame>) {
    exists g, b :: Lowest(start, used, g) && Lowest(start, used + {g}, b) && FreeRun(start, used + {g}, b)
  }

  lemma LowestUnique(start: Frame, used: set<Frame>, f: Frame, g: Frame)
    requires Lowest(start, used, f) && Lowest(start, used, g)
    ensures f == g
  {}

  /** While the run is free, first fit walks along it. */
  lemma NextInRun(start: Frame, used: set<Frame>, b: Frame, i: nat, f: Frame)
    requires Lowest(start, used, b) && FreeRun(start, used, b) && 0 < i < KERNEL_STACK_PAGES
    requires Lowest(start, used + Span(b, b + i), f)
    ensures f == b + i
  {
    assert Managed(start, b + i) && b + i !in used + Span(b, b + i);
  }

  /** `Alloc` with its choice named. */
  method AllocLowest(a: Allocator) returns (r: Option<Frame>)
    requires a.Valid()
    modifies a.pages
    ensures r.None? ==> a.Full()
    ensures r.Some? ==> Lowest(a.start, old(a.Used()), r.value) && a.Used() == old(a.Used()) + {r.value}
  {
    r := a.Alloc();
  }

  /** The `i` frames got from `b` on: all new, and consecutive if the run is free. */
  ghost predicate Running(start: Frame, used: set<Frame>, b: Frame, now: set<Frame>, run: set<Frame>, i: nat) {
    && now == used + run && run !! used && |run| == i
    && (forall f | f in run :: Managed(start, f))
    && (FreeRun(start, used, b) ==> run == Span(b, b + i))
  }

  lemma RunStart(start: Frame, used: set<Frame>, b: Frame)
    requires Lowest(start, used, b)
    ensures Running(start, used, b, used + {b}, {b}, 1)
  {}

  lemma RunNext(start: Frame, used: set<Frame>, b: Frame, now: set<Frame>, run: set<Frame>, i: nat, f: Frame)
    requires Lowest(start, used, b) && 0 < i < KERNEL_STACK_PAGES && Running(start, used, b, now, run, i) && Lowest(start, now, f)
    ensures Running(start, used, b, now + {f}, run + {f}, i + 1)
  {
    if FreeRun(start, used, b) {
      NextInRun(start, used, b, i, f);
      assert Span(b, b + i + 1) == Span(b, b + i) + {f};
    }
  }

  /** The frames above the bottom one. */
  method AllocRun(a: Allocator, ghost used: set<Frame>, b: Frame) returns (ok: bool, ghost run: set<Frame>)
    requires a.Valid() && Lowest(a.start, used, b) && a.Used() == used + {b}
    modifies a.pages
    ensures !ok ==> a.Full()
    ensures ok ==> Running(a.start, used, b, a.Used(), run, KERNEL_STACK_PAGES)
  {
    hide Running, Lowest, Allocator.Used, Allocator.Full;
    RunStart(a.start, used, b);
    run := {b};
    var i := 1;
    while i < KERNEL_STACK_PAGES
      invariant 1 <= i <= KERNEL_STACK_PAGES && Running(a.start, used, b, a.Used(), run, i)
    {
      ghost var now := a.Used();
      var f := AllocLowest(a);
      if f.None? {
        return false, {};
      }
      RunNext(a.start, used, b, now, run, i, f.value);
      run := run + {f.value};
      i := i + 1;
    }
    ok := true;
  }

  /**
   `create_kernel_stack`: seventeen frames.  What the manager remembers describes exactly the frames
   it got when, and only when, first fit finds the sixteen stack frames in one run.
   */
  method AllocStack(a: Allocator) returns (r: Option<KernelStack>, ghost got: set<Frame>)
    requires a.Valid()
    modifies a.pages
    ensures r.None? ==> a.Full()
    ensures r.Some? ==>
              && r.value.KernelStack? && got !! old(a.Used()) && a.Used() == old(a.Used()) + got
              && (forall f | f in got :: Managed(a.start, f))
              && (StackHeld(got, r.value) <==> StackFits(a.start, old(a.Used())))
  {
    hide MarkedFrames, Running, Lowest, StackFits, StackHeld;
    ghost var used0 := a.Used();
    got := {};
    var guard := AllocLowest(a);
    if guard.None? {
      return None, {};
    }
    ghost var used1 := a.Used();
    var bottom := AllocLowest(a);
    if bottom.None? {
      return None, {};
    }
    var b := bottom.value;
    var ok: bool;
    ghost var run: set<Frame>;
    ok, run := AllocRun(a, used1, b);
    if !ok {
      return None, {};
    }
    got := {guard.value} + run;
    r := Some(KernelStack(guard.value, b));
    StackExact(a.start, used0, guard.value, b, a.Used(), run);
  }

  lemma StackExact(start: Frame, used: set<Frame>, g: Frame, b: Frame, now: set<Frame>, run: set<Frame>)
    requires Lowest(start, used, g) && Lowest(start, used + {g}, b)
    requires Running(start, used + {g}, b, now, run, KERNEL_STACK_PAGES)
    ensures now == used + ({g} + run) && {g} + run !! used && forall f | f in {g} + run :: Managed(start, f)
    ensures StackHeld({g} + run, KernelStack(g, b)) <==> StackFits(start, used)
  {
    var range := Span(b, b + KERNEL_STACK_PAGES);
    if StackFits(start, used) {
      var g', b' :| Lowest(start, used, g') && Lowest(start, used + {g'}, b') && FreeRun(start, used + {g'}, b');
      LowestUnique(start, used, g, g');
      LowestUnique(start, used + {g}, b, b');
    }
    if {g} + run == {g} + range {
      assert g < b;
      assert run == range by {
        assert g !in run && g !in range;
        assert run == {g} + run - {g};
        assert range == {g} + range - {g};
      }
      assert FreeRun(start, used + {g}, b);
    }
  }

  /** `free_kernel_stack`: the guard, then every frame from the bottom up to the top. */
  method FreeStack(a: Allocator, st: KernelStack)
    requires a.Valid() && StackFrames(st) <= a.Used() && StackHeld(StackFrames(st), st)
    modifies a.pages
    ensures a.Used() == old(a.Used()) - StackFrames(st)
  {
    if st.NoStack? {
      return;
    }
    a.Free(st.guard);
    var f := st.bottom;
    while f < st.bottom + KERNEL_STACK_PAGES
      invariant st.bottom <= f <= st.bottom + KERNEL_STACK_PAGES
      invariant a.Used() == old(a.Used()) - {st.guard} - Span(st.bottom, f)
    {
      assert f in StackFrames(st);
      a.Free(f);
      assert Span(st.bottom, f + 1) == Span(st.bottom, f) + {f};
      f := f + 1;
    }
  }

  /** Frames 0 and 1 are free and frame 2 is not: the guard is 0, the bottom is 1 and the run stops there. */
  lemma FragmentedStack()
    ensures !StackFits(0, {2})
  {
    assert Managed(0, 0) && Managed(0, 1);
    forall g, b | Lowest(0, {2}, g) && Lowest(0, {2} + {g}, b) ensures !FreeRun(0, {2} + {g}, b) {
      assert g == 0 && b == 1;
      assert 2 in {2} + {g};
    }
  }
}
