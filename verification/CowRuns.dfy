/**
 Whole runs of the copy-on-write machine: every reachable state keeps the sharing invariant, and
 a run of operations gives each program the outcomes it would get from eager copying if and only if no
 fork in it starts from a space with a writable leaf in a read-only region.
 */
module CowRuns {
  import opened Basics
  import opened Sv39
  import opened FrameAllocator
  import opened PageTables
  import opened Forking
  import opened CowMachine
  import opened EagerCopy

  // ---- one operation ----

  lemma AbsKeys(s: Sys)
    ensures Abs(s).Keys == s.views.Keys
  {}

  /** One space changes to what the reference machine makes of it, and the invariant holds. */
  ghost predicate Matches(s: Sys, pool: set<Frame>, a: Id, s': Sys, e: EagerSpace) {
    Inv(s', pool) && s'.views.Keys == s.views.Keys && Abs(s') == Abs(s)[a := e]
  }

  lemma PageInMatches(s: Sys, pool: set<Frame>, a: Id, v: nat, access: Flags, g: Frame, grown: set<Frame>, s': Sys)
    requires Inv(s, pool) && a in s.views && v in s.views[a].region && v !in s.views[a].pages
    requires s.views[a].region[v].Contains(access) && s'.owner.Keys <= pool
    requires PageIn(s, s', a, v, s.views[a].region[v], g, grown, s.views[a].region)
    ensures Matches(s, pool, a, s', EagerFault(Abs(s)[a], v, access).0)
  {
    hide Inv, Abs;
    SeenPage(s, pool, a, v);
    var w := s.views[a];
    PageInInv(s, s', pool, a, v, w.region[v], g, grown, w.region);
    RefinePageIn(s, s', pool, a, v, w.region[v], g, grown, w.region);
  }

  lemma SameMatches(s: Sys, pool: set<Frame>, a: Id, s': Sys, e: EagerSpace)
    requires Inv(s', pool) && s'.views.Keys == s.views.Keys && Abs(s') == Abs(s) && a in s.views && e == Abs(s)[a]
    ensures Matches(s, pool, a, s', e)
  {
    hide Inv, Abs;
    AbsKeys(s);
  }

  lemma CopyMatches(s: Sys, pool: set<Frame>, a: Id, v: nat, access: Flags, g: Frame, s': Sys)
    requires Inv(s, pool) && a in s.views && v in s.views[a].region && v in Abs(s)[a].pages
    requires s.views[a].region[v].Contains(access) && access.w && s'.owner.Keys <= pool
    requires CopyPage(s, s', a, v, g)
    ensures Matches(s, pool, a, s', Abs(s)[a])
  {
    hide Inv, Abs;
    AbsKeys(s);
    CopyInv(s, s', pool, a, v, g);
    RefineCopy(s, s', pool, a, v, g);
    SameMatches(s, pool, a, s', Abs(s)[a]);
  }

  lemma StutterMatches(s: Sys, pool: set<Frame>, a: Id)
    requires Inv(s, pool) && a in s.views
    ensures Matches(s, pool, a, s, Abs(s)[a])
  {
    hide Inv, Abs;
    AbsKeys(s);
    SameMatches(s, pool, a, s, Abs(s)[a]);
  }

  lemma FaultRefines(s: Sys, pool: set<Frame>, a: Id, v: nat, access: Flags, s': Sys, out: Outcome)
    requires Inv(s, pool) && a in s.views && FaultStep(s, a, v, access, s', out) && s'.owner.Keys <= pool
    ensures Matches(s, pool, a, s', EagerFault(Abs(s)[a], v, access).0) && out == EagerFault(Abs(s)[a], v, access).1
  {
    hide Inv, Abs, PageIn, CopyPage, Matches;
    AbsKeys(s);
    var w := s.views[a];
    SeenPage(s, pool, a, v);
    if v in w.region && w.region[v].Contains(access) && v !in w.pages {
      var g, grown :| PageIn(s, s', a, v, w.region[v], g, grown, w.region);
      PageInMatches(s, pool, a, v, access, g, grown, s');
    } else if v in w.region && w.region[v].Contains(access) && access.w {
      var g :| CopyPage(s, s', a, v, g);
      CopyMatches(s, pool, a, v, access, g, s');
    } else {
      StutterMatches(s, pool, a);
    }
  }

  lemma SeenPage(s: Sys, pool: set<Frame>, a: Id, v: nat)
    requires Inv(s, pool) && a in s.views
    ensures a in Abs(s) && Abs(s)[a].region == s.views[a].region
    ensures v in Abs(s)[a].pages <==> v in s.views[a].pages
    ensures v in s.views[a].pages ==>
              && v in s.views[a].region && s.views[a].pages[v].ppn in s.data
              && Abs(s)[a].pages[v] == EagerPage(s.data[s.views[a].pages[v].ppn],
                                                 SeenAccess(s.views[a].pages[v], s.views[a].region[v]))
  {
    AllBacked(s, pool);
  }

  lemma LoadRefines(s: Sys, pool: set<Frame>, a: Id, v: nat, off: nat, s': Sys, out: Outcome)
    requires Inv(s, pool) && a in s.views && off < 4096 && LoadStep(s, a, v, off, s', out) && s'.owner.Keys <= pool
    ensures Matches(s, pool, a, s', EagerLoad(Abs(s)[a], v, off).0) && out == EagerLoad(Abs(s)[a], v, off).1
  {
    hide Inv, Abs, FaultStep;
    AbsKeys(s);
    SeenPage(s, pool, a, v);
    if v in s.views[a].pages && s.views[a].pages[v].flags.r {
      StutterMatches(s, pool, a);
    } else {
      var fault :| FaultStep(s, a, v, R, s', fault)
                   && (if fault == Done then
                         && a in s'.views && v in s'.views[a].pages && s'.views[a].pages[v].ppn in s'.data
                         && out == Loaded(s'.data[s'.views[a].pages[v].ppn][off])
                       else out == fault);
      FaultRefines(s, pool, a, v, R, s', fault);
      SeenPage(s', pool, a, v);
    }
  }

  lemma WriteMatches(s: Sys, pool: set<Frame>, a: Id, v: nat, off: nat, byte: Byte, s': Sys)
    requires Inv(s, pool) && WriteByte(s, s', a, v, off, byte)
    ensures v in Abs(s)[a].pages && Matches(s, pool, a, s', Poked(Abs(s)[a], v, off, byte))
  {
    hide Inv, Abs;
    AbsKeys(s);
    WriteInv(s, s', pool, a, v, off, byte);
    RefineWrite(s, s', pool, a, v, off, byte);
  }

  lemma Overwrite(e0: Eager, e1: Eager, e2: Eager, a: Id, x: EagerSpace, y: EagerSpace)
    requires e1 == e0[a := x] && e2 == e1[a := y]
    ensures e2 == e0[a := y]
  {}

  lemma FaultThenWrite(s: Sys, pool: set<Frame>, a: Id, v: nat, off: nat, byte: Byte, s1: Sys, s': Sys, e: EagerSpace)
    requires a in s.views && Matches(s, pool, a, s1, e) && WriteByte(s1, s', a, v, off, byte)
    ensures v in e.pages && Matches(s, pool, a, s', Poked(e, v, off, byte))
  {
    hide Inv, Abs;
    AbsKeys(s);
    assert Abs(s1)[a] == e;
    assert Inv(s', pool) && s'.views.Keys == s.views.Keys && v in e.pages && Abs(s') == Abs(s1)[a := Poked(e, v, off, byte)] by {
      WriteMatches(s1, pool, a, v, off, byte, s');
    }
    Overwrite(Abs(s), Abs(s1), Abs(s'), a, e, Poked(e, v, off, byte));
  }

  lemma StoreRefines(s: Sys, pool: set<Frame>, a: Id, v: nat, off: nat, byte: Byte, s': Sys, out: Outcome)
    requires Inv(s, pool) && a in s.views && off < 4096 && StoreStep(s, a, v, off, byte, s', out) && s'.owner.Keys <= pool
    ensures Matches(s, pool, a, s', EagerStore(Abs(s)[a], v, off, byte).0) && out == EagerStore(Abs(s)[a], v, off, byte).1
  {
    hide Inv, Abs, FaultStep, Matches;
    AbsKeys(s);
    SeenPage(s, pool, a, v);
    if v in s.views[a].pages && s.views[a].pages[v].flags.w {
      WriteMatches(s, pool, a, v, off, byte, s');
    } else {
      var s1, fault :| FaultStep(s, a, v, W, s1, fault)
                       && (if fault == Done then WriteByte(s1, s', a, v, off, byte) && out == Done else s' == s1 && out == fault);
      FaultRefines(s, pool, a, v, W, s1, fault);
      if fault == Done {
        FaultThenWrite(s, pool, a, v, off, byte, s1, s', EagerFault(Abs(s)[a], v, W).0);
      }
    }
  }

  /** The reference machine takes the same step with the same outcome, and the invariant is kept. */
  ghost predicate Refines(s: Sys, pool: set<Frame>, op: Op, s': Sys, out: Outcome) {
    && Inv(s', pool)
    && Applicable(Abs(s).Keys, op) && EagerStep(Abs(s), op) == (Abs(s'), out)
  }

  lemma NewRefines(s: Sys, pool: set<Frame>, op: Op, s': Sys, out: Outcome)
    requires op.New? && Inv(s, pool) && Applicable(s.views.Keys, op) && Step(s, op, s', out) && s'.owner.Keys <= pool
    ensures Refines(s, pool, op, s', out)
  {
    hide Inv, Abs, NewSpace;
    AbsKeys(s);
    var root, tables, stack :| NewSpace(s, s', op.id, root, tables, stack);
    NewInv(s, s', pool, op.id, root, tables, stack);
    RefineNew(s, s', pool, op.id, root, tables, stack);
  }

  /** A fork keeps the invariant, and looks like a deep copy if and only if the parent is honest. */
  lemma ForkExact(s: Sys, pool: set<Frame>, op: Op, s': Sys, out: Outcome)
    requires op.Fork? && Inv(s, pool) && Applicable(s.views.Keys, op) && Step(s, op, s', out) && s'.owner.Keys <= pool
    ensures Inv(s', pool) && Applicable(Abs(s).Keys, op)
    ensures EagerStep(Abs(s), op) == (Abs(s'), out) <==> Honest(s.views[op.id])
  {
    hide Inv, Abs, ForkSpace, Honest;
    AbsKeys(s);
    var root, tables, stack :| ForkSpace(s, s', op.id, op.child, root, tables, stack);
    ForkInv(s, s', pool, op.id, op.child, root, tables, stack);
    RefineFork(s, s', pool, op.id, op.child, root, tables, stack);
  }

  lemma FreeRefines(s: Sys, pool: set<Frame>, op: Op, s': Sys, out: Outcome)
    requires op.Free? && Inv(s, pool) && Applicable(s.views.Keys, op) && Step(s, op, s', out)
    ensures Refines(s, pool, op, s', out)
  {
    hide Inv, Abs, FreeSpace;
    AbsKeys(s);
    FreeInv(s, s', pool, op.id);
    RefineFree(s, s', op.id);
  }

  lemma StackRefines(s: Sys, pool: set<Frame>, op: Op, s': Sys, out: Outcome)
    requires op.Stack? && Inv(s, pool) && Applicable(s.views.Keys, op) && Step(s, op, s', out) && s'.owner.Keys <= pool
    ensures Refines(s, pool, op, s', out)
  {
    hide Inv, Abs, GiveStack;
    AbsKeys(s);
    var stack :| GiveStack(s, s', op.id, stack);
    GiveStackInv(s, s', pool, op.id, stack);
    RefineStack(s, s', pool, op.id, stack);
  }

  lemma MapPageRefines(s: Sys, pool: set<Frame>, op: Op, s': Sys, out: Outcome)
    requires op.MapPage? && Inv(s, pool) && Applicable(s.views.Keys, op) && Step(s, op, s', out) && s'.owner.Keys <= pool
    ensures Refines(s, pool, op, s', out)
  {
    hide Inv, Abs;
    AbsKeys(s);
    SeenPage(s, pool, op.id, op.v);
    var region := s.views[op.id].region[op.v := op.flags];
    var g, grown :| NewPage(s, s', op.id, op.v, op.flags, g, grown);
    PageInInv(s, s', pool, op.id, op.v, op.flags, g, grown, region);
    RefinePageIn(s, s', pool, op.id, op.v, op.flags, g, grown, region);
  }

  lemma RegionsRefine(s: Sys, pool: set<Frame>, op: Op, s': Sys, out: Outcome)
    requires op.Regions? && Inv(s, pool) && Applicable(s.views.Keys, op) && Step(s, op, s', out)
    ensures Refines(s, pool, op, s', out)
  {
    hide Inv, Abs, SetRegions;
    AbsKeys(s);
    SetRegionsInv(s, s', pool, op.id, op.region, op.startBrk, op.brk);
    RefineRegions(s, s', pool, op.id, op.region, op.startBrk, op.brk);
  }

  lemma RemapRefines(s: Sys, pool: set<Frame>, op: Op, s': Sys, out: Outcome)
    requires op.Remap? && Inv(s, pool) && Applicable(s.views.Keys, op) && Step(s, op, s', out)
    ensures Refines(s, pool, op, s', out)
  {
    hide Inv, Abs, AddFlags, Sharers, Maps;
    AbsKeys(s);
    AddFlagsInv(s, s', pool, op.id, op.v, op.flags);
    RefineRemap(s, s', pool, op.id, op.v, op.flags);
  }

  lemma FillRefines(s: Sys, pool: set<Frame>, op: Op, s': Sys, out: Outcome)
    requires op.Fill? && Inv(s, pool) && Applicable(s.views.Keys, op) && Step(s, op, s', out)
    ensures Refines(s, pool, op, s', out)
  {
    hide Inv, Abs, FillBytes, PageFilled;
    AbsKeys(s);
    FillInv(s, s', pool, op.id, op.v, op.off, op.bytes);
    RefineFill(s, s', pool, op.id, op.v, op.off, op.bytes);
  }

  lemma AccessRefines(s: Sys, pool: set<Frame>, op: Op, s': Sys, out: Outcome)
    requires op.Fault? || op.Load? || op.Store?
    requires Inv(s, pool) && Applicable(s.views.Keys, op) && Step(s, op, s', out) && s'.owner.Keys <= pool
    ensures Refines(s, pool, op, s', out)
  {
    hide Inv, Abs, FaultStep, LoadStep, StoreStep;
    AbsKeys(s);
    if op.Fault? {
      FaultRefines(s, pool, op.id, op.v, op.access, s', out);
    } else if op.Load? {
      LoadRefines(s, pool, op.id, op.v, op.off, s', out);
    } else {
      StoreRefines(s, pool, op.id, op.v, op.off, op.byte, s', out);
    }
  }

  lemma OtherRefines(s: Sys, pool: set<Frame>, op: Op, s': Sys, out: Outcome)
    requires !op.Fork? && Inv(s, pool) && Applicable(s.views.Keys, op) && Step(s, op, s', out) && s'.owner.Keys <= pool
    ensures Refines(s, pool, op, s', out)
  {
    hide Inv, Abs, Step, Refines;
    match op
    case New(_) => NewRefines(s, pool, op, s', out);
    case MapPage(_, _, _) => MapPageRefines(s, pool, op, s', out);
    case Regions(_, _, _, _) => RegionsRefine(s, pool, op, s', out);
    case Remap(_, _, _) => RemapRefines(s, pool, op, s', out);
    case Free(_) => FreeRefines(s, pool, op, s', out);
    case Stack(_) => StackRefines(s, pool, op, s', out);
    case Fill(_, _, _, _) => FillRefines(s, pool, op, s', out);
    case _ => AccessRefines(s, pool, op, s', out);
  }

  /**
   One operation: the invariant is kept, and the reference machine takes the same step with the same
   outcome if and only if the operation is not a fork of a space with a writable leaf in a read-only
   region.
   */
  lemma StepRefines(s: Sys, pool: set<Frame>, op: Op, s': Sys, out: Outcome)
    requires Inv(s, pool) && Applicable(s.views.Keys, op) && Step(s, op, s', out) && s'.owner.Keys <= pool
    ensures Inv(s', pool) && Applicable(Abs(s).Keys, op)
    ensures EagerStep(Abs(s), op) == (Abs(s'), out) <==> (op.Fork? ==> Honest(s.views[op.id]))
  {
    hide Inv, Abs, Step, Honest, EagerStep;
    if op.Fork? {
      ForkExact(s, pool, op, s', out);
    } else {
      OtherRefines(s, pool, op, s', out);
    }
  }

  // ---- honesty ----

  ghost predicate AllHonest(s: Sys) {
    forall a | a in s.views :: Honest(s.views[a])
  }

  /** Only a remap can break honesty, and it does so exactly when it adds W to a page whose region lacks it. */
  predicate CarefulRemap(w: View, op: Op) {
    op.Remap? && op.v in w.region && op.flags.w ==> w.region[op.v].w
  }

  lemma RemapHonest(w: View, v: nat, flags: Flags)
    requires Honest(w) && v in w.pages && v in w.region
    ensures Honest(w.(pages := w.pages[v := w.pages[v].SetFlags(flags.Or(VAD))])) <==> (flags.w ==> w.region[v].w)
  {}

  lemma FaultHonest(s: Sys, a: Id, v: nat, access: Flags, s': Sys, out: Outcome)
    requires AllHonest(s) && a in s.views && FaultStep(s, a, v, access, s', out)
    ensures AllHonest(s')
  {}

  lemma StoreHonest(s: Sys, a: Id, v: nat, off: nat, byte: Byte, s': Sys, out: Outcome)
    requires AllHonest(s) && a in s.views && off < 4096 && StoreStep(s, a, v, off, byte, s', out)
    ensures AllHonest(s')
  {
    if !(v in s.views[a].pages && s.views[a].pages[v].flags.w) {
      var s1, fault :| FaultStep(s, a, v, W, s1, fault)
                       && (if fault == Done then WriteByte(s1, s', a, v, off, byte) && out == Done else s' == s1 && out == fault);
      FaultHonest(s, a, v, W, s1, fault);
    }
  }

  lemma ForkHonest(w: View)
    requires ViewOk(w)
    ensures Honest(w.(pages := SharedPages(w.pages)))
  {}

  lemma LoadHonest(s: Sys, a: Id, v: nat, off: nat, s': Sys, out: Outcome)
    requires AllHonest(s) && a in s.views && off < 4096 && LoadStep(s, a, v, off, s', out)
    ensures AllHonest(s')
  {}

  lemma MappingHonest(s: Sys, op: Op, s': Sys, out: Outcome)
    requires op.MapPage? || op.Regions? || op.Remap?
    requires AllHonest(s) && Applicable(s.views.Keys, op) && Step(s, op, s', out) && ViewOk(s.views[op.id])
    requires op.Remap? ==> CarefulRemap(s.views[op.id], op)
    ensures AllHonest(s')
  {}

  lemma StepHonest(s: Sys, op: Op, s': Sys, out: Outcome)
    requires AllHonest(s) && Applicable(s.views.Keys, op) && Step(s, op, s', out)
    requires !op.New? ==> ViewOk(s.views[op.id])
    requires op.Remap? ==> CarefulRemap(s.views[op.id], op)
    ensures AllHonest(s')
  {
    match op
    case New(b) =>
    case Fault(a, v, access) => FaultHonest(s, a, v, access, s', out);
    case Load(a, v, off) => LoadHonest(s, a, v, off, s', out);
    case Store(a, v, off, byte) => StoreHonest(s, a, v, off, byte, s', out);
    case Fork(a, b) =>
      ForkHonest(s.views[a]);
      assert Honest(s'.views[a]) && Honest(s'.views[b]);
    case Free(a) =>
    case Stack(a) =>
    case Fill(_, _, _, _) =>
    case _ => MappingHonest(s, op, s', out);
  }

  // ---- whole runs ----

  /** One operation of a run; the allocator only hands out pool frames. */
  ghost predicate Goes(s: Sys, pool: set<Frame>, op: Op, out: Outcome, s': Sys) {
    Applicable(s.views.Keys, op) && Step(s, op, s', out) && s'.owner.Keys <= pool
  }

  /** The copy-on-write machine goes through the states `ss`, performing `ops` with outcomes `outs`. */
  ghost predicate Trace(ss: seq<Sys>, pool: set<Frame>, ops: seq<Op>, outs: seq<Outcome>) {
    && |ss| == |ops| + 1 && |outs| == |ops|
    && forall i | 0 <= i < |ops| :: Goes(ss[i], pool, ops[i], outs[i], ss[i + 1])
  }

  /** The machine gets from `s` to `s'`. */
  ghost predicate Run(s: Sys, pool: set<Frame>, ops: seq<Op>, outs: seq<Outcome>, s': Sys) {
    exists ss: seq<Sys> :: Trace(ss, pool, ops, outs) && ss[0] == s && ss[|ops|] == s'
  }

  /** The reference machine goes through the states `es`, performing `ops` with outcomes `outs`. */
  ghost predicate EagerTrace(es: seq<Eager>, ops: seq<Op>, outs: seq<Outcome>) {
    && |es| == |ops| + 1 && |outs| == |ops|
    && forall i | 0 <= i < |ops| :: EagerGoes(es[i], ops[i], outs[i], es[i + 1])
  }

  ghost predicate EagerGoes(e: Eager, op: Op, out: Outcome, e': Eager) {
    Applicable(e.Keys, op) && EagerStep(e, op) == (e', out)
  }

  /** What the programs see of the states of a run. */
  ghost function SeenRun(ss: seq<Sys>): seq<Eager> {
    seq(|ss|, i requires 0 <= i < |ss| => Abs(ss[i]))
  }

  /** Step `i` of a run forks a space with a writable leaf in a read-only region. */
  ghost predicate DishonestAt(ss: seq<Sys>, ops: seq<Op>, i: nat) {
    i < |ops| && i < |ss| && ops[i].Fork? && ops[i].id in ss[i].views && !Honest(ss[i].views[ops[i].id])
  }

  /** The invariant holds in every state of every run. */
  lemma {:induction false} RunInv(ss: seq<Sys>, pool: set<Frame>, ops: seq<Op>, outs: seq<Outcome>, k: nat)
    requires Trace(ss, pool, ops, outs) && Inv(ss[0], pool) && k < |ss|
    ensures Inv(ss[k], pool)
    decreases k
  {
    hide Inv, Step;
    if k > 0 {
      RunInv(ss, pool, ops, outs, k - 1);
      assert Goes(ss[k - 1], pool, ops[k - 1], outs[k - 1], ss[k - 1 + 1]);
      StepRefines(ss[k - 1], pool, ops[k - 1], ss[k], outs[k - 1]);
    }
  }

  /** Step `i` of a run is a step of the reference machine if and only if it is not a dishonest fork. */
  lemma RunStep(ss: seq<Sys>, pool: set<Frame>, ops: seq<Op>, outs: seq<Outcome>, i: nat)
    requires Trace(ss, pool, ops, outs) && Inv(ss[0], pool) && i < |ops|
    ensures EagerGoes(Abs(ss[i]), ops[i], outs[i], Abs(ss[i + 1])) <==> !DishonestAt(ss, ops, i)
  {
    hide Inv, Step, Abs, Honest, EagerStep;
    RunInv(ss, pool, ops, outs, i);
    assert Goes(ss[i], pool, ops[i], outs[i], ss[i + 1]);
    StepRefines(ss[i], pool, ops[i], ss[i + 1], outs[i]);
  }

  /**
   Copy-on-write refines eager copying: what the programs see of a run, state by state and outcome
   by outcome, is a run of the reference machine if and only if the run forks no space that has a
   writable leaf in a read-only region.
   */
  lemma RunRefines(ss: seq<Sys>, pool: set<Frame>, ops: seq<Op>, outs: seq<Outcome>)
    requires Trace(ss, pool, ops, outs) && Inv(ss[0], pool)
    ensures EagerTrace(SeenRun(ss), ops, outs) <==> forall i: nat :: !DishonestAt(ss, ops, i)
  {
    hide Inv, Goes, Abs, DishonestAt, EagerGoes;
    var es := SeenRun(ss);
    forall i: nat | i < |ops| ensures EagerGoes(es[i], ops[i], outs[i], es[i + 1]) <==> !DishonestAt(ss, ops, i) {
      RunStep(ss, pool, ops, outs, i);
    }
    forall i: nat | i >= |ops| ensures !DishonestAt(ss, ops, i) { PastEnd(ss, ops, i); }
    if EagerTrace(es, ops, outs) {
      forall i: nat | i < |ops| ensures !DishonestAt(ss, ops, i) { assert EagerGoes(es[i], ops[i], outs[i], es[i + 1]); }
    }
    if forall i: nat :: !DishonestAt(ss, ops, i) {
      forall i | 0 <= i < |ops| ensures EagerGoes(es[i], ops[i], outs[i], es[i + 1]) { assert !DishonestAt(ss, ops, i); }
    }
  }

  lemma PastEnd(ss: seq<Sys>, ops: seq<Op>, i: nat)
    requires i >= |ops|
    ensures !DishonestAt(ss, ops, i)
  {}

  lemma TracePrefix(ss: seq<Sys>, pool: set<Frame>, ops: seq<Op>, outs: seq<Outcome>, k: nat)
    requires Trace(ss, pool, ops, outs) && k <= |ops|
    ensures Trace(ss[..k + 1], pool, ops[..k], outs[..k])
  {
    hide Goes;
    forall i | 0 <= i < k ensures Goes(ss[..k + 1][i], pool, ops[..k][i], outs[..k][i], ss[..k + 1][i + 1]) {
      assert Goes(ss[i], pool, ops[i], outs[i], ss[i + 1]);
    }
  }

  /** The two machines part at the first dishonest fork of a run, and not before. */
  lemma FirstParting(ss: seq<Sys>, pool: set<Frame>, ops: seq<Op>, outs: seq<Outcome>, k: nat)
    requires Trace(ss, pool, ops, outs) && Inv(ss[0], pool)
    requires DishonestAt(ss, ops, k) && forall i: nat | i < k :: !DishonestAt(ss, ops, i)
    ensures EagerTrace(SeenRun(ss[..k + 1]), ops[..k], outs[..k])
    ensures !EagerGoes(Abs(ss[k]), ops[k], outs[k], Abs(ss[k + 1]))
  {
    hide Inv, Goes, Abs, EagerGoes;
    TracePrefix(ss, pool, ops, outs, k);
    var ss1, ops1 := ss[..k + 1], ops[..k];
    forall i: nat ensures !DishonestAt(ss1, ops1, i) {
      if i < k { assert !DishonestAt(ss, ops, i); }
    }
    RunRefines(ss1, pool, ops1, outs[..k]);
    RunStep(ss, pool, ops, outs, k);
  }

  /** No step of a run adds write permission that a region lacks. */
  ghost predicate CarefulRun(ss: seq<Sys>, ops: seq<Op>) {
    forall i | 0 <= i < |ops| && i < |ss| && ops[i].Remap? && ops[i].id in ss[i].views :: CarefulRemap(ss[i].views[ops[i].id], ops[i])
  }

  lemma {:induction false} CarefulHonest(ss: seq<Sys>, pool: set<Frame>, ops: seq<Op>, outs: seq<Outcome>, k: nat)
    requires Trace(ss, pool, ops, outs) && Inv(ss[0], pool) && AllHonest(ss[0]) && CarefulRun(ss, ops) && k < |ss|
    ensures AllHonest(ss[k])
    decreases k
  {
    hide Step, AllHonest;
    if k > 0 {
      CarefulHonest(ss, pool, ops, outs, k - 1);
      RunInv(ss, pool, ops, outs, k - 1);
      assert Goes(ss[k - 1], pool, ops[k - 1], outs[k - 1], ss[k - 1 + 1]);
      StepHonest(ss[k - 1], ops[k - 1], ss[k], outs[k - 1]);
    }
  }

  /** A run from boot in which no remap oversteps a region is a run of the reference machine. */
  lemma CarefulRefines(ss: seq<Sys>, pool: set<Frame>, ops: seq<Op>, outs: seq<Outcome>)
    requires Trace(ss, pool, ops, outs) && Inv(ss[0], pool) && AllHonest(ss[0]) && CarefulRun(ss, ops)
    ensures EagerTrace(SeenRun(ss), ops, outs)
  {
    hide Inv, Trace, CarefulRun, EagerTrace;
    forall i: nat ensures !DishonestAt(ss, ops, i) {
      if i < |ops| && i < |ss| { CarefulHonest(ss, pool, ops, outs, i); }
    }
    RunRefines(ss, pool, ops, outs);
  }

  /** Before any process exists the kernel owns every frame in use, and the invariant holds. */
  lemma BootInv(s: Sys, pool: set<Frame>)
    requires s.views == map[] && s.counts == map[] && s.owner.Keys <= pool && |pool| <= POOL
    requires forall x | x in s.owner :: s.owner[x] == Kernel
    ensures Inv(s, pool) && AllHonest(s)
  {}

  lemma EagerIsolates(e: Eager, op: Op, b: Id)
    requires Applicable(e.Keys, op) && b in e && b != op.id
    ensures b in EagerStep(e, op).0 && EagerStep(e, op).0[b] == e[b]
  {}

  lemma ForkIsolates(s: Sys, pool: set<Frame>, op: Op, s': Sys, out: Outcome, c: Id)
    requires op.Fork? && Inv(s, pool) && Applicable(s.views.Keys, op) && Step(s, op, s', out)
    requires c in s.views && c != op.id
    ensures c in Abs(s') && Abs(s')[c] == Abs(s)[c]
  {
    hide Inv, Abs;
    AbsKeys(s);
    KeepSame(s, s', pool);
    ForkAbs(s, s', op.id, op.child);
  }

  /** What an operation of one process leaves alone: every other live space reads as before. */
  lemma StepIsolates(s: Sys, pool: set<Frame>, op: Op, s': Sys, out: Outcome, b: Id)
    requires Inv(s, pool) && Applicable(s.views.Keys, op) && Step(s, op, s', out) && s'.owner.Keys <= pool
    requires b in s.views && b != op.id
    ensures b in Abs(s') && Abs(s')[b] == Abs(s)[b]
  {
    hide Inv, Abs, Step;
    AbsKeys(s);
    if op.Fork? {
      ForkIsolates(s, pool, op, s', out, b);
    } else {
      StepRefines(s, pool, op, s', out);
      EagerIsolates(Abs(s), op, b);
    }
  }

  /** Over every run, what a process reads changes only by its own operations. */
  lemma {:induction false} RunIsolates(ss: seq<Sys>, pool: set<Frame>, ops: seq<Op>, outs: seq<Outcome>, b: Id, k: nat)
    requires Trace(ss, pool, ops, outs) && Inv(ss[0], pool) && b in ss[0].views && k < |ss|
    requires forall i | 0 <= i < k :: ops[i].id != b
    ensures b in Abs(ss[k]) && Abs(ss[k])[b] == Abs(ss[0])[b]
    decreases k
  {
    hide Inv, Abs, Step;
    AbsKeys(ss[0]);
    if k > 0 {
      RunIsolates(ss, pool, ops, outs, b, k - 1);
      RunInv(ss, pool, ops, outs, k - 1);
      AbsKeys(ss[k - 1]);
      assert Goes(ss[k - 1], pool, ops[k - 1], outs[k - 1], ss[k - 1 + 1]);
      StepIsolates(ss[k - 1], pool, ops[k - 1], ss[k], outs[k - 1], b);
    }
  }

  // ---- the page a remap made writable behind the region's back ----

  /** Before a fork, a store to a present page succeeds when the leaf or the region allows it. */
  lemma StoreBeforeFork(s: Sys, pool: set<Frame>, a: Id, v: nat, off: nat, byte: Byte, s': Sys, out: Outcome)
    requires Inv(s, pool) && a in s.views && v in s.views[a].pages && off < 4096
    requires StoreStep(s, a, v, off, byte, s', out)
    ensures v in s.views[a].region
    ensures out == Done <==> s.views[a].pages[v].flags.w || s.views[a].region[v].w
    ensures out != Done ==> out == Killed
  {
    assert ViewOk(s.views[a]);
  }

  /** After a fork, a store to the same page succeeds exactly when its region allows it, in parent and child alike. */
  lemma StoreAfterFork(s: Sys, pool: set<Frame>, a: Id, b: Id, s1: Sys, root: Frame, tables: set<Frame>, stack: set<Frame>,
                       c: Id, v: nat, off: nat, byte: Byte, s2: Sys, out: Outcome)
    requires Inv(s, pool) && ForkSpace(s, s1, a, b, root, tables, stack) && s1.owner.Keys <= pool
    requires (c == a || c == b) && v in s.views[a].pages && off < 4096
    requires StoreStep(s1, c, v, off, byte, s2, out)
    ensures v in s.views[a].region
    ensures out == Done <==> s.views[a].region[v].w
    ensures out != Done ==> out == Killed
  {
    ForkInv(s, s1, pool, a, b, root, tables, stack);
    ForkView(s.views[a]);
    assert ViewOk(s.views[a]);
    StoreBeforeFork(s1, pool, c, v, off, byte, s2, out);
  }

  // ---- a run that shows it ----

  const START := Sys(map[], map[], map[], map[])
  const FRAMES: set<Frame> := {1, 2, 3, 4, 7, 9, 10, 11, 12}
  const READ_ONLY := R.Or(U)

  /** The only space, with its root in frame 1, its stack in frame 2 and two more tables. */
  ghost function Solo(pages: map<nat, Pte>, region: map<nat, Flags>, owner: map<Frame, Owner>, counts: map<Frame, U16>): Sys {
    Sys(map[0 := View(1, pages, region, 0, 0)], owner, map[7 := ZeroPage().bytes], counts)
  }

  const EMPTY_OWNER: map<Frame, Owner> := map[1 := TableOf(0), 2 := StackOf(0)]
  const FULL_OWNER: map<Frame, Owner> := map[1 := TableOf(0), 2 := StackOf(0), 3 := TableOf(0), 4 := TableOf(0), 7 := User]

  ghost function Empty(): Sys {
    Solo(map[], map[], EMPTY_OWNER, map[])
  }

  const LEAF := Pte(READ_ONLY.Or(VAD), 7)
  const WIDENED := LEAF.SetFlags(W.Or(VAD))

  /** Page 5 holds frame 7, in a read-only region. */
  ghost function OnePage(leaf: Pte): Sys {
    Solo(map[5 := leaf], map[5 := READ_ONLY], FULL_OWNER, map[7 := 1])
  }

  ghost function Both(): Sys {
    var s := OnePage(WIDENED);
    var w := s.views[0];
    Sys(s.views[0 := w.(pages := SharedPages(w.pages))][1 := w.(root := 9, pages := SharedPages(w.pages))],
        Give(Give(FULL_OWNER, {9, 10, 11}, TableOf(1)), {12}, StackOf(1)), s.data, Bumped(s.counts, Mapped(w)))
  }

  lemma SpaceMade()
    ensures Goes(START, FRAMES, New(0), Done, Empty())
  {
    assert NewSpace(START, Empty(), 0, 1, {1}, {2});
  }

  lemma PageMade()
    ensures Goes(Empty(), FRAMES, MapPage(0, 5, READ_ONLY), Done, OnePage(LEAF))
  {
    assert NewPage(Empty(), OnePage(LEAF), 0, 5, READ_ONLY, 7, {3, 4});
  }

  lemma PageShared()
    requires Inv(OnePage(LEAF), FRAMES)
    ensures Sharers(Maps(OnePage(LEAF).views), 7) == {0}
  {
    var s := OnePage(LEAF);
    assert s.views[0].pages[5].ppn == 7;
    assert 7 in Mapped(s.views[0]);
    OnlySharer(s.counts, Maps(s.views), 0, 7);
  }

  lemma PageRemapped()
    requires Inv(OnePage(LEAF), FRAMES)
    ensures Goes(OnePage(LEAF), FRAMES, Remap(0, 5, W), Done, OnePage(WIDENED))
  {
    hide Inv, Sharers, Maps;
    PageShared();
    var w := OnePage(LEAF).views[0];
    assert w.pages[5 := WIDENED] == map[5 := WIDENED];
    assert AddFlags(OnePage(LEAF), OnePage(WIDENED), 0, 5, W);
  }

  lemma ForkFrames()
    ensures Give(Give(FULL_OWNER, {9, 10, 11}, TableOf(1)), {12}, StackOf(1)).Keys <= FRAMES
  {}

  lemma BothForked()
    ensures ForkSpace(OnePage(WIDENED), Both(), 0, 1, 9, {9, 10, 11}, {12})
  {
    hide SharedPages, Mapped, Bumped, Give, ZeroPage;
  }

  lemma SpaceForked()
    ensures Goes(OnePage(WIDENED), FRAMES, Fork(0, 1), Done, Both())
  {
    hide ForkSpace, Give, SharedPages, Mapped, Bumped;
    ForkFrames();
    BothForked();
  }

  /**
   From boot: a page is mapped read-only, remapped writable, and its space forked.  The run is not a
   run of the reference machine: the child is not what a deep copy would give.
   */
  lemma DishonestFork() returns (ss: seq<Sys>, ops: seq<Op>, outs: seq<Outcome>)
    ensures Trace(ss, FRAMES, ops, outs) && ss[0] == START && Inv(ss[0], FRAMES) && AllHonest(ss[0])
    ensures DishonestAt(ss, ops, 3) && !EagerTrace(SeenRun(ss), ops, outs)
  {
    hide Inv, Goes, OnePage, Both, Empty;
    ss := [START, Empty(), OnePage(LEAF), OnePage(WIDENED), Both()];
    ops := [New(0), MapPage(0, 5, READ_ONLY), Remap(0, 5, W), Fork(0, 1)];
    outs := [Done, Done, Done, Done];
    BootInv(START, FRAMES);
    SpaceMade();
    PageMade();
    assert Trace(ss[..3], FRAMES, ops[..2], outs[..2]);
    RunInv(ss[..3], FRAMES, ops[..2], outs[..2], 2);
    PageRemapped();
    SpaceForked();
    assert Trace(ss, FRAMES, ops, outs);
    WritableLeaf();
    RunRefines(ss, FRAMES, ops, outs);
  }

  lemma WritableLeaf()
    ensures 0 in OnePage(WIDENED).views && !Honest(OnePage(WIDENED).views[0])
  {
    var w := OnePage(WIDENED).views[0];
    assert 5 in w.pages && 5 in w.region && w.pages[5].flags.w && !w.region[5].w;
  }
}
