/**
 `MemoryManager`: the address spaces of all processes over one physical memory.  Every operation is
 proved to perform its step of the copy-on-write machine, so whatever holds of the machine's runs
 holds of the code.  A kernel panic is the result `false` or `Panic`.
 */
module AddressSpaces {
  import opened Basics
  import opened Sv39
  import opened FrameAllocator
  import opened PageTables
  import opened Forking
  import opened Paging
  import opened VmRegions
  import opened KernelStacks
  import opened CowMachine
  import opened EagerCopy
  import opened CowRuns
  import opened SpaceTables

  /** The fields of one `MemoryManager`. */
  datatype Space = Space(root: Frame, regions: seq<VmRegion>, startBrk: Address, brk: Address, stack: KernelStack)

  datatype FaultResult = Handled | Unmapped | Panic

  ghost predicate SpaceOk(sp: Space, w: View) {
    && w.root == sp.root && RegionsOk(sp.regions) && w.region == RegionMap(sp.regions)
    && w.startBrk == sp.startBrk && w.brk == sp.brk
    && (forall p | p in w.region :: p < USER_PAGES && UserFlags(w.region[p]))
  }

  /** Permissions of user memory: readable or executable, so that dropping W leaves a leaf. */
  predicate UserFlags(f: Flags) {
    f.u && (f.r || f.x)
  }

  ghost predicate SpacesOk(spaces: map<Id, Space>, views: map<Id, View>) {
    spaces.Keys == views.Keys && forall a | a in spaces :: SpaceOk(spaces[a], views[a])
  }

  ghost function PoolOf(start: Frame): set<Frame> {
    Span(start, start + POOL)
  }

  /** Fields, page tables, frames and counts fit together, and the machine's invariant holds. */
  ghost predicate Sound(spaces: map<Id, Space>, views: map<Id, View>, owner: map<Frame, Owner>,
                        m: Mem, counts: map<Frame, U16>, used: set<Frame>, pool: set<Frame>) {
    && owner.Keys == used
    && SpacesOk(spaces, views)
    && AllTrees(m, owner, views, 2)
    && Inv(State(views, owner, m, counts), pool)
  }

  lemma SoundFacts(spaces: map<Id, Space>, views: map<Id, View>, owner: map<Frame, Owner>,
                   m: Mem, counts: map<Frame, U16>, used: set<Frame>, pool: set<Frame>, a: Id)
    requires Sound(spaces, views, owner, m, counts, used, pool) && a in spaces
    ensures owner.Keys == used && a in views && SpaceOk(spaces[a], views[a])
    ensures AllTrees(m, owner, views, 2) && Inv(State(views, owner, m, counts), pool)
  {
    hide AllTrees, Inv;
  }

  /** One space changes, and everything fits again. */
  lemma SoundAgain(spaces: map<Id, Space>, views: map<Id, View>, sp: Space, w: View, owner': map<Frame, Owner>,
                   m': Mem, counts': map<Frame, U16>, used': set<Frame>, pool: set<Frame>, a: Id)
    requires SpacesOk(spaces, views) && a in spaces && SpaceOk(sp, w) && owner'.Keys == used'
    requires AllTrees(m', owner', views[a := w], 2) && Inv(State(views[a := w], owner', m', counts'), pool)
    ensures Sound(spaces[a := sp], views[a := w], owner', m', counts', used', pool)
  {}

  lemma MarkedInPool(a: Allocator)
    requires a.Valid()
    ensures a.Used() <= PoolOf(a.start)
  {}

  predicate Present(views: map<Id, View>, a: Id, v: nat) {
    a in views && v in views[a].pages
  }

  /** No other space maps the frame of page `v` of space `a`. */
  ghost predicate Unshared(views: map<Id, View>, a: Id, v: nat) {
    Present(views, a, v) ==> Sharers(Maps(views), views[a].pages[v].ppn) == {a}
  }

  class MemoryManagers {
    const phys: PhysicalMemory
    var spaces: map<Id, Space>
    ghost var views: map<Id, View>
    ghost var owner: map<Frame, Owner>

    ghost function Model(): Sys
      reads this, phys
    {
      State(views, owner, phys.mem, phys.counts)
    }

    ghost function Pool(): set<Frame>
      reads phys
    {
      PoolOf(phys.frames.start)
    }

    ghost predicate Valid()
      reads this, phys, phys.frames, phys.frames.pages
    {
      phys.frames.Valid() && Sound(spaces, views, owner, phys.mem, phys.counts, phys.Used(), Pool())
    }

    /** After boot: the frames in use belong to the kernel, and no process exists. */
    constructor (phys: PhysicalMemory)
      requires phys.frames.Valid() && phys.counts == map[]
      ensures Valid() && this.phys == phys && spaces == map[]
    {
      this.phys := phys;
      spaces, views := map[], map[];
      owner := map x | x in phys.Used() :: Kernel;
      new;
      MarkedInPool(phys.frames);
      RangeSize(phys.frames.start, phys.frames.start + POOL);
      BootInv(Model(), Pool());
    }

    /** Allocates and zeroes a frame and maps it at page `v` of space `a`. */
    method PlacePage(a: Id, v: nat, flags: Flags) returns (r: Option<Frame>)
      requires Valid() && a in spaces && v < USER_PAGES && UserFlags(flags)
      modifies phys`mem, phys.frames.pages
      ensures r.None? ==> phys.frames.Full()
      ensures r.Some? ==> r.value !in owner
      ensures r.Some? && v !in views[a].pages ==>
                MapEffect(old(phys.mem)[r.value := ZeroPage()], owner.Keys + {r.value}, phys.mem, phys.Used(),
                          views[a].root, 2, v, 0, UserLeafFor(r.value, flags))
    {
      hide Sound, Inv, AllTrees, Tree, Nodes, Users, Walk, MapEffect, RegionMap, RegionsOk, Allocator.Used, Allocator.Full;
      SoundFacts(spaces, views, owner, phys.mem, phys.counts, phys.Used(), Pool(), a);
      MapReady(Model(), Pool(), phys.mem, a, v, flags, 2);
      var g := phys.frames.Alloc();
      if g.None? {
        return None;
      }
      phys.mem := phys.mem[g.value := ZeroPage()];
      var ok := phys.MapVm(spaces[a].root, v, g.value, flags, 0);
      r := if ok then g else None;
    }

    /** `map_allocate_page`: a zeroed page in a region of its own. */
    method MapAllocatePage(a: Id, va: Address, flags: Flags) returns (ok: bool)
      requires Valid() && a in spaces && va % PAGE == 0 && va / PAGE < USER_PAGES && UserFlags(flags)
      modifies this, phys, phys.frames.pages
      ensures !ok ==> phys.frames.Full() || va / PAGE in old(views)[a].region
      ensures ok ==> Valid() && Performs(old(Model()), MapPage(a, va / PAGE, flags), Model(), Done)
    {
      hide Sound, Inv, AllTrees, MapEffect, RegionMap, RegionsOk, Allocator.Used, Allocator.Full, Performs;
      SoundFacts(spaces, views, owner, phys.mem, phys.counts, phys.Used(), Pool(), a);
      var sp := spaces[a];
      var v := va / PAGE;
      ghost var s, m := Model(), phys.mem;
      var g := PlacePage(a, v, flags);
      if g.None? {
        return false;
      }
      var rs := Insert(sp.regions, va, flags);
      if rs.None? {
        return false;
      }
      phys.AddRef(g.value);
      ghost var region := RegionMap(rs.value);
      MarkedInPool(phys.frames);
      MapCommit(spaces, sp.(regions := rs.value), s, Pool(), m, phys.mem, phys.Used(), phys.counts, a, v, flags, g.value, region, 2);
      spaces := spaces[a := sp.(regions := rs.value)];
      views := views[a := views[a].(pages := views[a].pages[v := UserLeafFor(g.value, flags)], region := region)];
      ghost var grown := phys.Used() - (owner.Keys + {g.value});
      owner := Give(owner, grown, TableOf(a))[g.value := User];
      ok := true;
    }

    /** `handle_page_fault`: a page is brought in, or a shared page is copied, or the access is refused. */
    method HandlePageFault(a: Id, addr: Address, access: Flags) returns (r: FaultResult)
      requires Valid() && a in spaces
      modifies this`views, this`owner, phys, phys.frames.pages
      ensures r == Handled && (access == R || access == W) ==> Translates(phys.mem, old(spaces)[a].root, 2, addr / PAGE, access)
      ensures r == Panic ==> phys.frames.Full()
      ensures r == Unmapped ==> Valid() && Model() == old(Model()) && Performs(old(Model()), Fault(a, addr / PAGE, access), Model(), Killed)
      ensures r == Handled ==> Valid() && Performs(old(Model()), Fault(a, addr / PAGE, access), Model(), Done)
    {
      hide Sound, Inv, AllTrees, Tree, Walk, RegionMap, RegionsOk, Allocator.Used, Allocator.Full, Performs, MapEffect, CowEffect, Translates;
      SoundFacts(spaces, views, owner, phys.mem, phys.counts, phys.Used(), Pool(), a);
      var sp := spaces[a];
      var page := AlignDown(addr);
      var v := page / PAGE;
      var flags := Lookup(sp.regions, page);
      ScanIsMap(sp.regions, page);
      if flags.None? || !flags.value.Contains(access) {
        FaultKills(Model(), a, v, access);
        return Unmapped;
      }
      WalkFinds(phys.mem, owner, views, a, v, 2);
      var hit := phys.FindLeaf(sp.root, v);
      if hit.Some? {
        if access.w {
          r := CopyFault(a, v, access);
        } else {
          FaultKills(Model(), a, v, access);
          r := Unmapped;
        }
      } else {
        r := ZeroFault(a, v, flags.value, access);
      }
      if r == Handled && (access == R || access == W) {
        SoundFacts(spaces, views, owner, phys.mem, phys.counts, phys.Used(), Pool(), a);
        UsersOwned(Model(), Pool(), a);
        FaultTranslates(old(Model()), Model(), phys.mem, a, v, access, 2);
      }
    }

    /** `remap_page`: more permissions for a mapped page; the region keeps its own. */
    method RemapPage(a: Id, va: Address, flags: Flags) returns (ok: bool)
      requires Valid() && a in spaces && va / PAGE < USER_PAGES
      requires flags.w ==> Unshared(views, a, va / PAGE)
      modifies this`views, phys`mem
      ensures ok <==> Present(old(views), a, va / PAGE)
      ensures ok ==> Valid() && Performs(old(Model()), Remap(a, va / PAGE, flags), Model(), Done)
    {
      hide Sound, Inv, AllTrees, Tree, Nodes, Users, Walk, RegionMap, RegionsOk, Allocator.Used, Allocator.Full, Performs, MapEffect;
      SoundFacts(spaces, views, owner, phys.mem, phys.counts, phys.Used(), Pool(), a);
      var v := va / PAGE;
      ghost var s, m := Model(), phys.mem;
      WalkFinds(m, owner, views, a, v, 2);
      UsersOwned(s, Pool(), a);
      ok := phys.RemapVm(spaces[a].root, v, flags);
      if ok {
        RemapCommit(spaces, s, Pool(), m, phys.mem, a, v, flags, 2);
        views := views[a := views[a].(pages := views[a].pages[v := views[a].pages[v].SetFlags(flags.Or(VAD))])];
      }
    }

    /** The loader's copy: `translate`, then a write through the kernel's own mapping of the frame. */
    method CopyToPage(a: Id, va: Address, bytes: seq<Byte>) returns (ok: bool)
      requires Valid() && a in spaces && va / PAGE < USER_PAGES && va % PAGE + |bytes| <= PAGE
      requires Unshared(views, a, va / PAGE)
      modifies phys`mem
      ensures ok <==> Present(views, a, va / PAGE)
      ensures !ok ==> Valid() && Model() == old(Model())
      ensures ok ==> Valid() && Performs(old(Model()), Fill(a, va / PAGE, va % PAGE, bytes), Model(), Done)
    {
      hide Sound, Inv, AllTrees, Tree, Nodes, Users, Walk, RegionMap, RegionsOk, Allocator.Used, Allocator.Full, Performs, Overlay;
      SoundFacts(spaces, views, owner, phys.mem, phys.counts, phys.Used(), Pool(), a);
      var v := va / PAGE;
      ghost var s, m := Model(), phys.mem;
      WalkFinds(m, owner, views, a, v, 2);
      var hit := phys.FindLeaf(spaces[a].root, v);
      if hit.None? {
        return false;
      }
      var (table, l) := hit.value;
      var x := EntryAt(phys.mem, table, v, l).ppn;
      MapsCounted(s, Pool(), a, v);
      FillCommit(spaces, s, Pool(), m, a, v, va % PAGE, bytes);
      phys.mem := phys.mem[x := Data(Overlay(phys.mem[x].bytes, va % PAGE, bytes))];
      ok := true;
    }

    /** The leaf the hardware finds for a user access; outside the user pages there is none. */
    method UserLeafOf(a: Id, v: nat) returns (leaf: Option<Pte>)
      requires Valid() && a in spaces
      ensures a in views && leaf == LeafSeen(views, a, v)
      ensures leaf.Some? ==> leaf.value.ppn in phys.mem && phys.mem[leaf.value.ppn].Data?
    {
      hide Sound, Inv, AllTrees, Tree, Nodes, Users, Walk, RegionMap, RegionsOk, Allocator.Used, Allocator.Full;
      SoundFacts(spaces, views, owner, phys.mem, phys.counts, phys.Used(), Pool(), a);
      PagesInUserPart(spaces, views, owner, phys.mem, phys.counts, phys.Used(), Pool(), a, v);
      if v >= USER_PAGES {
        return None;
      }
      WalkFinds(phys.mem, owner, views, a, v, 2);
      var hit := phys.FindLeaf(spaces[a].root, v);
      if hit.None? {
        return None;
      }
      MapsCounted(Model(), Pool(), a, v);
      leaf := Some(EntryAt(phys.mem, hit.value.0, v, hit.value.1));
    }

    /** A user load: through a readable leaf, or after the kernel has handled the fault. */
    method Load(a: Id, va: Address) returns (ok: bool, out: Outcome)
      requires Valid() && a in spaces
      modifies this`views, this`owner, phys, phys.frames.pages
      ensures !ok ==> phys.frames.Full()
      ensures ok ==> Valid() && Performs(old(Model()), Op.Load(a, va / PAGE, va % PAGE), Model(), out)
    {
      hide Sound, Inv, RegionMap, RegionsOk, Allocator.Used, Allocator.Full, Performs, Translates, LoadStep;
      ghost var s := Model();
      var v, off := va / PAGE, va % PAGE;
      ok := true;
      var leaf := UserLeafOf(a, v);
      if leaf.Some? && leaf.value.flags.r {
        LoadServed(s, a, v, off);
        out := Loaded(phys.mem[leaf.value.ppn].bytes[off]);
        return;
      }
      var fault := HandlePageFault(a, va, R);
      if fault == Panic {
        ok, out := false, Killed;
        return;
      }
      LoadFaulted(s, Model(), a, v, off, if fault == Handled then Done else Killed);
      out := Killed;
      if fault == Handled {
        leaf := UserLeafOf(a, v);
        out := Loaded(phys.mem[leaf.value.ppn].bytes[off]);
      }
    }

    /** A user store: through a writable leaf, or after the kernel has handled the fault. */
    method Store(a: Id, va: Address, byte: Byte) returns (ok: bool, out: Outcome)
      requires Valid() && a in spaces
      modifies this`views, this`owner, phys, phys.frames.pages
      ensures !ok ==> phys.frames.Full()
      ensures ok ==> Valid() && Performs(old(Model()), Op.Store(a, va / PAGE, va % PAGE, byte), Model(), out)
    {
      hide Sound, Inv, RegionMap, RegionsOk, Allocator.Used, Allocator.Full, Performs, Translates, StoreStep, WriteByte, AllTrees;
      ghost var s := Model();
      var v, off := va / PAGE, va % PAGE;
      ok, out := true, Done;
      var leaf := UserLeafOf(a, v);
      if !(leaf.Some? && leaf.value.flags.w) {
        var fault := HandlePageFault(a, va, W);
        if fault == Panic {
          ok := false;
          return;
        }
        if fault == Unmapped {
          StoreKilled(s, Model(), a, v, off, byte);
          out := Killed;
          return;
        }
        StoreReady(s, Model(), a, v);
        leaf := UserLeafOf(a, v);
      }
      ghost var s1 := Model();
      SoundFacts(spaces, views, owner, phys.mem, phys.counts, phys.Used(), Pool(), a);
      StoreCommit(spaces, s1, Pool(), phys.mem, a, v, off, byte);
      var x := leaf.value.ppn;
      phys.mem := phys.mem[x := Data(ByteSet(phys.mem[x].bytes, off, byte))];
      StoreServed(s, s1, Model(), a, v, off, byte);
    }

    /** `brk`: moves the break; the pages it passes get regions of their own, nothing is mapped yet. */
    method Brk(a: Id, newBrk: Address) returns (r: Address)
      requires Valid() && a in spaces && newBrk <= USER_PAGES * PAGE
      modifies this`spaces, this`views
      ensures Valid() && r == spaces[a].brk
      ensures BreakMoved(old(views)[a].region, old(spaces)[a].brk, views[a].region, r, spaces[a].startBrk, newBrk)
      ensures Performs(old(Model()), Regions(a, views[a].region, spaces[a].startBrk, r), Model(), Done)
    {
      hide Sound, Inv, AllTrees, RegionMap, RegionsOk, Allocator.Used, Allocator.Full, Performs, Filled;
      SoundFacts(spaces, views, owner, phys.mem, phys.counts, phys.Used(), Pool(), a);
      var sp := spaces[a];
      ghost var s := Model();
      var rs, brk := MoveBreak(sp.regions, sp.startBrk, sp.brk, newBrk);
      ghost var region := RegionMap(rs);
      BreakFits(s.views[a].region, sp.brk, region, brk, sp.startBrk, newBrk);
      RegionCommit(spaces, sp.(regions := rs, brk := brk), s, Pool(), phys.mem, a, region, sp.startBrk, brk);
      spaces := spaces[a := sp.(regions := rs, brk := brk)];
      views := views[a := views[a].(region := region, startBrk := sp.startBrk, brk := brk)];
      r := brk;
    }

    /** `set_initial_brk`. */
    method SetInitialBrk(a: Id, brk: Address)
      requires Valid() && a in spaces
      modifies this`spaces, this`views
      ensures Valid() && spaces[a] == old(spaces)[a].(startBrk := brk, brk := brk)
      ensures Performs(old(Model()), Regions(a, old(views)[a].region, brk, brk), Model(), Done)
    {
      hide Sound, Inv, AllTrees, RegionMap, RegionsOk, Allocator.Used, Allocator.Full, Performs;
      SoundFacts(spaces, views, owner, phys.mem, phys.counts, phys.Used(), Pool(), a);
      ghost var s := Model();
      RegionCommit(spaces, spaces[a].(startBrk := brk, brk := brk), s, Pool(), phys.mem, a, views[a].region, brk, brk);
      spaces := spaces[a := spaces[a].(startBrk := brk, brk := brk)];
      views := views[a := views[a].(region := views[a].region, startBrk := brk, brk := brk)];
    }

    /** The fault path of a page that is mapped but not writable. */
    method CopyFault(a: Id, v: nat, access: Flags) returns (r: FaultResult)
      requires Valid() && a in spaces && v < USER_PAGES && v in views[a].pages
      requires v in views[a].region && views[a].region[v].Contains(access) && access.w
      modifies this`views, this`owner, phys, phys.frames.pages
      ensures r == Handled || (r == Panic && phys.frames.Full())
      ensures r == Handled ==> Valid() && Performs(old(Model()), Fault(a, v, access), Model(), Done)
    {
      hide Sound, Inv, AllTrees, Tree, Walk, Nodes, Users, RegionMap, RegionsOk, Allocator.Used, Allocator.Full, Performs, CowEffect;
      SoundFacts(spaces, views, owner, phys.mem, phys.counts, phys.Used(), Pool(), a);
      ghost var s, m := Model(), phys.mem;
      CopyReady(s, Pool(), m, a, v, 2);
      var g := phys.CopyOnWrite(spaces[a].root, v);
      if g.None? {
        return Panic;
      }
      MarkedInPool(phys.frames);
      CopyCommit(spaces, s, Pool(), m, phys.mem, phys.Used(), phys.counts, a, v, g.value, 2);
      ghost var p := views[a].pages[v];
      views := views[a := views[a].(pages := views[a].pages[v := p.(ppn := g.value).SetFlags(W)])];
      owner := CopiedOwner(owner, s.counts, p.ppn, g.value);
      FaultCopies(s, Model(), a, v, access, g.value);
      r := Handled;
    }

    /** The fault path of a page that is not there yet. */
    method ZeroFault(a: Id, v: nat, flags: Flags, access: Flags) returns (r: FaultResult)
      requires Valid() && a in spaces && v < USER_PAGES && v !in views[a].pages
      requires v in views[a].region && views[a].region[v] == flags && flags.Contains(access)
      modifies this`views, this`owner, phys, phys.frames.pages
      ensures r == Handled || (r == Panic && phys.frames.Full())
      ensures r == Handled ==> Valid() && Performs(old(Model()), Fault(a, v, access), Model(), Done)
    {
      hide Sound, Inv, AllTrees, RegionMap, RegionsOk, Allocator.Used, Allocator.Full, Performs, MapEffect;
      SoundFacts(spaces, views, owner, phys.mem, phys.counts, phys.Used(), Pool(), a);
      ghost var s, m := Model(), phys.mem;
      var g := PlacePage(a, v, flags);
      if g.None? {
        return Panic;
      }
      phys.AddRef(g.value);
      MarkedInPool(phys.frames);
      ghost var region := views[a].region;
      assert spaces[a := spaces[a]] == spaces;
      PageCommit(spaces, spaces[a], s, Pool(), m, phys.mem, phys.Used(), phys.counts, a, v, flags, g.value, region, 2);
      views := views[a := views[a].(pages := views[a].pages[v := UserLeafFor(g.value, flags)], region := region)];
      ghost var grown := phys.Used() - (owner.Keys + {g.value});
      owner := Give(owner, grown, TableOf(a))[g.value := User];
      FaultPageIn(s, Model(), a, v, access, g.value, grown);
      r := Handled;
    }

    /** `create_kernel_stack`: seventeen frames for the stack of space `a`. */
    method CreateKernelStack(a: Id) returns (ok: bool)
      requires Valid() && a in spaces && OwnedBy(owner, StackOf(a)) == {}
      modifies this`spaces, this`owner, phys.frames.pages
      ensures !ok ==> phys.frames.Full()
      ensures ok ==> Valid() && Performs(old(Model()), Stack(a), Model(), Done)
      ensures ok ==> a in spaces && (StackHeld(OwnedBy(owner, StackOf(a)), spaces[a].stack) <==> StackFits(phys.frames.start, old(phys.Used())))
    {
      hide Sound, Inv, AllTrees, RegionMap, RegionsOk, Allocator.Used, Allocator.Full, Performs, StackHeld, StackFits, OwnedBy;
      SoundFacts(spaces, views, owner, phys.mem, phys.counts, phys.Used(), Pool(), a);
      ghost var s := Model();
      var st: Option<KernelStack>;
      ghost var got: set<Frame>;
      st, got := AllocStack(phys.frames);
      if st.None? {
        return false;
      }
      MarkedInPool(phys.frames);
      StackCommit(spaces, spaces[a].(stack := st.value), s, Pool(), phys.mem, phys.Used(), a, got);
      spaces := spaces[a := spaces[a].(stack := st.value)];
      owner := Give(owner, got, StackOf(a));
      ok := true;
    }

    /** The first half of `fork`: the tables are duplicated and the fields copied. */
    method ForkTables(a: Id, b: Id) returns (ok: bool)
      requires Valid() && a in spaces && b !in spaces
      modifies this, phys, phys.frames.pages
      ensures !ok ==> phys.frames.Full()
      ensures ok ==> Valid() && Performs(old(Model()), Op.Fork(a, b), Model(), Done)
      ensures ok ==> b in spaces && OwnedBy(owner, StackOf(b)) == {}
    {
      hide Sound, Inv, AllTrees, Tree, Nodes, RegionMap, RegionsOk, Allocator.Used, Allocator.Full, Performs, ForkEffect, OwnedBy, SharedPages, Give, Walk;
      SoundFacts(spaces, views, owner, phys.mem, phys.counts, phys.Used(), Pool(), a);
      ghost var s, m := Model(), phys.mem;
      WalkFinds(m, owner, views, a, 0, 2);
      var root := phys.Fork(spaces[a].root, 2);
      if root.None? {
        return false;
      }
      MarkedInPool(phys.frames);
      ForkCommit(spaces, s, Pool(), m, phys.mem, phys.Used(), phys.counts, a, b, root.value, 2);
      spaces := spaces[b := spaces[a].(root := root.value, stack := NoStack)];
      ghost var w := views[a];
      views := views[a := w.(pages := SharedPages(w.pages))][b := w.(root := root.value, pages := SharedPages(w.pages))];
      owner := Give(Give(owner, phys.Used() - owner.Keys, TableOf(b)), {}, StackOf(b));
      ok := true;
    }

    /** `fork`: duplicate the tables, then allocate a kernel stack for the child. */
    method Fork(a: Id, b: Id) returns (ok: bool)
      requires Valid() && a in spaces && b !in spaces
      modifies this, phys, phys.frames.pages
      ensures !ok ==> phys.frames.Full()
      ensures ok ==> Valid() && Run(old(Model()), Pool(), [Op.Fork(a, b), Stack(b)], [Done, Done], Model())
    {
      hide Sound, Performs, Allocator.Used, Allocator.Full, OwnedBy, Run;
      ok := ForkTables(a, b);
      if !ok {
        return;
      }
      ghost var s1 := Model();
      WithinPool(spaces, views, owner, phys.mem, phys.counts, phys.Used(), Pool());
      ok := CreateKernelStack(b);
      if ok {
        WithinPool(spaces, views, owner, phys.mem, phys.counts, phys.Used(), Pool());
        TwoSteps(old(Model()), Pool(), Op.Fork(a, b), s1, Stack(b), Model());
      }
    }

    /** `kvm_full_map`: the direct mapping (166 gigapages, RW) and the kernel image (2 gigapages, RWX). */
    method KvmFullMap(root: Frame)
      requires phys.frames.Valid() && root in phys.Used() && KernelTree(phys.mem, root, 2, 0)
      modifies phys`mem, phys.frames.pages
      ensures KernelTree(phys.mem, root, 2, KERNEL_SLOTS) && phys.Used() == old(phys.Used())
      ensures Agree(old(phys.mem), phys.mem, phys.Used() - {root})
    {
      hide KernelTree, Tree, Nodes, Users, Walk, MapEffect, Allocator.Used, Allocator.Full, MayMap;
      var k := 0;
      while k < KERNEL_SLOTS
        invariant 0 <= k <= KERNEL_SLOTS && KernelTree(phys.mem, root, 2, k)
        invariant phys.Used() == old(phys.Used()) && Agree(old(phys.mem), phys.mem, phys.Used() - {root})
      {
        var v := (KERNEL_SLOT + k) * 0x4_0000;
        var ppn := if k < 166 then k * 0x4_0000 else 0x8_0000 + (k - 166) * 0x4_0000;
        var flags := if k < 166 then RW else RWX;
        ghost var m := phys.mem;
        GigaPage(k, 2);
        KernelReady(m, phys.Used(), root, 2, k, v, ppn, flags);
        var ok := phys.MapVm(root, v, ppn, flags, 2);
        KernelMapped(m, phys.Used(), phys.mem, root, 2, k, v, ppn, flags);
        k := k + 1;
      }
    }

    /** `MemoryManager::new`: a root table that maps the kernel and nothing else. */
    method New(b: Id) returns (ok: bool)
      requires Valid() && b !in spaces
      modifies this, phys`mem, phys.frames.pages
      ensures !ok ==> phys.frames.Full()
      ensures ok ==> Valid() && Performs(old(Model()), Op.New(b), Model(), Done)
      ensures ok ==> b in spaces && OwnedBy(owner, StackOf(b)) == {}
    {
      hide Sound, Inv, AllTrees, KernelTree, Allocator.Used, Allocator.Full, Performs, OwnedBy;
      ghost var s, m := Model(), phys.mem;
      OwnersUsed(spaces, views, owner, m, phys.counts, phys.Used(), Pool());
      var g := phys.frames.Alloc();
      if g.None? {
        return false;
      }
      phys.mem := phys.mem[g.value := BlankTable()];
      KernelStart(phys.mem, g.value, 2);
      KvmFullMap(g.value);
      MarkedInPool(phys.frames);
      NewCommit(spaces, s, Pool(), m, phys.mem, b, g.value, 2);
      spaces := spaces[b := Space(g.value, [], 0, 0, NoStack)];
      views := views[b := View(g.value, map[], map[], 0, 0)];
      owner := Give(Give(owner, {g.value}, TableOf(b)), {}, StackOf(b));
      ok := true;
    }

    /** Drops the reference of every mapped page, region by region. */
    method DropPages(a: Id)
      requires Valid() && a in spaces
      modifies phys`counts, phys.frames.pages
      ensures phys.counts == Released(old(phys.counts), Mapped(views[a]))
      ensures phys.Used() == old(phys.Used()) - Last(old(phys.counts), Mapped(views[a]))
    {
      hide Sound, Inv, AllTrees, Tree, Walk, Mapped, RegionMap, Released, Last, Pages, Allocator.Used, Allocator.Full, Dropped;
      SoundFacts(spaces, views, owner, phys.mem, phys.counts, phys.Used(), Pool(), a);
      ghost var s, w, c, used := Model(), views[a], phys.counts, phys.Used();
      var sp := spaces[a];
      var i := 0;
      PagesNone(w, sp.regions, c);
      while i < |sp.regions|
        invariant 0 <= i <= |sp.regions|
        invariant phys.counts == Released(c, Pages(w, sp.regions, i)) && phys.Used() == used - Last(c, Pages(w, sp.regions, i))
      {
        RegionReady(s, Pool(), phys.mem, sp, a, i, 2);
        if sp.regions[i].start <= DIRECT_MAPPING_BASE {
          var v := sp.regions[i].start / PAGE;
          var hit := phys.FindLeaf(sp.root, v);
          if hit.Some? {
            var (tb, l) := hit.value;
            var x := EntryAt(phys.mem, tb, v, l).ppn;
            ReleaseNext(c, Pages(w, sp.regions, i), x);
            phys.DropRef(x);
          }
        }
        i := i + 1;
      }
      PagesAll(s, Pool(), sp, a);
    }

    /** `free`: the pages, the kernel stack, then the tables. */
    method Free(a: Id)
      requires Valid() && a in spaces && StackHeld(OwnedBy(owner, StackOf(a)), spaces[a].stack)
      modifies this, phys`counts, phys.frames.pages
      ensures Valid() && Performs(old(Model()), Op.Free(a), Model(), Done)
    {
      hide Sound, Inv, AllTrees, Tree, Nodes, Mapped, RegionMap, Released, Last, Allocator.Used, Allocator.Full, Performs, OwnedBy, StackHeld, LastFrames, StackFrames;
      ghost var s := Model();
      SoundFacts(spaces, views, owner, phys.mem, phys.counts, phys.Used(), Pool(), a);
      FreeReady(s, Pool(), phys.mem, a, spaces[a].stack, 2);
      DropPages(a);
      FreeStack(phys.frames, spaces[a].stack);
      phys.TraverseFree(spaces[a].root, 2);
      FreeCommit(spaces, s, Pool(), phys.mem, phys.Used(), a, 2);
      spaces := spaces - {a};
      views := views - {a};
      owner := owner - LastFrames(s, a);
    }
  }

  /** The machine can take this step with this outcome. */
  ghost predicate Performs(s: Sys, op: Op, s': Sys, out: Outcome) {
    Applicable(s.views.Keys, op) && Step(s, op, s', out)
  }

  // ---- what the methods need to know ----

  lemma UsersOwned(s: Sys, pool: set<Frame>, a: Id)
    requires Inv(s, pool) && a in s.views
    ensures ViewOk(s.views[a]) && Mapped(s.views[a]) <= s.owner.Keys && s.counts.Keys <= s.owner.Keys
  {
    MappedInMaps(s.views, s.counts, a);
  }

  /** Before a page is mapped: any free frame `g` can be mapped at `v`, unless a leaf is there already. */
  lemma MapReady(s: Sys, pool: set<Frame>, m: Mem, a: Id, v: nat, flags: Flags, n: nat)
    requires n == 2 && Inv(s, pool) && AllTrees(m, s.owner, s.views, n) && a in s.views && v < USER_PAGES
    requires UserFlags(flags)
    ensures forall g | g !in s.owner :: Mappable(s, m[g := ZeroPage()], a, v, g, flags, n)
  {
    hide Inv;
    UsersOwned(s, pool, a);
    assert TreeOf(m, s.owner, a, s.views[a], n);
    forall g | g !in s.owner ensures Mappable(s, m[g := ZeroPage()], a, v, g, flags, n) {
      MappableAt(s, m, a, v, g, flags, n);
    }
  }

  ghost predicate Mappable(s: Sys, m: Mem, a: Id, v: nat, g: Frame, flags: Flags, n: nat)
    requires n <= 2 && a in s.views
  {
    var w := s.views[a];
    && Tree(m, w.root, n) && Nodes(m, w.root, n) <= s.owner.Keys
    && MayMap(m, w.root, n, v, g, flags) && !Covered(m, w.root, n, v, 0)
    && (v !in w.pages ==> MappedLeaf(Walk(m, w.root, n, v), g, flags) == UserLeafFor(g, flags))
  }

  lemma MappableAt(s: Sys, m: Mem, a: Id, v: nat, g: Frame, flags: Flags, n: nat)
    requires n == 2 && a in s.views && TreeOf(m, s.owner, a, s.views[a], n) && g !in s.owner && v < USER_PAGES
    requires ViewOk(s.views[a]) && Mapped(s.views[a]) <= s.owner.Keys && UserFlags(flags)
    ensures Mappable(s, m[g := ZeroPage()], a, v, g, flags, n)
  {
    hide Tree, Nodes, Users, Walk, Mapped;
    OtherTree(m, m[g := ZeroPage()], s.owner, s.owner, a, s.views[a], n);
    OwnedWithin(s.owner, TableOf(a));
  }

  /** A zeroed frame was mapped at page `v`. */
  lemma PageCommit(spaces: map<Id, Space>, sp: Space, s: Sys, pool: set<Frame>, m: Mem, m': Mem, used': set<Frame>, counts': map<Frame, U16>,
                   a: Id, v: nat, flags: Flags, g: Frame, region: map<nat, Flags>, n: nat)
    requires Sound(spaces, s.views, s.owner, m, s.counts, s.owner.Keys, pool) && n == 2 && s.data == DataOf(m)
    requires a in spaces && a in s.views && g !in s.owner && v < USER_PAGES && v !in s.views[a].pages
    requires SpaceOk(sp, s.views[a].(region := region)) && v in region && s.views[a].region.Keys <= region.Keys
    requires UserFlags(flags) && used' <= pool && counts' == Bumped(s.counts, {g})
    requires MapEffect(m[g := ZeroPage()], s.owner.Keys + {g}, m', used', s.views[a].root, n, v, 0, UserLeafFor(g, flags))
    ensures var views' := s.views[a := s.views[a].(pages := s.views[a].pages[v := UserLeafFor(g, flags)], region := region)];
            var grown := used' - (s.owner.Keys + {g});
            var owner' := Give(s.owner, grown, TableOf(a))[g := User];
            && Sound(spaces[a := sp], views', owner', m', counts', used', pool)
            && PageIn(s, State(views', owner', m', counts'), a, v, flags, g, grown, region)
  {
    hide Inv, AllTrees, PageIn, MapEffect, RegionsOk, RegionMap;
    UsersOwned(s, pool, a);
    assert counts' == s.counts[g := 1];
    MapIsPageIn(m, s.views, s.owner, s.counts, m', used', a, v, flags, g, region, n);
    var views' := s.views[a := s.views[a].(pages := s.views[a].pages[v := UserLeafFor(g, flags)], region := region)];
    var grown := used' - (s.owner.Keys + {g});
    var owner' := Give(s.owner, grown, TableOf(a))[g := User];
    PageInInv(s, State(views', owner', m', counts'), pool, a, v, flags, g, grown, region);
    SoundAgain(spaces, s.views, sp, views'[a], owner', m', counts', used', pool, a);
  }

  lemma MapPerforms(s: Sys, s': Sys, a: Id, v: nat, flags: Flags, g: Frame, grown: set<Frame>, region: map<nat, Flags>)
    requires a in s.views && v !in s.views[a].region && region == s.views[a].region[v := flags]
    requires PageIn(s, s', a, v, flags, g, grown, region)
    ensures Performs(s, MapPage(a, v, flags), s', Done)
  {
    hide PageIn;
    assert NewPage(s, s', a, v, flags, g, grown);
  }

  lemma MapCommit(spaces: map<Id, Space>, sp: Space, s: Sys, pool: set<Frame>, m: Mem, m': Mem, used': set<Frame>, counts': map<Frame, U16>,
                  a: Id, v: nat, flags: Flags, g: Frame, region: map<nat, Flags>, n: nat)
    requires Sound(spaces, s.views, s.owner, m, s.counts, s.owner.Keys, pool) && n == 2 && s.data == DataOf(m)
    requires a in spaces && a in s.views && g !in s.owner && v < USER_PAGES && v !in s.views[a].region
    requires sp == spaces[a].(regions := sp.regions) && RegionsOk(sp.regions) && RegionMap(sp.regions) == region
    requires region == s.views[a].region[v := flags]
    requires UserFlags(flags) && used' <= pool && counts' == Bumped(s.counts, {g})
    requires v !in s.views[a].pages ==>
               MapEffect(m[g := ZeroPage()], s.owner.Keys + {g}, m', used', s.views[a].root, n, v, 0, UserLeafFor(g, flags))
    ensures var views' := s.views[a := s.views[a].(pages := s.views[a].pages[v := UserLeafFor(g, flags)], region := region)];
            var grown := used' - (s.owner.Keys + {g});
            var owner' := Give(s.owner, grown, TableOf(a))[g := User];
            && Sound(spaces[a := sp], views', owner', m', counts', used', pool)
            && Performs(s, MapPage(a, v, flags), State(views', owner', m', counts'), Done)
  {
    hide Sound, Inv, AllTrees, MapEffect, RegionMap, RegionsOk, Performs, PageIn;
    SoundFacts(spaces, s.views, s.owner, m, s.counts, s.owner.Keys, pool, a);
    UsersOwned(s, pool, a);
    PageCommit(spaces, sp, s, pool, m, m', used', counts', a, v, flags, g, region, n);
    var views' := s.views[a := s.views[a].(pages := s.views[a].pages[v := UserLeafFor(g, flags)], region := region)];
    var grown := used' - (s.owner.Keys + {g});
    var owner' := Give(s.owner, grown, TableOf(a))[g := User];
    MapPerforms(s, State(views', owner', m', counts'), a, v, flags, g, grown, region);
  }

  lemma FaultPageIn(s: Sys, s': Sys, a: Id, v: nat, access: Flags, g: Frame, grown: set<Frame>)
    requires a in s.views && v in s.views[a].region && s.views[a].region[v].Contains(access) && v !in s.views[a].pages
    requires PageIn(s, s', a, v, s.views[a].region[v], g, grown, s.views[a].region)
    ensures Performs(s, Fault(a, v, access), s', Done)
  {}

  lemma FaultKills(s: Sys, a: Id, v: nat, access: Flags)
    requires a in s.views
    requires v !in s.views[a].region || !s.views[a].region[v].Contains(access) || (v in s.views[a].pages && !access.w)
    ensures Performs(s, Fault(a, v, access), s, Killed)
  {}

  lemma FaultCopies(s: Sys, s': Sys, a: Id, v: nat, access: Flags, g: Frame)
    requires a in s.views && v in s.views[a].region && s.views[a].region[v].Contains(access) && v in s.views[a].pages && access.w
    requires CopyPage(s, s', a, v, g)
    ensures Performs(s, Fault(a, v, access), s', Done)
  {}

  /** Before a shared page is copied. */
  lemma CopyReady(s: Sys, pool: set<Frame>, m: Mem, a: Id, v: nat, n: nat)
    requires n == 2 && Inv(s, pool) && s.data == DataOf(m) && AllTrees(m, s.owner, s.views, n)
    requires a in s.views && v < USER_PAGES && v in s.views[a].pages
    ensures var w := s.views[a];
            && Tree(m, w.root, n) && Nodes(m, w.root, n) <= s.owner.Keys && Users(m, w.root, n) <= s.owner.Keys
            && Walk(m, w.root, n, v) == Some(Hit(w.pages[v], 0))
            && Shareable(m, w.root, n, s.counts, w.pages[v]) && s.counts.Keys <= s.owner.Keys
  {
    UsersOwned(s, pool, a);
    MapsCounted(s, pool, a, v);
    hide Inv, Tree, Nodes, Users, Walk, Mapped;
    assert TreeOf(m, s.owner, a, s.views[a], n);
    OwnedWithin(s.owner, TableOf(a));
  }

  /** The copy belongs to the user; the old frame is free again when this was the last reference. */
  ghost function CopiedOwner(owner: map<Frame, Owner>, counts: map<Frame, U16>, x: Frame, g: Frame): map<Frame, Owner> {
    (if x in counts && counts[x] == 1 then owner - {x} else owner)[g := User]
  }

  /** Page `v` was copied. */
  lemma CopyCommit(spaces: map<Id, Space>, s: Sys, pool: set<Frame>, m: Mem, m': Mem, used': set<Frame>, counts': map<Frame, U16>,
                   a: Id, v: nat, g: Frame, n: nat)
    requires Sound(spaces, s.views, s.owner, m, s.counts, s.owner.Keys, pool) && n == 2 && s.data == DataOf(m)
    requires a in spaces && a in s.views && v < USER_PAGES && v in s.views[a].pages && used' <= pool
    requires CowEffect(m, s.owner.Keys, s.counts, m', used', counts', s.views[a].root, n, v, s.views[a].pages[v], g)
    ensures var p := s.views[a].pages[v];
            var views' := s.views[a := s.views[a].(pages := s.views[a].pages[v := p.(ppn := g).SetFlags(W)])];
            var owner' := CopiedOwner(s.owner, s.counts, p.ppn, g);
            && Sound(spaces, views', owner', m', counts', used', pool)
            && CopyPage(s, State(views', owner', m', counts'), a, v, g)
  {
    hide Inv, AllTrees, CopyPage, CowEffect, RegionsOk, RegionMap;
    UsersOwned(s, pool, a);
    MapsCounted(s, pool, a, v);
    CowIsCopy(m, s.views, s.owner, s.counts, m', used', counts', a, v, g, n);
    var p := s.views[a].pages[v];
    var views' := s.views[a := s.views[a].(pages := s.views[a].pages[v := p.(ppn := g).SetFlags(W)])];
    var owner' := CopiedOwner(s.owner, s.counts, p.ppn, g);
    CopyInv(s, State(views', owner', m', counts'), pool, a, v, g);
    assert SpaceOk(spaces[a], views'[a]);
    SoundAgain(spaces, s.views, spaces[a], views'[a], owner', m', counts', used', pool, a);
    assert spaces[a := spaces[a]] == spaces;
  }

  /** What a walk of user page `v` finds. */
  lemma WalkFinds(m: Mem, owner: map<Frame, Owner>, views: map<Id, View>, a: Id, v: nat, n: nat)
    requires n <= 2 && AllTrees(m, owner, views, n) && a in views && v < USER_PAGES
    ensures Tree(m, views[a].root, n) && Nodes(m, views[a].root, n) <= owner.Keys
    ensures Walk(m, views[a].root, n, v) == PageHit(views[a], v)
  {}

  /** A walk of page `v` ends in a user leaf that allows the access. */
  ghost predicate Translates(m: Mem, root: Frame, n: nat, v: nat, access: Flags)
    requires n <= 2
  {
    var h := Walk(m, root, n, v);
    h.Some? && h.value.level == 0 && h.value.pte.UserLeaf() && h.value.pte.flags.Contains(access.Or(VAD))
  }

  lemma FaultTranslates(s: Sys, s': Sys, m': Mem, a: Id, v: nat, access: Flags, n: nat)
    requires n <= 2 && v < USER_PAGES && a in s.views && a in s'.views && ViewOk(s'.views[a]) && AllTrees(m', s'.owner, s'.views, n)
    requires Performs(s, Fault(a, v, access), s', Done) && (access == R || access == W)
    ensures Translates(m', s'.views[a].root, n, v, access)
  {}

  lemma RemapCommit(spaces: map<Id, Space>, s: Sys, pool: set<Frame>, m: Mem, m': Mem, a: Id, v: nat, flags: Flags, n: nat)
    requires Sound(spaces, s.views, s.owner, m, s.counts, s.owner.Keys, pool) && n == 2 && s.data == DataOf(m)
    requires a in spaces && a in s.views && v < USER_PAGES && v in s.views[a].pages
    requires flags.w ==> Sharers(Maps(s.views), s.views[a].pages[v].ppn) == {a}
    requires MapEffect(m, s.owner.Keys, m', s.owner.Keys, s.views[a].root, n, v, 0, s.views[a].pages[v].SetFlags(flags.Or(VAD)))
    ensures var views' := s.views[a := s.views[a].(pages := s.views[a].pages[v := s.views[a].pages[v].SetFlags(flags.Or(VAD))])];
            && Sound(spaces, views', s.owner, m', s.counts, s.owner.Keys, pool)
            && Performs(s, Remap(a, v, flags), State(views', s.owner, m', s.counts), Done)
  {
    hide Inv, AllTrees, AddFlags, MapEffect, RegionsOk, RegionMap, Sharers, Maps;
    UsersOwned(s, pool, a);
    RemapIsAddFlags(m, s.views, s.owner, s.counts, m', a, v, flags, n);
    var views' := s.views[a := s.views[a].(pages := s.views[a].pages[v := s.views[a].pages[v].SetFlags(flags.Or(VAD))])];
    AddFlagsInv(s, State(views', s.owner, m', s.counts), pool, a, v, flags);
    assert SpaceOk(spaces[a], views'[a]);
    SoundAgain(spaces, s.views, spaces[a], views'[a], s.owner, m', s.counts, s.owner.Keys, pool, a);
    assert spaces[a := spaces[a]] == spaces;
  }

  /** Bytes of page `v` were replaced. */
  lemma FillCommit(spaces: map<Id, Space>, s: Sys, pool: set<Frame>, m: Mem, a: Id, v: nat, off: nat, bytes: seq<Byte>)
    requires Sound(spaces, s.views, s.owner, m, s.counts, s.owner.Keys, pool) && s.data == DataOf(m)
    requires a in spaces && a in s.views && v in s.views[a].pages && off + |bytes| <= 4096
    requires Sharers(Maps(s.views), s.views[a].pages[v].ppn) == {a}
    ensures var x := s.views[a].pages[v].ppn;
            && x in m && m[x].Data?
            && var m' := m[x := Data(Overlay(m[x].bytes, off, bytes))];
            && Sound(spaces, s.views, s.owner, m', s.counts, s.owner.Keys, pool)
            && Performs(s, Fill(a, v, off, bytes), State(s.views, s.owner, m', s.counts), Done)
  {
    hide Inv, AllTrees, RegionsOk, RegionMap, Overlay, Sharers, Maps;
    MapsCounted(s, pool, a, v);
    var x := s.views[a].pages[v].ppn;
    var m' := m[x := Data(Overlay(m[x].bytes, off, bytes))];
    FillIsFill(m, s.views, s.owner, s.counts, x, Overlay(m[x].bytes, off, bytes), 2);
    FillInv(s, State(s.views, s.owner, m', s.counts), pool, a, v, off, bytes);
  }

  // ---- user accesses ----

  ghost function LeafSeen(views: map<Id, View>, a: Id, v: nat): Option<Pte>
    requires a in views
  {
    if v in views[a].pages then Some(views[a].pages[v]) else None
  }

  lemma PagesInUserPart(spaces: map<Id, Space>, views: map<Id, View>, owner: map<Frame, Owner>,
                        m: Mem, counts: map<Frame, U16>, used: set<Frame>, pool: set<Frame>, a: Id, v: nat)
    requires Sound(spaces, views, owner, m, counts, used, pool) && a in spaces
    ensures a in views && (v in views[a].pages ==> v < USER_PAGES)
  {}

  lemma LoadServed(s: Sys, a: Id, v: nat, off: nat)
    requires a in s.views && v in s.views[a].pages && s.views[a].pages[v].flags.r && s.views[a].pages[v].ppn in s.data && off < 4096
    ensures Performs(s, Op.Load(a, v, off), s, Loaded(s.data[s.views[a].pages[v].ppn][off]))
  {}

  /** The fault of a load: handled, and then the page can be read, or not. */
  lemma LoadFaulted(s: Sys, s': Sys, a: Id, v: nat, off: nat, fault: Outcome)
    requires a in s.views && !(v in s.views[a].pages && s.views[a].pages[v].flags.r) && off < 4096
    requires Performs(s, Fault(a, v, R), s', fault) && (fault == Done || fault == Killed)
    ensures fault == Killed ==> Performs(s, Op.Load(a, v, off), s', Killed)
    ensures fault == Done ==>
              && a in s'.views && v in s'.views[a].pages && s'.views[a].pages[v].ppn in s'.data
              && Performs(s, Op.Load(a, v, off), s', Loaded(s'.data[s'.views[a].pages[v].ppn][off]))
  {
    assert FaultStep(s, a, v, R, s', fault);
  }

  lemma StoreKilled(s: Sys, s': Sys, a: Id, v: nat, off: nat, byte: Byte)
    requires a in s.views && !(v in s.views[a].pages && s.views[a].pages[v].flags.w) && off < 4096
    requires Performs(s, Fault(a, v, W), s', Killed)
    ensures Performs(s, Op.Store(a, v, off, byte), s', Killed)
  {
    assert FaultStep(s, a, v, W, s', Killed);
  }

  /** After a handled write fault the page is there and writable. */
  lemma StoreReady(s: Sys, s1: Sys, a: Id, v: nat)
    requires a in s.views && Performs(s, Fault(a, v, W), s1, Done)
    ensures a in s1.views && v in s1.views[a].pages && s1.views[a].pages[v].flags.w
  {}

  lemma StoreCommit(spaces: map<Id, Space>, s: Sys, pool: set<Frame>, m: Mem, a: Id, v: nat, off: nat, byte: Byte)
    requires Sound(spaces, s.views, s.owner, m, s.counts, s.owner.Keys, pool) && s.data == DataOf(m)
    requires a in spaces && a in s.views && v in s.views[a].pages && s.views[a].pages[v].flags.w && off < 4096
    ensures var x := s.views[a].pages[v].ppn;
            && x in m && m[x].Data?
            && var m' := m[x := Data(ByteSet(m[x].bytes, off, byte))];
            && Sound(spaces, s.views, s.owner, m', s.counts, s.owner.Keys, pool)
            && WriteByte(s, State(s.views, s.owner, m', s.counts), a, v, off, byte)
  {
    hide Inv, AllTrees, RegionsOk, RegionMap;
    MapsCounted(s, pool, a, v);
    var x := s.views[a].pages[v].ppn;
    var m' := m[x := Data(ByteSet(m[x].bytes, off, byte))];
    FillIsFill(m, s.views, s.owner, s.counts, x, ByteSet(m[x].bytes, off, byte), 2);
    WriteInv(s, State(s.views, s.owner, m', s.counts), pool, a, v, off, byte);
  }

  function ByteSet(page: Bytes, off: nat, byte: Byte): Bytes {
    if off < 4096 then page[off := byte] else page
  }

  lemma StoreServed(s: Sys, s1: Sys, s': Sys, a: Id, v: nat, off: nat, byte: Byte)
    requires a in s.views && off < 4096 && WriteByte(s1, s', a, v, off, byte)
    requires if v in s.views[a].pages && s.views[a].pages[v].flags.w then s1 == s else Performs(s, Fault(a, v, W), s1, Done)
    ensures Performs(s, Op.Store(a, v, off, byte), s', Done)
  {
    if !(v in s.views[a].pages && s.views[a].pages[v].flags.w) { assert FaultStep(s, a, v, W, s1, Done); }
  }

  lemma RegionTrees(m: Mem, owner: map<Frame, Owner>, views: map<Id, View>, a: Id, w: View, n: nat)
    requires n <= 2 && AllTrees(m, owner, views, n) && a in views && w.root == views[a].root && w.pages == views[a].pages
    ensures AllTrees(m, owner, views[a := w], n)
  {}

  lemma RegionCommit(spaces: map<Id, Space>, sp: Space, s: Sys, pool: set<Frame>, m: Mem, a: Id, region: map<nat, Flags>, startBrk: Address, brk: Address)
    requires Sound(spaces, s.views, s.owner, m, s.counts, s.owner.Keys, pool) && s.data == DataOf(m)
    requires a in spaces && a in s.views && s.views[a].region.Keys <= region.Keys
    requires forall v | v in s.views[a].region :: region[v] == s.views[a].region[v]
    requires SpaceOk(sp, s.views[a].(region := region, startBrk := startBrk, brk := brk))
    ensures var views' := s.views[a := s.views[a].(region := region, startBrk := startBrk, brk := brk)];
            && Sound(spaces[a := sp], views', s.owner, m, s.counts, s.owner.Keys, pool)
            && Performs(s, Regions(a, region, startBrk, brk), State(views', s.owner, m, s.counts), Done)
  {
    hide Inv, AllTrees, RegionsOk, RegionMap;
    var w := s.views[a].(region := region, startBrk := startBrk, brk := brk);
    var s' := State(s.views[a := w], s.owner, m, s.counts);
    assert SetRegions(s, s', a, region, startBrk, brk);
    SetRegionsInv(s, s', pool, a, region, startBrk, brk);
    RegionTrees(m, s.owner, s.views, a, w, 2);
    SoundAgain(spaces, s.views, sp, w, s.owner, m, s.counts, s.owner.Keys, pool, a);
  }

  /** A break within user memory adds only user pages. */
  lemma BreakFits(m: map<nat, Flags>, brk: Address, m': map<nat, Flags>, brk': Address, startBrk: Address, newBrk: Address)
    requires BreakMoved(m, brk, m', brk', startBrk, newBrk) && newBrk <= USER_PAGES * PAGE
    requires forall p | p in m :: p < USER_PAGES && UserFlags(m[p])
    ensures m.Keys <= m'.Keys && forall p | p in m :: m'[p] == m[p]
    ensures forall p | p in m' :: p < USER_PAGES && UserFlags(m'[p])
  {}

  lemma WithinPool(spaces: map<Id, Space>, views: map<Id, View>, owner: map<Frame, Owner>,
                   m: Mem, counts: map<Frame, U16>, used: set<Frame>, pool: set<Frame>)
    requires Sound(spaces, views, owner, m, counts, used, pool)
    ensures owner.Keys <= pool
  {}

  lemma TwoSteps(s: Sys, pool: set<Frame>, op1: Op, s1: Sys, op2: Op, s2: Sys)
    requires Performs(s, op1, s1, Done) && Performs(s1, op2, s2, Done)
    requires s1.owner.Keys <= pool && s2.owner.Keys <= pool
    ensures Run(s, pool, [op1, op2], [Done, Done], s2)
  {
    hide Step;
    var ss, ops, outs := [s, s1, s2], [op1, op2], [Done, Done];
    forall i | 0 <= i < 2 ensures Goes(ss[i], pool, ops[i], outs[i], ss[i + 1]) {}
    assert Trace(ss, pool, ops, outs);
  }

  lemma StackOwners(owner: map<Frame, Owner>, got: set<Frame>, a: Id)
    requires got !! owner.Keys && OwnedBy(owner, StackOf(a)) == {}
    ensures OwnedBy(Give(owner, got, StackOf(a)), StackOf(a)) == got
    ensures Give(owner, got, StackOf(a)).Keys == owner.Keys + got
    ensures forall b :: OwnedBy(Give(owner, got, StackOf(a)), TableOf(b)) == OwnedBy(owner, TableOf(b))
  {
    var owner' := Give(owner, got, StackOf(a));
    forall x ensures x in OwnedBy(owner', StackOf(a)) <==> x in got {
      assert x !in OwnedBy(owner, StackOf(a));
    }
    forall b ensures OwnedBy(owner', TableOf(b)) == OwnedBy(owner, TableOf(b)) {
      forall x ensures x in OwnedBy(owner', TableOf(b)) <==> x in OwnedBy(owner, TableOf(b)) {}
    }
  }

  lemma SameTrees(m: Mem, owner: map<Frame, Owner>, owner': map<Frame, Owner>, views: map<Id, View>, n: nat)
    requires n <= 2 && AllTrees(m, owner, views, n)
    requires forall b | b in views :: OwnedBy(owner', TableOf(b)) == OwnedBy(owner, TableOf(b))
    ensures AllTrees(m, owner', views, n)
  {}

  lemma StackCommit(spaces: map<Id, Space>, sp: Space, s: Sys, pool: set<Frame>, m: Mem, used': set<Frame>, a: Id, got: set<Frame>)
    requires Sound(spaces, s.views, s.owner, m, s.counts, s.owner.Keys, pool) && s.data == DataOf(m)
    requires a in spaces && sp == spaces[a].(stack := sp.stack) && OwnedBy(s.owner, StackOf(a)) == {}
    requires got !! s.owner.Keys && used' == s.owner.Keys + got && used' <= pool
    ensures Sound(spaces[a := sp], s.views, Give(s.owner, got, StackOf(a)), m, s.counts, used', pool)
    ensures OwnedBy(Give(s.owner, got, StackOf(a)), StackOf(a)) == got
    ensures Performs(s, Stack(a), State(s.views, Give(s.owner, got, StackOf(a)), m, s.counts), Done)
  {
    hide Inv, AllTrees, OwnedBy, RegionsOk, RegionMap;
    var owner' := Give(s.owner, got, StackOf(a));
    var s' := State(s.views, owner', m, s.counts);
    StackOwners(s.owner, got, a);
    assert GiveStack(s, s', a, got);
    GiveStackInv(s, s', pool, a, got);
    SameTrees(m, s.owner, owner', s.views, 2);
    assert s.views[a := s.views[a]] == s.views;
    SoundAgain(spaces, s.views, sp, s.views[a], owner', m, s.counts, used', pool, a);
  }

  lemma NoFramesYet(s: Sys, pool: set<Frame>, b: Id)
    requires Inv(s, pool) && b !in s.views
    ensures OwnedBy(s.owner, TableOf(b)) == {} && OwnedBy(s.owner, StackOf(b)) == {}
  {}

  lemma SoundFork(spaces: map<Id, Space>, views: map<Id, View>, a: Id, b: Id, root: Frame, owner': map<Frame, Owner>,
                  m': Mem, counts': map<Frame, U16>, used': set<Frame>, pool: set<Frame>)
    requires SpacesOk(spaces, views) && a in spaces && b !in spaces && owner'.Keys == used'
    requires var w := views[a];
             var views' := views[a := w.(pages := SharedPages(w.pages))][b := w.(root := root, pages := SharedPages(w.pages))];
             AllTrees(m', owner', views', 2) && Inv(State(views', owner', m', counts'), pool)
    ensures var w := views[a];
            var views' := views[a := w.(pages := SharedPages(w.pages))][b := w.(root := root, pages := SharedPages(w.pages))];
            Sound(spaces[b := spaces[a].(root := root, stack := NoStack)], views', owner', m', counts', used', pool)
  {
    hide AllTrees, Inv;
  }

  lemma ForkedStack(owner: map<Frame, Owner>, tables: set<Frame>, b: Id)
    requires OwnedBy(owner, StackOf(b)) == {} && tables !! owner.Keys
    ensures OwnedBy(Give(Give(owner, tables, TableOf(b)), {}, StackOf(b)), StackOf(b)) == {}
  {}

  ghost predicate ForkCommitted(spaces: map<Id, Space>, s: Sys, pool: set<Frame>, m': Mem, used': set<Frame>, counts': map<Frame, U16>,
                                a: Id, b: Id, root: Frame)
    requires a in spaces && a in s.views
  {
    var w := s.views[a];
    var views' := s.views[a := w.(pages := SharedPages(w.pages))][b := w.(root := root, pages := SharedPages(w.pages))];
    var owner' := Give(Give(s.owner, used' - s.owner.Keys, TableOf(b)), {}, StackOf(b));
    && Sound(spaces[b := spaces[a].(root := root, stack := NoStack)], views', owner', m', counts', used', pool)
    && Performs(s, Op.Fork(a, b), State(views', owner', m', counts'), Done)
    && OwnedBy(owner', StackOf(b)) == {}
  }

  lemma ForkCommit(spaces: map<Id, Space>, s: Sys, pool: set<Frame>, m: Mem, m': Mem, used': set<Frame>, counts': map<Frame, U16>,
                   a: Id, b: Id, root: Frame, n: nat)
    requires Sound(spaces, s.views, s.owner, m, s.counts, s.owner.Keys, pool) && n == 2 && s.data == DataOf(m)
    requires a in spaces && a in s.views && b !in spaces && used' <= pool
    requires ForkEffect(m, s.owner.Keys, s.counts, m', used', counts', s.views[a].root, n, root)
    ensures ForkCommitted(spaces, s, pool, m', used', counts', a, b, root)
  {
    hide Inv, AllTrees, OwnedBy, RegionsOk, RegionMap, ForkEffect, ForkSpace;
    NoFramesYet(s, pool, b);
    ForkIsFork(m, s.views, s.owner, s.counts, m', used', counts', a, b, root, n);
    var w := s.views[a];
    var views' := s.views[a := w.(pages := SharedPages(w.pages))][b := w.(root := root, pages := SharedPages(w.pages))];
    var tables := used' - s.owner.Keys;
    var owner' := Give(Give(s.owner, tables, TableOf(b)), {}, StackOf(b));
    ForkInv(s, State(views', owner', m', counts'), pool, a, b, root, tables, {});
    SoundFork(spaces, s.views, a, b, root, owner', m', counts', used', pool);
    ForkedStack(s.owner, tables, b);
  }

  // ---- a new space ----

  lemma GigaPage(k: nat, n: nat)
    requires k < KERNEL_SLOTS && n == 2
    ensures Index((KERNEL_SLOT + k) * 0x4_0000, n) == KERNEL_SLOT + k
  {}

  lemma KernelReady(m: Mem, used: set<Frame>, root: Frame, n: nat, k: nat, v: nat, ppn: Frame, flags: Flags)
    requires n <= 2 && KernelTree(m, root, n, k) && root in used && Index(v, n) == KERNEL_SLOT + k && flags.r && !flags.u
    ensures Tree(m, root, n) && Nodes(m, root, n) <= used && MayMap(m, root, n, v, ppn, flags)
    ensures Walk(m, root, n, v) == None
    ensures !EntryAt(m, root, v, n).Pointer()
  {
    LoneTable(m, root, n, Index(v, n));
    hide Tree, Nodes, Users, Walk, Index;
  }

  /** A table that is a whole tree has no pointers. */
  lemma LoneTable(m: Mem, root: Frame, n: nat, i: nat)
    requires n <= 2 && Tree(m, root, n) && Nodes(m, root, n) == {root} && i < 512
    ensures !m[root].ptes[i].Pointer()
  {
    var p := m[root].ptes[i];
    assert EntryTree(m, p, n) && root !in EntryNodes(m, p, n);
    EntryWithin(m, root, n, i);
    assert p.Pointer() ==> p.ppn in EntryNodes(m, p, n);
  }

  lemma TopPath(u: nat, v: nat, n: nat)
    requires n <= 2
    ensures SamePath(u, v, n, n) <==> Index(u, n) == Index(v, n)
  {}

  lemma KernelMapped(m: Mem, used: set<Frame>, m': Mem, root: Frame, n: nat, k: nat, v: nat, ppn: Frame, flags: Flags)
    requires n <= 2 && KernelTree(m, root, n, k) && Index(v, n) == KERNEL_SLOT + k && !flags.u
    requires Walk(m, root, n, v) == None && KernelLeaf(k) == Pte(flags.Or(VAD), ppn)
    requires MapEffect(m, used, m', used, root, n, v, n, MappedLeaf(Walk(m, root, n, v), ppn, flags))
    ensures KernelTree(m', root, n, k + 1) && Agree(m, m', used - {root})
  {
    hide Tree, Nodes, Users, Walk, SamePath, Index;
    forall u: nat ensures SamePath(u, v, n, n) <==> Index(u, n) == Index(v, n) { TopPath(u, v, n); }
  }

  lemma OwnersUsed(spaces: map<Id, Space>, views: map<Id, View>, owner: map<Frame, Owner>,
                   m: Mem, counts: map<Frame, U16>, used: set<Frame>, pool: set<Frame>)
    requires Sound(spaces, views, owner, m, counts, used, pool)
    ensures owner.Keys == used && spaces.Keys == views.Keys
  {}

  lemma NewCommit(spaces: map<Id, Space>, s: Sys, pool: set<Frame>, m: Mem, m': Mem, b: Id, g: Frame, n: nat)
    requires Sound(spaces, s.views, s.owner, m, s.counts, s.owner.Keys, pool) && n == 2 && s.data == DataOf(m)
    requires b !in spaces && g !in s.owner && s.owner.Keys + {g} <= pool
    requires KernelTree(m', g, n, KERNEL_SLOTS) && Agree(m, m', s.owner.Keys)
    ensures var views' := s.views[b := View(g, map[], map[], 0, 0)];
            var owner' := Give(Give(s.owner, {g}, TableOf(b)), {}, StackOf(b));
            && Sound(spaces[b := Space(g, [], 0, 0, NoStack)], views', owner', m', s.counts, s.owner.Keys + {g}, pool)
            && Performs(s, Op.New(b), State(views', owner', m', s.counts), Done)
            && OwnedBy(owner', StackOf(b)) == {}
  {
    hide Inv, AllTrees, OwnedBy, KernelTree, NewSpace;
    NoFramesYet(s, pool, b);
    NewIsNew(m, s.views, s.owner, s.counts, m', b, g, n);
    var views' := s.views[b := View(g, map[], map[], 0, 0)];
    var owner' := Give(Give(s.owner, {g}, TableOf(b)), {}, StackOf(b));
    NewInv(s, State(views', owner', m', s.counts), pool, b, g, {g}, {});
    assert RegionMap([]) == map[];
    ForkedStack(s.owner, {g}, b);
  }

  // ---- release ----

  const DIRECT_MAPPING_BASE: Address := 0xffff_ffd6_0000_0000

  const KERNEL_IMAGE_START: Address := 0xffff_ffff_8000_0000

  /** The kernel finds byte `x` of physical memory at address `addr`, perhaps as code, and no user program can reach it. */
  ghost predicate KernelFinds(m: Mem, root: Frame, n: nat, addr: Address, x: nat, code: bool)
    requires n <= 2
  {
    var h := Walk(m, root, n, PageOf(addr));
    && h.Some? && h.value.level == n && h.value.pte.flags.r && h.value.pte.flags.w && !h.value.pte.flags.u && h.value.pte.flags.x == code
    && h.value.pte.ppn as nat * PAGE + addr % 0x4000_0000 == x
  }

  /** In every address space all of memory is mapped from one base on, and the kernel image once more at its own. */
  lemma DirectMapping(m: Mem, owner: map<Frame, Owner>, a: Id, w: View, n: nat, x: nat)
    requires n == 2 && TreeOf(m, owner, a, w, n)
    ensures x < 166 * 0x4000_0000 ==> KernelFinds(m, w.root, n, DIRECT_MAPPING_BASE + x, x, false)
    ensures x < 2 * 0x4000_0000 ==> KernelFinds(m, w.root, n, KERNEL_IMAGE_START + x, 0x8000_0000 + x, true)
  {
    hide Tree, Nodes, Users, Walk, PageOf;
    if x < 166 * 0x4000_0000 { SlotOf(DIRECT_MAPPING_BASE, x, 344); }
    if x < 2 * 0x4000_0000 { SlotOf(KERNEL_IMAGE_START, x, 510); }
  }

  lemma SlotOf(base: Address, x: nat, slot: nat)
    requires base % 0x4000_0000 == 0 && base / 0x4000_0000 % 512 == slot && slot + x / 0x4000_0000 < 512
    ensures Index(PageOf(base + x), 2) == slot + x / 0x4000_0000 && (base + x) % 0x4000_0000 == x % 0x4000_0000
  {
    VpnFields(base + x);
    assert (base + x) / 0x4000_0000 == base / 0x4000_0000 + x / 0x4000_0000;
  }

  /** The frames of the mapped pages in the first `i` regions. */
  ghost function Pages(w: View, rs: seq<VmRegion>, i: nat): set<Frame>
    requires i <= |rs|
  {
    set j | 0 <= j < i && rs[j].start / PAGE in w.pages :: w.pages[rs[j].start / PAGE].ppn
  }

  lemma PagesNone(w: View, rs: seq<VmRegion>, c: map<Frame, U16>)
    ensures Pages(w, rs, 0) == {} && Released(c, {}) == c && Last(c, {}) == {}
  {}

  lemma PagesNext(w: View, rs: seq<VmRegion>, i: nat)
    requires ViewOk(w) && RegionsOk(rs) && i < |rs|
    ensures var v := rs[i].start / PAGE;
            if v in w.pages then w.pages[v].ppn !in Pages(w, rs, i) && Pages(w, rs, i + 1) == Pages(w, rs, i) + {w.pages[v].ppn}
            else Pages(w, rs, i + 1) == Pages(w, rs, i)
  {}

  lemma PagesAll(s: Sys, pool: set<Frame>, sp: Space, a: Id)
    requires Inv(s, pool) && a in s.views && SpaceOk(sp, s.views[a])
    ensures Pages(s.views[a], sp.regions, |sp.regions|) == Mapped(s.views[a])
  {}

  /** What the release of region `i` finds: its page, if mapped, is counted and was not dropped before. */
  lemma RegionReady(s: Sys, pool: set<Frame>, m: Mem, sp: Space, a: Id, i: nat, n: nat)
    requires n == 2 && Inv(s, pool) && AllTrees(m, s.owner, s.views, n) && a in s.views && SpaceOk(sp, s.views[a]) && i < |sp.regions|
    ensures var w := s.views[a];
            var v := sp.regions[i].start / PAGE;
            && sp.regions[i].start <= DIRECT_MAPPING_BASE
            && Tree(m, w.root, n) && Walk(m, w.root, n, v) == PageHit(w, v)
            && (v !in w.pages ==> Pages(w, sp.regions, i + 1) == Pages(w, sp.regions, i))
            && (v in w.pages ==>
                  var x := w.pages[v].ppn;
                  && x !in Pages(w, sp.regions, i) && Pages(w, sp.regions, i + 1) == Pages(w, sp.regions, i) + {x}
                  && x in s.counts && s.counts[x] > 0 && x in s.owner && x !in Last(s.counts, Pages(w, sp.regions, i)))
  {
    hide Inv, AllTrees, Tree, Nodes, Walk, RegionMap, Pages;
    var w := s.views[a];
    var v := sp.regions[i].start / PAGE;
    InRegion(sp.regions, i);
    WalkFinds(m, s.owner, s.views, a, v, n);
    UsersOwned(s, pool, a);
    PagesNext(w, sp.regions, i);
    if v in w.pages { MapsCounted(s, pool, a, v); }
  }

  /** The stack and table frames of a space are in use, and stay so while its pages are dropped. */
  lemma FreeReady(s: Sys, pool: set<Frame>, m: Mem, a: Id, st: KernelStack, n: nat)
    requires n <= 2 && Inv(s, pool) && AllTrees(m, s.owner, s.views, n) && a in s.views && StackHeld(OwnedBy(s.owner, StackOf(a)), st)
    ensures StackHeld(StackFrames(st), st) && StackFrames(st) == OwnedBy(s.owner, StackOf(a))
    ensures StackFrames(st) <= s.owner.Keys - Last(s.counts, Mapped(s.views[a]))
    ensures var nodes := Nodes(m, s.views[a].root, n);
            && Tree(m, s.views[a].root, n) && nodes == OwnedBy(s.owner, TableOf(a))
            && nodes <= s.owner.Keys - Last(s.counts, Mapped(s.views[a])) - StackFrames(st)
  {}

  lemma SoundWithout(spaces: map<Id, Space>, views: map<Id, View>, a: Id, owner': map<Frame, Owner>,
                     m: Mem, counts': map<Frame, U16>, used': set<Frame>, pool: set<Frame>)
    requires SpacesOk(spaces, views) && owner'.Keys == used'
    requires AllTrees(m, owner', views - {a}, 2) && Inv(State(views - {a}, owner', m, counts'), pool)
    ensures Sound(spaces - {a}, views - {a}, owner', m, counts', used', pool)
  {
    hide AllTrees, Inv;
  }

  lemma UserCounts(s: Sys, pool: set<Frame>)
    requires Inv(s, pool)
    ensures forall x | x in s.counts && x in s.owner :: s.owner[x] == User
  {}

  lemma FreeCommit(spaces: map<Id, Space>, s: Sys, pool: set<Frame>, m: Mem, used': set<Frame>, a: Id, n: nat)
    requires Sound(spaces, s.views, s.owner, m, s.counts, s.owner.Keys, pool) && n == 2 && s.data == DataOf(m)
    requires a in spaces && a in s.views
    requires used' == s.owner.Keys - Last(s.counts, Mapped(s.views[a])) - OwnedBy(s.owner, StackOf(a)) - OwnedBy(s.owner, TableOf(a))
    ensures var owner' := s.owner - LastFrames(s, a);
            var counts' := Released(s.counts, Mapped(s.views[a]));
            && Sound(spaces - {a}, s.views - {a}, owner', m, counts', used', pool)
            && Performs(s, Op.Free(a), State(s.views - {a}, owner', m, counts'), Done)
  {
    hide Inv, AllTrees, OwnedBy, FreeSpace, Mapped, Last, LastFrames;
    UserCounts(s, pool);
    FreeIsFree(m, s.views, s.owner, s.counts, used', a, n);
    assert State(s.views, s.owner, m, s.counts) == s;
    var owner' := s.owner - LastFrames(s, a);
    var counts' := Released(s.counts, Mapped(s.views[a]));
    FreeInv(s, State(s.views - {a}, owner', m, counts'), pool, a);
    SoundWithout(spaces, s.views, a, owner', m, counts', used', pool);
  }
}
