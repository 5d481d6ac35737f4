/**
 Copy-on-write against its reference: a machine in which every page belongs to one space, a fork
 copies all pages at once, and nothing is shared.  Every step of the copy-on-write machine is
 matched by a step of the reference machine with the same outcome, so no program can tell them
 apart; in particular a store in one process never changes what another reads.
 */
module EagerCopy {
  import opened Sv39
  import opened FrameAllocator
  import opened PageTables
  import opened Forking
  import opened CowMachine

  // ---- the reference machine ----

  /** What a program may do with a page. */
  datatype Access = Access(r: bool, w: bool, x: bool)

  datatype EagerPage = EagerPage(bytes: Bytes, access: Access)

  datatype EagerSpace = EagerSpace(pages: map<nat, EagerPage>, region: map<nat, Flags>, startBrk: nat, brk: nat)

  type Eager = map<Id, EagerSpace>

  datatype Op =
    | New(id: Id)
    | MapPage(id: Id, v: nat, flags: Flags)
    | Regions(id: Id, region: map<nat, Flags>, startBrk: nat, brk: nat)
    | Remap(id: Id, v: nat, flags: Flags)
    | Fault(id: Id, v: nat, access: Flags)
    | Load(id: Id, v: nat, off: nat)
    | Store(id: Id, v: nat, off: nat, byte: Byte)
    | Fork(id: Id, child: Id)
    | Free(id: Id)
    | Stack(id: Id)
    | Fill(id: Id, v: nat, off: nat, bytes: seq<Byte>)

  /** What the program sees of an operation; `Killed` ends the process. */
  datatype Outcome = Done | Loaded(byte: Byte) | Killed

  function AccessOf(f: Flags): Access {
    Access(f.r, f.w, f.x)
  }

  function Zeroed(flags: Flags): EagerPage {
    EagerPage(ZeroPage().bytes, AccessOf(flags))
  }

  /** The same page with more permissions. */
  function Widened(p: EagerPage, flags: Flags): EagerPage {
    p.(access := Access(p.access.r || flags.r, p.access.w || flags.w, p.access.x || flags.x))
  }

  function EagerFault(e: EagerSpace, v: nat, access: Flags): (EagerSpace, Outcome) {
    if v !in e.region || !e.region[v].Contains(access) then (e, Killed)
    else if v in e.pages then (e, if access.w then Done else Killed)
    else (e.(pages := e.pages[v := Zeroed(e.region[v])]), Done)
  }

  function EagerLoad(e: EagerSpace, v: nat, off: nat): (EagerSpace, Outcome)
    requires off < 4096
  {
    if v in e.pages then (e, if e.pages[v].access.r then Loaded(e.pages[v].bytes[off]) else Killed)
    else
      var (e', out) := EagerFault(e, v, R);
      (e', if out == Done then Loaded(0) else out)
  }

  /** A space in which one byte of page `v` is replaced. */
  function Poked(e: EagerSpace, v: nat, off: nat, byte: Byte): EagerSpace
    requires v in e.pages && off < 4096
  {
    e.(pages := e.pages[v := e.pages[v].(bytes := e.pages[v].bytes[off := byte])])
  }

  /** A space in which bytes of page `v` are replaced. */
  function PageFilled(e: EagerSpace, v: nat, off: nat, bytes: seq<Byte>): EagerSpace
    requires v in e.pages && off + |bytes| <= 4096
  {
    e.(pages := e.pages[v := e.pages[v].(bytes := Overlay(e.pages[v].bytes, off, bytes))])
  }

  function EagerStore(e: EagerSpace, v: nat, off: nat, byte: Byte): (EagerSpace, Outcome)
    requires off < 4096
  {
    if v in e.pages then
      if e.pages[v].access.w then
        (Poked(e, v, off, byte), Done)
      else (e, Killed)
    else
      var (e', out) := EagerFault(e, v, W);
      if out == Done && v in e'.pages then
        (Poked(e', v, off, byte), Done)
      else (e', out)
  }

  /** The program of an operation exists; the spaces it creates do not. */
  predicate Applicable(ids: set<Id>, op: Op) {
    match op
    case New(b) => b !in ids
    case Fork(a, b) => a in ids && b !in ids
    case Load(a, _, off) => a in ids && off < 4096
    case Store(a, _, off, _) => a in ids && off < 4096
    case Fill(a, _, off, bytes) => a in ids && off + |bytes| <= 4096
    case _ => op.id in ids
  }

  /** One operation of the reference machine; a fork simply copies the parent. */
  function EagerStep(e: Eager, op: Op): (Eager, Outcome)
    requires Applicable(e.Keys, op)
  {
    match op
    case New(b) => (e[b := EagerSpace(map[], map[], 0, 0)], Done)
    case MapPage(a, v, flags) =>
      (e[a := e[a].(pages := e[a].pages[v := Zeroed(flags)], region := e[a].region[v := flags])], Done)
    case Regions(a, region, startBrk, brk) => (e[a := e[a].(region := region, startBrk := startBrk, brk := brk)], Done)
    case Remap(a, v, flags) =>
      if v in e[a].pages then
        (e[a := e[a].(pages := e[a].pages[v := Widened(e[a].pages[v], flags)])], Done)
      else (e, Done)
    case Fault(a, v, access) => var (x, out) := EagerFault(e[a], v, access); (e[a := x], out)
    case Load(a, v, off) => var (x, out) := EagerLoad(e[a], v, off); (e[a := x], out)
    case Store(a, v, off, byte) => var (x, out) := EagerStore(e[a], v, off, byte); (e[a := x], out)
    case Fork(a, b) => (e[b := e[a]], Done)
    case Free(a) => (e - {a}, Done)
    case Stack(_) => (e, Done)
    case Fill(a, v, off, bytes) => (if v in e[a].pages then e[a := PageFilled(e[a], v, off, bytes)] else e, Done)
  }

  // ---- the copy-on-write machine, operation by operation ----

  ghost predicate FaultStep(s: Sys, a: Id, v: nat, access: Flags, s': Sys, out: Outcome)
    requires a in s.views
  {
    var w := s.views[a];
    if v !in w.region || !w.region[v].Contains(access) then s' == s && out == Killed
    else if v in w.pages then
      if access.w then out == Done && exists g :: CopyPage(s, s', a, v, g)
      else s' == s && out == Killed
    else out == Done && exists g, grown :: PageIn(s, s', a, v, w.region[v], g, grown, w.region)
  }

  /** The hardware load: a readable leaf is read; otherwise the kernel handles a read fault and the load is retried. */
  ghost predicate LoadStep(s: Sys, a: Id, v: nat, off: nat, s': Sys, out: Outcome)
    requires a in s.views && off < 4096
  {
    var w := s.views[a];
    if v in w.pages && w.pages[v].flags.r then
      s' == s && w.pages[v].ppn in s.data && out == Loaded(s.data[w.pages[v].ppn][off])
    else exists fault ::
           && FaultStep(s, a, v, R, s', fault)
           && (if fault == Done then
                 && a in s'.views && v in s'.views[a].pages && s'.views[a].pages[v].ppn in s'.data
                 && out == Loaded(s'.data[s'.views[a].pages[v].ppn][off])
               else out == fault)
  }

  /** The hardware store: a writable leaf is written; otherwise the kernel handles a write fault and the store is retried. */
  ghost predicate StoreStep(s: Sys, a: Id, v: nat, off: nat, byte: Byte, s': Sys, out: Outcome)
    requires a in s.views && off < 4096
  {
    if v in s.views[a].pages && s.views[a].pages[v].flags.w then WriteByte(s, s', a, v, off, byte) && out == Done
    else exists s1, fault ::
           && FaultStep(s, a, v, W, s1, fault)
           && (if fault == Done then WriteByte(s1, s', a, v, off, byte) && out == Done else s' == s1 && out == fault)
  }

  /** `map_allocate_page`: a page in a region of its own. */
  ghost predicate NewPage(s: Sys, s': Sys, a: Id, v: nat, flags: Flags, g: Frame, grown: set<Frame>)
    requires a in s.views
  {
    v !in s.views[a].region && PageIn(s, s', a, v, flags, g, grown, s.views[a].region[v := flags])
  }

  /** One operation of the copy-on-write machine. */
  ghost predicate Step(s: Sys, op: Op, s': Sys, out: Outcome)
    requires Applicable(s.views.Keys, op)
  {
    match op
    case New(b) => out == Done && exists root, tables, stack :: NewSpace(s, s', b, root, tables, stack)
    case MapPage(a, v, flags) =>
      out == Done && exists g, grown :: NewPage(s, s', a, v, flags, g, grown)
    case Regions(a, region, startBrk, brk) => out == Done && SetRegions(s, s', a, region, startBrk, brk)
    case Remap(a, v, flags) =>
      && out == Done && AddFlags(s, s', a, v, flags)
      && (flags.w ==> Sharers(Maps(s.views), s.views[a].pages[v].ppn) == {a})
    case Fault(a, v, access) => FaultStep(s, a, v, access, s', out)
    case Load(a, v, off) => LoadStep(s, a, v, off, s', out)
    case Store(a, v, off, byte) => StoreStep(s, a, v, off, byte, s', out)
    case Fork(a, b) => out == Done && exists root, tables, stack :: ForkSpace(s, s', a, b, root, tables, stack)
    case Free(a) => out == Done && FreeSpace(s, s', a)
    case Stack(a) => out == Done && exists stack :: GiveStack(s, s', a, stack)
    case Fill(a, v, off, bytes) => out == Done && FillBytes(s, s', a, v, off, bytes)
  }

  // ---- abstraction ----

  /** A present page may be written when its leaf says so, or when its region does: a fault then copies it. */
  function SeenAccess(p: Pte, region: Flags): Access {
    Access(p.flags.r, p.flags.w || region.w, p.flags.x)
  }

  ghost function SeenPages(data: map<Frame, Bytes>, w: View): map<nat, EagerPage> {
    map v | v in w.pages && v in w.region && w.pages[v].ppn in data ::
      EagerPage(data[w.pages[v].ppn], SeenAccess(w.pages[v], w.region[v]))
  }

  ghost function Seen(data: map<Frame, Bytes>, w: View): EagerSpace {
    EagerSpace(SeenPages(data, w), w.region, w.startBrk, w.brk)
  }

  /** What the programs see of a state. */
  ghost function Abs(s: Sys): Eager {
    map a | a in s.views :: Seen(s.data, s.views[a])
  }

  /** Every frame of the space holds data, so all its pages are seen. */
  ghost predicate Backed(data: map<Frame, Bytes>, w: View) {
    w.pages.Keys <= w.region.Keys && forall v | v in w.pages :: w.pages[v].ppn in data
  }

  /** Every writable leaf lies in a writable region. */
  ghost predicate Honest(w: View) {
    forall v | v in w.pages && v in w.region :: w.pages[v].flags.w ==> w.region[v].w
  }

  /** All pages of a backed space are seen, each as its frame and its permissions say. */
  lemma SeenEach(data: map<Frame, Bytes>, w: View)
    requires Backed(data, w)
    ensures SeenPages(data, w).Keys == w.pages.Keys
    ensures forall u | u in w.pages :: SeenPages(data, w)[u] == EagerPage(data[w.pages[u].ppn], SeenAccess(w.pages[u], w.region[u]))
  {}

  lemma AllBacked(s: Sys, pool: set<Frame>)
    requires Inv(s, pool)
    ensures forall a | a in s.views :: Backed(s.data, s.views[a])
  {
    forall a | a in s.views ensures Backed(s.data, s.views[a]) {
      assert ViewOk(s.views[a]);
      forall v | v in s.views[a].pages ensures s.views[a].pages[v].ppn in s.data {
        MapsCounted(s, pool, a, v);
      }
    }
  }

  lemma SeenKeep(data: map<Frame, Bytes>, data': map<Frame, Bytes>, w: View)
    requires Backed(data, w)
    requires forall v | v in w.pages :: w.pages[v].ppn in data' && data'[w.pages[v].ppn] == data[w.pages[v].ppn]
    ensures Seen(data', w) == Seen(data, w)
  {}

  /** The frames of space `b` hold the same data in `s'` as in `s`. */
  ghost predicate SameData(s: Sys, s': Sys, w: View) {
    forall v | v in w.pages && w.pages[v].ppn in s.data ::
      w.pages[v].ppn in s'.data && s'.data[w.pages[v].ppn] == s.data[w.pages[v].ppn]
  }

  lemma SameSeen(s: Sys, s': Sys, w: View)
    requires Backed(s.data, w) && SameData(s, s', w)
    ensures Seen(s'.data, w) == Seen(s.data, w)
  {
    SeenKeep(s.data, s'.data, w);
  }

  /** Programs other than the one in space `a` see no difference. */
  lemma AbsOthers(s: Sys, s': Sys, a: Id, w: View)
    requires s'.views == s.views[a := w]
    requires forall b | b in s.views && b != a :: Backed(s.data, s.views[b]) && SameData(s, s', s.views[b])
    ensures Abs(s') == Abs(s)[a := Seen(s'.data, w)]
  {
    hide Seen, Backed, SameData;
    forall b | b in s.views && b != a ensures Abs(s')[b] == Abs(s)[b] {
      SameSeen(s, s', s.views[b]);
    }
  }

  lemma KeepSame(s: Sys, s': Sys, pool: set<Frame>)
    requires Inv(s, pool) && KeepData(s, s')
    ensures forall b | b in s.views :: Backed(s.data, s.views[b]) && SameData(s, s', s.views[b])
  {
    AllBacked(s, pool);
    forall b | b in s.views ensures SameData(s, s', s.views[b]) {
      forall v | v in s.views[b].pages ensures s.views[b].pages[v].ppn in s.owner {
        MapsCounted(s, pool, b, v);
      }
    }
  }

  lemma KeepAbs(s: Sys, s': Sys, pool: set<Frame>, a: Id, w: View)
    requires Inv(s, pool) && KeepData(s, s') && a in s.views && s'.views == s.views[a := w]
    ensures Abs(s') == Abs(s)[a := Seen(s'.data, w)]
    ensures Backed(s.data, s.views[a]) && SameData(s, s', s.views[a])
  {
    hide Inv;
    KeepSame(s, s', pool);
    AbsOthers(s, s', a, w);
  }

  // ---- each step refines ----

  lemma NewAccess(g: Frame, flags: Flags)
    ensures UserLeafFor(g, flags).ppn == g && SeenAccess(UserLeafFor(g, flags), flags) == AccessOf(flags)
  {}

  lemma SeenPageIn(data: map<Frame, Bytes>, data': map<Frame, Bytes>, w: View, v: nat, flags: Flags, g: Frame, region: map<nat, Flags>)
    requires Backed(data, w) && v !in w.pages && v in region && region[v] == flags
    requires w.region.Keys <= region.Keys && forall u | u in w.region :: region[u] == w.region[u]
    requires forall u | u in w.pages :: w.pages[u].ppn in data' && data'[w.pages[u].ppn] == data[w.pages[u].ppn]
    requires g in data' && data'[g] == ZeroPage().bytes
    ensures var w' := w.(pages := w.pages[v := UserLeafFor(g, flags)], region := region);
            Seen(data', w') == Seen(data, w).(pages := Seen(data, w).pages[v := Zeroed(flags)], region := region)
  {
    var w' := w.(pages := w.pages[v := UserLeafFor(g, flags)], region := region);
    hide SeenPages, SeenAccess, UserLeafFor, ZeroPage, AccessOf;
    NewAccess(g, flags);
    var seen, seen' := SeenPages(data, w), SeenPages(data', w');
    SeenEach(data, w);
    SeenEach(data', w');
    assert seen'[v] == Zeroed(flags);
    assert seen' == seen[v := Zeroed(flags)];
  }

  lemma RefinePageIn(s: Sys, s': Sys, pool: set<Frame>, a: Id, v: nat, flags: Flags, g: Frame, grown: set<Frame>, region: map<nat, Flags>)
    requires Inv(s, pool) && PageIn(s, s', a, v, flags, g, grown, region)
    requires region[v] == flags && forall u | u in s.views[a].region :: region[u] == s.views[a].region[u]
    ensures Abs(s') == Abs(s)[a := Abs(s)[a].(pages := Abs(s)[a].pages[v := Zeroed(flags)], region := region)]
  {
    hide Inv;
    KeepAbs(s, s', pool, a, s'.views[a]);
    SeenPageIn(s.data, s'.data, s.views[a], v, flags, g, region);
  }

  lemma SeenCopy(data: map<Frame, Bytes>, data': map<Frame, Bytes>, w: View, v: nat, g: Frame)
    requires Backed(data, w) && v in w.pages && w.region[v].w
    requires forall u | u in w.pages :: w.pages[u].ppn in data' && data'[w.pages[u].ppn] == data[w.pages[u].ppn]
    requires g in data' && data'[g] == data[w.pages[v].ppn]
    ensures Seen(data', w.(pages := w.pages[v := w.pages[v].(ppn := g).SetFlags(W)])) == Seen(data, w)
  {}

  /** Copying a shared page is invisible. */
  lemma RefineCopy(s: Sys, s': Sys, pool: set<Frame>, a: Id, v: nat, g: Frame)
    requires Inv(s, pool) && CopyPage(s, s', a, v, g) && v in s.views[a].region && s.views[a].region[v].w
    ensures Abs(s') == Abs(s)
  {
    hide Inv;
    KeepAbs(s, s', pool, a, s'.views[a]);
    SeenCopy(s.data, s'.data, s.views[a], v, g);
  }

  lemma SeenWrite(data: map<Frame, Bytes>, w: View, v: nat, off: nat, byte: Byte)
    requires Backed(data, w) && ViewOk(w) && v in w.pages && off < 4096
    ensures var x := w.pages[v].ppn;
            v in Seen(data, w).pages && Seen(data[x := data[x][off := byte]], w) == Poked(Seen(data, w), v, off, byte)
  {
    var x := w.pages[v].ppn;
    var seen, seen' := SeenPages(data, w), SeenPages(data[x := data[x][off := byte]], w);
    assert seen'.Keys == w.pages.Keys && seen.Keys == w.pages.Keys;
    forall u | u in w.pages && u != v ensures seen'[u] == seen[u] {}
  }

  /** No other space maps a frame that space `a` may write. */
  lemma WriteElsewhere(s: Sys, a: Id, v: nat, b: Id, u: nat)
    requires WritableAlone(s) && a in s.views && v in s.views[a].pages && s.views[a].pages[v].flags.w
    requires b in s.views && b != a && u in s.views[b].pages
    ensures s.views[b].pages[u].ppn != s.views[a].pages[v].ppn
  {
    var x := s.views[a].pages[v].ppn;
    assert Alone(Maps(s.views), a, s.views[a]);
    assert b !in Sharers(Maps(s.views), x);
    assert s.views[b].pages[u].ppn in Mapped(s.views[b]);
  }

  lemma WriteSame(s: Sys, s': Sys, a: Id, v: nat, off: nat, byte: Byte)
    requires WritableAlone(s) && WriteByte(s, s', a, v, off, byte)
    ensures forall b | b in s.views && b != a :: SameData(s, s', s.views[b])
  {
    forall b | b in s.views && b != a ensures SameData(s, s', s.views[b]) {
      forall u | u in s.views[b].pages ensures s.views[b].pages[u].ppn != s.views[a].pages[v].ppn {
        WriteElsewhere(s, a, v, b, u);
      }
    }
  }

  lemma InvView(s: Sys, pool: set<Frame>, a: Id)
    requires Inv(s, pool) && a in s.views
    ensures ViewOk(s.views[a]) && WritableAlone(s)
  {}

  /** A store changes that byte of that page of that space, and nothing any other space sees. */
  lemma RefineWrite(s: Sys, s': Sys, pool: set<Frame>, a: Id, v: nat, off: nat, byte: Byte)
    requires Inv(s, pool) && WriteByte(s, s', a, v, off, byte)
    ensures v in Abs(s)[a].pages && Abs(s') == Abs(s)[a := Poked(Abs(s)[a], v, off, byte)]
  {
    hide Inv, ViewOk, Backed, Mapped, WritableAlone;
    InvView(s, pool, a);
    WriteSame(s, s', a, v, off, byte);
    AllBacked(s, pool);
    AbsOthers(s, s', a, s.views[a]);
    SeenWrite(s.data, s.views[a], v, off, byte);
  }

  lemma SeenFill(data: map<Frame, Bytes>, w: View, v: nat, off: nat, bytes: seq<Byte>)
    requires Backed(data, w) && ViewOk(w) && v in w.pages && off + |bytes| <= 4096
    ensures var x := w.pages[v].ppn;
            v in Seen(data, w).pages && Seen(data[x := Overlay(data[x], off, bytes)], w) == PageFilled(Seen(data, w), v, off, bytes)
  {
    hide Overlay;
    var x := w.pages[v].ppn;
    var seen, seen' := SeenPages(data, w), SeenPages(data[x := Overlay(data[x], off, bytes)], w);
    assert seen'.Keys == w.pages.Keys && seen.Keys == w.pages.Keys;
    forall u | u in w.pages && u != v ensures seen'[u] == seen[u] {}
  }

  lemma FillSame(s: Sys, s': Sys, a: Id, v: nat, off: nat, bytes: seq<Byte>)
    requires FillBytes(s, s', a, v, off, bytes)
    ensures forall b | b in s.views && b != a :: SameData(s, s', s.views[b])
  {
    forall b | b in s.views && b != a ensures SameData(s, s', s.views[b]) {
      assert b !in Sharers(Maps(s.views), s.views[a].pages[v].ppn);
      forall u | u in s.views[b].pages ensures s.views[b].pages[u].ppn in Mapped(s.views[b]) {}
    }
  }

  /** What the kernel copies to a page is seen by that space alone. */
  lemma RefineFill(s: Sys, s': Sys, pool: set<Frame>, a: Id, v: nat, off: nat, bytes: seq<Byte>)
    requires Inv(s, pool) && FillBytes(s, s', a, v, off, bytes)
    ensures v in Abs(s)[a].pages && Abs(s') == Abs(s)[a := PageFilled(Abs(s)[a], v, off, bytes)]
  {
    hide Inv, ViewOk, Backed, Mapped, WritableAlone, Overlay, PageFilled;
    InvView(s, pool, a);
    FillSame(s, s', a, v, off, bytes);
    AllBacked(s, pool);
    AbsOthers(s, s', a, s.views[a]);
    SeenFill(s.data, s.views[a], v, off, bytes);
  }

  lemma ForkAccess(p: Pte, region: Flags)
    requires p.UserLeaf()
    ensures SharedPte(p).ppn == p.ppn
    ensures SeenAccess(SharedPte(p), region) == SeenAccess(p, region) <==> (p.flags.w ==> region.w)
  {}

  /** What a space looks like after a fork, page by page. */
  lemma SeenForkPage(data: map<Frame, Bytes>, data': map<Frame, Bytes>, w: View, w': View, v: nat)
    requires w'.pages == SharedPages(w.pages) && w'.region == w.region && v in w.pages && w.pages[v].UserLeaf()
    requires v in w.region && w.pages[v].ppn in data
    requires w.pages[v].ppn in data' && data'[w.pages[v].ppn] == data[w.pages[v].ppn]
    ensures v in SeenPages(data, w) && v in SeenPages(data', w')
    ensures SeenPages(data', w')[v] == SeenPages(data, w)[v] <==> (w.pages[v].flags.w ==> w.region[v].w)
  {
    ForkAccess(w.pages[v], w.region[v]);
  }

  ghost predicate ViewForked(data: map<Frame, Bytes>, data': map<Frame, Bytes>, w: View, w': View) {
    && w' == w.(root := w'.root, pages := w'.pages)
    && w'.pages == SharedPages(w.pages)
    && (forall u | u in w.pages :: w.pages[u].UserLeaf() && w.pages[u].ppn in data)
    && (forall u | u in w.pages :: w.pages[u].ppn in data' && data'[w.pages[u].ppn] == data[w.pages[u].ppn])
  }

  lemma SeenForkHonest(data: map<Frame, Bytes>, data': map<Frame, Bytes>, w: View, w': View)
    requires w.pages.Keys <= w.region.Keys && ViewForked(data, data', w, w') && Honest(w)
    ensures Seen(data', w') == Seen(data, w)
  {
    var seen, seen' := SeenPages(data, w), SeenPages(data', w');
    assert seen.Keys == w.pages.Keys && seen'.Keys == w.pages.Keys;
    forall v | v in w.pages ensures seen'[v] == seen[v] {
      SeenForkPage(data, data', w, w', v);
    }
    assert seen' == seen;
  }

  lemma SeenFork(data: map<Frame, Bytes>, data': map<Frame, Bytes>, w: View, w': View)
    requires w.pages.Keys <= w.region.Keys && ViewForked(data, data', w, w')
    ensures Seen(data', w') == Seen(data, w) <==> Honest(w)
  {
    if Honest(w) {
      SeenForkHonest(data, data', w, w');
    } else {
      var v :| v in w.pages && v in w.region && w.pages[v].flags.w && !w.region[v].w;
      SeenForkPage(data, data', w, w', v);
      assert Seen(data', w').pages[v] != Seen(data, w).pages[v];
    }
  }

  lemma ForkAbs(s: Sys, s': Sys, a: Id, b: Id)
    requires a in s.views && b !in s.views && a in s'.views && b in s'.views
    requires s'.views == s.views[a := s'.views[a]][b := s'.views[b]]
    requires forall c | c in s.views :: Backed(s.data, s.views[c]) && SameData(s, s', s.views[c])
    ensures Abs(s') == Abs(s)[a := Seen(s'.data, s'.views[a])][b := Seen(s'.data, s'.views[b])]
  {
    var mid := s.(views := s.views[a := s'.views[a]], data := s'.data);
    AbsOthers(s, mid, a, s'.views[a]);
  }

  lemma ForkSides(e: Eager, a: Id, b: Id, ea: EagerSpace, eb: EagerSpace)
    requires a in e && b !in e
    ensures e[a := ea][b := eb] == e[b := e[a]] <==> ea == e[a] && eb == e[a]
  {
    if e[a := ea][b := eb] == e[b := e[a]] {
      assert e[a := ea][b := eb][a] == ea && e[b := e[a]][a] == e[a];
      assert e[a := ea][b := eb][b] == eb;
    }
  }

  /**
   Sharing pages at a fork is indistinguishable from copying them exactly when every writable leaf
   of the parent lies in a writable region.
   */
  lemma RefineFork(s: Sys, s': Sys, pool: set<Frame>, a: Id, b: Id, root: Frame, tables: set<Frame>, stack: set<Frame>)
    requires Inv(s, pool) && ForkSpace(s, s', a, b, root, tables, stack)
    ensures Abs(s') == Abs(s)[b := Abs(s)[a]] <==> Honest(s.views[a])
  {
    var ea, eb := Seen(s'.data, s'.views[a]), Seen(s'.data, s'.views[b]);
    assert Abs(s') == Abs(s)[a := ea][b := eb] && Backed(s.data, s.views[a]) && SameData(s, s', s.views[a]) by {
      KeepSame(s, s', pool);
      ForkAbs(s, s', a, b);
    }
    assert ViewOk(s.views[a]);
    assert ViewForked(s.data, s'.data, s.views[a], s'.views[a]) && ViewForked(s.data, s'.data, s.views[a], s'.views[b]);
    SeenFork(s.data, s'.data, s.views[a], s'.views[a]);
    SeenFork(s.data, s'.data, s.views[a], s'.views[b]);
    ForkSides(Abs(s), a, b, ea, eb);
  }

  lemma RefineFree(s: Sys, s': Sys, a: Id)
    requires FreeSpace(s, s', a)
    ensures Abs(s') == Abs(s) - {a}
  {}

  lemma RefineNew(s: Sys, s': Sys, pool: set<Frame>, b: Id, root: Frame, tables: set<Frame>, stack: set<Frame>)
    requires Inv(s, pool) && NewSpace(s, s', b, root, tables, stack)
    ensures Abs(s') == Abs(s)[b := EagerSpace(map[], map[], 0, 0)]
  {
    hide Inv;
    KeepSame(s, s', pool);
    AbsOthers(s, s', b, s'.views[b]);
    assert SeenPages(s'.data, s'.views[b]) == map[];
  }

  lemma SeenRegions(data: map<Frame, Bytes>, w: View, w': View)
    requires Backed(data, w) && w'.pages == w.pages && w.region.Keys <= w'.region.Keys
    requires forall v | v in w.region :: w'.region[v] == w.region[v]
    ensures SeenPages(data, w') == SeenPages(data, w)
  {}

  lemma RefineRegions(s: Sys, s': Sys, pool: set<Frame>, a: Id, region: map<nat, Flags>, startBrk: nat, brk: nat)
    requires Inv(s, pool) && SetRegions(s, s', a, region, startBrk, brk)
    ensures Abs(s') == Abs(s)[a := Abs(s)[a].(region := region, startBrk := startBrk, brk := brk)]
  {
    hide Inv;
    KeepAbs(s, s', pool, a, s'.views[a]);
    SeenRegions(s.data, s.views[a], s'.views[a]);
  }

  lemma RemapAccess(p: Pte, flags: Flags, region: Flags)
    ensures var a := SeenAccess(p, region);
            SeenAccess(p.SetFlags(flags.Or(VAD)), region) == Access(a.r || flags.r, a.w || flags.w, a.x || flags.x)
  {}

  lemma SeenRemap(data: map<Frame, Bytes>, w: View, w': View, v: nat, flags: Flags)
    requires Backed(data, w) && v in w.pages
    requires w' == w.(pages := w.pages[v := w.pages[v].SetFlags(flags.Or(VAD))])
    ensures v in Seen(data, w).pages
    ensures Seen(data, w') == Seen(data, w).(pages := Seen(data, w).pages[v := Widened(Seen(data, w).pages[v], flags)])
  {
    hide SeenPages, SeenAccess;
    var seen, seen' := SeenPages(data, w), SeenPages(data, w');
    SeenEach(data, w);
    SeenEach(data, w');
    assert seen'[v] == Widened(seen[v], flags) by { RemapAccess(w.pages[v], flags, w.region[v]); }
    assert seen' == seen[v := Widened(seen[v], flags)];
  }

  lemma RefineRemap(s: Sys, s': Sys, pool: set<Frame>, a: Id, v: nat, flags: Flags)
    requires Inv(s, pool) && AddFlags(s, s', a, v, flags)
    ensures v in Abs(s)[a].pages
    ensures Abs(s') == Abs(s)[a := Abs(s)[a].(pages := Abs(s)[a].pages[v := Widened(Abs(s)[a].pages[v], flags)])]
  {
    hide Inv;
    KeepAbs(s, s', pool, a, s'.views[a]);
    SeenKeep(s.data, s'.data, s.views[a]);
    SeenRemap(s'.data, s.views[a], s'.views[a], v, flags);
  }

  lemma RefineStack(s: Sys, s': Sys, pool: set<Frame>, a: Id, stack: set<Frame>)
    requires Inv(s, pool) && GiveStack(s, s', a, stack)
    ensures Abs(s') == Abs(s)
  {
    hide Inv;
    KeepSame(s, s', pool);
    forall b | b in s.views ensures Seen(s'.data, s.views[b]) == Seen(s.data, s.views[b]) {
      SeenKeep(s.data, s'.data, s.views[b]);
    }
  }
}
