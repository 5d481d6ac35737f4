/**
 How the page tables in memory represent the address spaces of `CowMachine`: each space is a tree
 of table frames it owns, whose user leaves are exactly the pages of the space.  The lemmas say
 that what the page-table operations do to memory is what the steps of the machine do.
 */
module SpaceTables {
  import opened Basics
  import opened Sv39
  import opened FrameAllocator
  import opened PageTables
  import opened Forking
  import opened Paging
  import opened CowMachine

  /** Pages of the lower half of the address space, where user memory lives. */
  const USER_PAGES: nat := 0x400_0000

  /** The first gigapage of the kernel's direct mapping, and the number of gigapages it maps in all. */
  const KERNEL_SLOT: nat := 344
  const KERNEL_SLOTS: nat := 168

  /** The leaf of kernel gigapage `j`: 166 for all of memory, then two for the kernel image. */
  function KernelLeaf(j: nat): Pte {
    if j < 166 then Pte(RW.Or(VAD), j * 0x4_0000) else Pte(RWX.Or(VAD), 0x8_0000 + (j - 166) * 0x4_0000)
  }

  /** The first `k` kernel gigapages are mapped where they belong. */
  ghost predicate KernelMaps(m: Mem, root: Frame, n: nat, k: nat)
    requires n <= 2
  {
    forall u: nat | KERNEL_SLOT <= Index(u, n) < KERNEL_SLOT + k :: Walk(m, root, n, u) == Some(Hit(KernelLeaf(Index(u, n) - KERNEL_SLOT), n))
  }

  function PageHit(w: View, v: nat): Option<Hit> {
    if v in w.pages then Some(Hit(w.pages[v], 0)) else None
  }

  /** The tree of space `a`: its frames, its user frames, and its translation of user and kernel addresses. */
  ghost predicate TreeOf(m: Mem, owner: map<Frame, Owner>, a: Id, w: View, n: nat)
    requires n <= 2
  {
    && Tree(m, w.root, n)
    && Nodes(m, w.root, n) == OwnedBy(owner, TableOf(a))
    && Users(m, w.root, n) == Mapped(w)
    && (forall v: nat | v < USER_PAGES :: Walk(m, w.root, n, v) == PageHit(w, v))
    && KernelMaps(m, w.root, n, KERNEL_SLOTS)
  }

  ghost predicate AllTrees(m: Mem, owner: map<Frame, Owner>, views: map<Id, View>, n: nat)
    requires n <= 2
  {
    forall a | a in views :: TreeOf(m, owner, a, views[a], n)
  }

  /** The data frames of memory. */
  ghost function DataOf(m: Mem): map<Frame, Bytes> {
    map x | x in m && m[x].Data? :: m[x].bytes
  }

  lemma {:induction false} TreeTables(m: Mem, f: Frame, l: nat)
    requires Tree(m, f, l)
    ensures forall x | x in Nodes(m, f, l) :: IsTable(m, x)
    decreases l
  {
    forall x | x in Nodes(m, f, l) && x != f ensures IsTable(m, x) {
      var k :| 0 <= k < 512 && x in EntryNodes(m, m[f].ptes[k], l);
      assert EntryTree(m, m[f].ptes[k], l);
      TreeTables(m, m[f].ptes[k].ppn, l - 1);
    }
  }

  /** Two pages share their level-0 entry only when they are the same page. */
  lemma SamePageOnly(u: nat, v: nat, n: nat)
    requires u < PAGES && v < PAGES && n == 2
    ensures SamePath(u, v, 0, n) <==> u == v
  {
    assert SamePath(u, v, 0, n) <==> Index(u, n) == Index(v, n) && SamePath(u, v, 0, n - 1);
    assert SamePath(u, v, 0, n - 1) <==> Index(u, n - 1) == Index(v, n - 1) && SamePath(u, v, 0, n - 2);
    IndicesDetermine(u, v);
  }

  /** A user page shares no entry with a kernel page. */
  lemma KernelApart(u: nat, v: nat, n: nat)
    requires v < USER_PAGES && n == 2 && Index(u, n) >= KERNEL_SLOT
    ensures !SamePath(u, v, 0, n)
  {
    assert Index(v, n) < 256;
  }

  // ---- trees that are not touched ----

  lemma OtherTree(m: Mem, m': Mem, owner: map<Frame, Owner>, owner': map<Frame, Owner>, b: Id, w: View, n: nat)
    requires n <= 2 && TreeOf(m, owner, b, w, n)
    requires Agree(m, m', OwnedBy(owner, TableOf(b)))
    requires OwnedBy(owner', TableOf(b)) == OwnedBy(owner, TableOf(b))
    ensures TreeOf(m', owner', b, w, n)
  {
    TreeFrame(m, m', w.root, n);
  }

  /** Memory changed only in the tables of space `a` and in frames that were free. */
  ghost predicate OnlyTablesOf(m: Mem, m': Mem, owner: map<Frame, Owner>, a: Id) {
    Agree(m, m', owner.Keys - OwnedBy(owner, TableOf(a)))
  }

  /** Frames were handed out, none of them as tables of a space other than `a`, and only data frames came back. */
  ghost predicate TablesKept(owner: map<Frame, Owner>, owner': map<Frame, Owner>, views: map<Id, View>, a: Id) {
    forall b | b in views && b != a :: OwnedBy(owner', TableOf(b)) == OwnedBy(owner, TableOf(b))
  }

  lemma OtherTrees(m: Mem, m': Mem, owner: map<Frame, Owner>, owner': map<Frame, Owner>, views: map<Id, View>, views': map<Id, View>, a: Id, n: nat)
    requires n <= 2 && AllTrees(m, owner, views, n)
    requires OnlyTablesOf(m, m', owner, a) && TablesKept(owner, owner', views, a)
    requires a in views' && views' == views[a := views'[a]] && TreeOf(m', owner', a, views'[a], n)
    ensures AllTrees(m', owner', views', n)
  {
    forall b | b in views' ensures TreeOf(m', owner', b, views'[b], n) {
      if b != a {
        assert TreeOf(m, owner, b, views[b], n);
        OtherTree(m, m', owner, owner', b, views[b], n);
      }
    }
  }

  lemma DataKept(m: Mem, m': Mem, owner: map<Frame, Owner>, a: Id, root: Frame, n: nat)
    requires OnlyTablesOf(m, m', owner, a) && Tree(m, root, n) && Nodes(m, root, n) == OwnedBy(owner, TableOf(a))
    ensures forall x | x in owner && x in DataOf(m) :: x in DataOf(m') && DataOf(m')[x] == DataOf(m)[x]
  {
    TreeTables(m, root, n);
  }

  // ---- one page more ----

  lemma MappedMore(w: View, v: nat, q: Pte, region: map<nat, Flags>)
    requires v !in w.pages
    ensures Mapped(w.(pages := w.pages[v := q], region := region)) == Mapped(w) + {q.ppn}
  {
    var w' := w.(pages := w.pages[v := q], region := region);
    forall x ensures x in Mapped(w') <==> x in Mapped(w) + {q.ppn} {
      if x in Mapped(w) {
        var u :| u in w.pages && w.pages[u].ppn == x;
        assert w'.pages[u].ppn == x;
      }
      assert w'.pages[v].ppn == q.ppn;
    }
  }

  lemma MapTree(m: Mem, used: set<Frame>, m': Mem, used': set<Frame>, owner: map<Frame, Owner>, owner': map<Frame, Owner>,
                a: Id, w: View, v: nat, q: Pte, region: map<nat, Flags>, n: nat)
    requires n == 2 && TreeOf(m, owner, a, w, n) && v < USER_PAGES && v !in w.pages && q.UserLeaf()
    requires MapEffect(m, used, m', used', w.root, n, v, 0, q)
    requires OwnedBy(owner', TableOf(a)) == OwnedBy(owner, TableOf(a)) + (used' - used)
    ensures TreeOf(m', owner', a, w.(pages := w.pages[v := q], region := region), n)
  {
    hide Tree, Nodes, Users, Walk, SamePath, Mapped, OwnedBy;
    var w' := w.(pages := w.pages[v := q], region := region);
    MappedMore(w, v, q, region);
    forall u: nat | u < USER_PAGES ensures Walk(m', w.root, n, u) == PageHit(w', u) {
      SamePageOnly(u, v, n);
    }
    forall u: nat | Index(u, n) >= KERNEL_SLOT ensures Walk(m', w.root, n, u) == Walk(m, w.root, n, u) { KernelApart(u, v, n); }
  }

  /** The state of the machine that memory, ownership and counts stand for. */
  ghost function State(views: map<Id, View>, owner: map<Frame, Owner>, m: Mem, counts: map<Frame, U16>): Sys {
    Sys(views, owner, DataOf(m), counts)
  }

  lemma GrownOwner(owner: map<Frame, Owner>, used: set<Frame>, used': set<Frame>, g: Frame, a: Id)
    requires used == owner.Keys + {g} && used <= used' && g !in owner
    ensures var owner' := Give(owner, used' - used, TableOf(a))[g := User];
            && owner'.Keys == used'
            && OwnedBy(owner', TableOf(a)) == OwnedBy(owner, TableOf(a)) + (used' - used)
            && (forall b | b != a :: OwnedBy(owner', TableOf(b)) == OwnedBy(owner, TableOf(b)))
  {}

  lemma MapOnly(m: Mem, owner: map<Frame, Owner>, a: Id, w: View, g: Frame, c: Content, m': Mem, used': set<Frame>, v: nat, q: Pte, n: nat)
    requires n <= 2 && TreeOf(m, owner, a, w, n) && g !in owner
    requires MapEffect(m[g := c], owner.Keys + {g}, m', used', w.root, n, v, 0, q)
    ensures TreeOf(m[g := c], owner, a, w, n)
    ensures OnlyTablesOf(m, m', owner, a)
    ensures g in m' && m'[g] == c
  {
    hide Tree, Nodes, Users, Walk, Mapped;
    OtherTree(m, m[g := c], owner, owner, a, w, n);
  }

  ghost predicate Paged(m: Mem, views: map<Id, View>, owner: map<Frame, Owner>, counts: map<Frame, U16>, m': Mem, used': set<Frame>,
                        a: Id, v: nat, flags: Flags, g: Frame, region: map<nat, Flags>, n: nat)
    requires n <= 2 && a in views
  {
    var grown := used' - (owner.Keys + {g});
    var views' := views[a := views[a].(pages := views[a].pages[v := UserLeafFor(g, flags)], region := region)];
    var owner' := Give(owner, grown, TableOf(a))[g := User];
    && owner'.Keys == used' && AllTrees(m', owner', views', n)
    && PageIn(State(views, owner, m, counts), State(views', owner', m', counts[g := 1]), a, v, flags, g, grown, region)
  }

  /** Mapping a zeroed frame is the machine's step that gives a space one more page. */
  lemma MapIsPageIn(m: Mem, views: map<Id, View>, owner: map<Frame, Owner>, counts: map<Frame, U16>, m': Mem, used': set<Frame>,
                    a: Id, v: nat, flags: Flags, g: Frame, region: map<nat, Flags>, n: nat)
    requires n == 2 && AllTrees(m, owner, views, n) && a in views && g !in owner
    requires v < USER_PAGES && v !in views[a].pages && v in region && views[a].region.Keys <= region.Keys
    requires flags.u && (flags.r || flags.x)
    requires MapEffect(m[g := ZeroPage()], owner.Keys + {g}, m', used', views[a].root, n, v, 0, UserLeafFor(g, flags))
    ensures Paged(m, views, owner, counts, m', used', a, v, flags, g, region, n)
  {
    hide Tree, Nodes, Users, Walk, Mapped, MapEffect, OnlyTablesOf, TreeOf, OwnedBy;
    var w := views[a];
    var q := UserLeafFor(g, flags);
    var used := owner.Keys + {g};
    assert used <= used' by { MapGrows(m[g := ZeroPage()], used, m', used', w.root, n, v, q); }
    var owner' := Give(owner, used' - used, TableOf(a))[g := User];
    var w' := w.(pages := w.pages[v := q], region := region);
    MapOnly(m, owner, a, w, g, ZeroPage(), m', used', v, q, n);
    GrownOwner(owner, used, used', g, a);
    MapTree(m[g := ZeroPage()], used, m', used', owner, owner', a, w, v, q, region, n);
    OtherTrees(m, m', owner, owner', views, views[a := w'], a, n);
    SpaceData(m, m', owner, a, w, n);
  }

  lemma MapGrows(m: Mem, used: set<Frame>, m': Mem, used': set<Frame>, root: Frame, n: nat, v: nat, q: Pte)
    requires n <= 2 && MapEffect(m, used, m', used', root, n, v, 0, q)
    ensures used <= used'
  {}

  lemma SpaceData(m: Mem, m': Mem, owner: map<Frame, Owner>, a: Id, w: View, n: nat)
    requires n <= 2 && OnlyTablesOf(m, m', owner, a) && TreeOf(m, owner, a, w, n)
    ensures forall x | x in owner && x in DataOf(m) :: x in DataOf(m') && DataOf(m')[x] == DataOf(m)[x]
  {
    DataKept(m, m', owner, a, w.root, n);
  }

  // ---- copy on write ----

  lemma CopyOwner(owner: map<Frame, Owner>, used': set<Frame>, x: Frame, g: Frame, last: bool)
    requires x in owner && owner[x] == User && g !in owner
    requires used' == if last then owner.Keys + {g} - {x} else owner.Keys + {g}
    ensures var owner' := (if last then owner - {x} else owner)[g := User];
            && owner'.Keys == used'
            && (forall b :: OwnedBy(owner', TableOf(b)) == OwnedBy(owner, TableOf(b)))
  {}

  lemma CopyTree(m: Mem, m': Mem, owner: map<Frame, Owner>, owner': map<Frame, Owner>, a: Id, w: View, v: nat, g: Frame, n: nat)
    requires n == 2 && TreeOf(m, owner, a, w, n) && v < USER_PAGES && v in w.pages && ViewOk(w) && g !in Mapped(w)
    requires CowTree(m, m', owner.Keys, w.root, n, v, w.pages[v], g)
    requires OwnedBy(owner', TableOf(a)) == OwnedBy(owner, TableOf(a))
    ensures TreeOf(m', owner', a, w.(pages := w.pages[v := w.pages[v].(ppn := g).SetFlags(W)]), n)
  {
    hide Tree, Nodes, Users, Walk, SamePath, Mapped, OwnedBy, ViewOk;
    CopyView(w, v, g);
    forall u: nat | u < USER_PAGES
      ensures Walk(m', w.root, n, u) == PageHit(w.(pages := w.pages[v := w.pages[v].(ppn := g).SetFlags(W)]), u)
    {
      SamePageOnly(u, v, n);
    }
    forall u: nat | Index(u, n) >= KERNEL_SLOT ensures Walk(m', w.root, n, u) == Walk(m, w.root, n, u) { KernelApart(u, v, n); }
  }

  lemma CowOnly(m: Mem, m': Mem, owner: map<Frame, Owner>, a: Id, w: View, v: nat, p: Pte, g: Frame, n: nat)
    requires n <= 2 && TreeOf(m, owner, a, w, n) && CowTree(m, m', owner.Keys, w.root, n, v, p, g)
    ensures OnlyTablesOf(m, m', owner, a)
    ensures p.ppn in m && g in m' && m'[g] == m[p.ppn]
  {}

  ghost predicate Copied(m: Mem, views: map<Id, View>, owner: map<Frame, Owner>, counts: map<Frame, U16>,
                         m': Mem, used': set<Frame>, a: Id, v: nat, g: Frame, n: nat)
    requires n <= 2 && a in views && v in views[a].pages
    requires var x := views[a].pages[v].ppn; x in counts && counts[x] > 0
  {
    var p := views[a].pages[v];
    var views' := views[a := views[a].(pages := views[a].pages[v := p.(ppn := g).SetFlags(W)])];
    var owner' := (if counts[p.ppn] == 1 then owner - {p.ppn} else owner)[g := User];
    && owner'.Keys == used' && AllTrees(m', owner', views', n)
    && CopyPage(State(views, owner, m, counts), State(views', owner', m', Dropped(counts, p.ppn)[g := 1]), a, v, g)
  }

  /** Copying a shared page is the machine's copy step. */
  lemma CowIsCopy(m: Mem, views: map<Id, View>, owner: map<Frame, Owner>, counts: map<Frame, U16>,
                  m': Mem, used': set<Frame>, counts': map<Frame, U16>, a: Id, v: nat, g: Frame, n: nat)
    requires n == 2 && AllTrees(m, owner, views, n) && a in views && ViewOk(views[a])
    requires v < USER_PAGES && v in views[a].pages && Mapped(views[a]) <= owner.Keys
    requires var x := views[a].pages[v].ppn; x in owner && owner[x] == User && x in m && m[x].Data?
    requires CowEffect(m, owner.Keys, counts, m', used', counts', views[a].root, n, v, views[a].pages[v], g)
    ensures var x := views[a].pages[v].ppn;
            x in counts && counts[x] > 0 && counts' == Dropped(counts, x)[g := 1]
    ensures Copied(m, views, owner, counts, m', used', a, v, g, n)
  {
    hide Tree, Nodes, Users, Walk, Mapped, OnlyTablesOf, TreeOf, OwnedBy, CowTree, ViewOk;
    var w := views[a];
    var p := w.pages[v];
    var owner' := (if counts[p.ppn] == 1 then owner - {p.ppn} else owner)[g := User];
    var w' := w.(pages := w.pages[v := p.(ppn := g).SetFlags(W)]);
    CopyOwner(owner, used', p.ppn, g, counts[p.ppn] == 1);
    CowOnly(m, m', owner, a, w, v, p, g, n);
    CopyTree(m, m', owner, owner', a, w, v, g, n);
    OtherTrees(m, m', owner, owner', views, views[a := w'], a, n);
    SpaceData(m, m', owner, a, w, n);
  }

  // ---- fork ----

  lemma SharedMapped(w: View, root: Frame)
    ensures Mapped(w.(root := root, pages := SharedPages(w.pages))) == Mapped(w)
  {
    var w' := w.(root := root, pages := SharedPages(w.pages));
    forall x | x in Mapped(w) ensures x in Mapped(w') {
      var v :| v in w.pages && w.pages[v].ppn == x;
      assert w'.pages[v].ppn == x;
    }
  }

  lemma ForkTree(m: Mem, m': Mem, owner': map<Frame, Owner>, a: Id, w: View, root: Frame, b: Id, n: nat)
    requires n <= 2 && Users(m, w.root, n) == Mapped(w)
    requires forall v: nat | v < USER_PAGES :: Walk(m, w.root, n, v) == PageHit(w, v)
    requires KernelMaps(m, w.root, n, KERNEL_SLOTS)
    requires Tree(m', root, n) && Nodes(m', root, n) == OwnedBy(owner', TableOf(b)) && Users(m', root, n) == Users(m, w.root, n)
    requires forall v :: Walk(m', root, n, v) == SharedHit(Walk(m, w.root, n, v))
    ensures TreeOf(m', owner', b, w.(root := root, pages := SharedPages(w.pages)), n)
  {
    hide Tree, Nodes, Users, Walk, Mapped, OwnedBy;
    SharedMapped(w, root);
  }

  lemma ForkOwner(owner: map<Frame, Owner>, used': set<Frame>, b: Id)
    requires owner.Keys <= used' && OwnedBy(owner, TableOf(b)) == {}
    ensures var owner' := Give(Give(owner, used' - owner.Keys, TableOf(b)), {}, StackOf(b));
            && owner'.Keys == used'
            && OwnedBy(owner', TableOf(b)) == used' - owner.Keys
            && (forall c | c != b :: OwnedBy(owner', TableOf(c)) == OwnedBy(owner, TableOf(c)))
  {}

  ghost predicate Forked(m: Mem, views: map<Id, View>, owner: map<Frame, Owner>, counts: map<Frame, U16>,
                         m': Mem, used': set<Frame>, counts': map<Frame, U16>, a: Id, b: Id, root: Frame, n: nat)
    requires n <= 2 && a in views
  {
    var w := views[a];
    var tables := used' - owner.Keys;
    var views' := views[a := w.(pages := SharedPages(w.pages))][b := w.(root := root, pages := SharedPages(w.pages))];
    var owner' := Give(Give(owner, tables, TableOf(b)), {}, StackOf(b));
    && owner'.Keys == used' && AllTrees(m', owner', views', n)
    && ForkSpace(State(views, owner, m, counts), State(views', owner', m', counts'), a, b, root, tables, {})
  }

  lemma ForkTrees(m: Mem, views: map<Id, View>, owner: map<Frame, Owner>, counts: map<Frame, U16>,
                  m': Mem, used': set<Frame>, counts': map<Frame, U16>, owner': map<Frame, Owner>, a: Id, b: Id, root: Frame, n: nat)
    requires n <= 2 && AllTrees(m, owner, views, n) && a in views && b !in views && owner.Keys <= used'
    requires OwnedBy(owner', TableOf(b)) == used' - owner.Keys
    requires forall c | c != b :: OwnedBy(owner', TableOf(c)) == OwnedBy(owner, TableOf(c))
    requires ForkEffect(m, owner.Keys, counts, m', used', counts', views[a].root, n, root)
    ensures OnlyTablesOf(m, m', owner, a) && root in used' - owner.Keys && counts' == Bumped(counts, Mapped(views[a]))
    ensures TreeOf(m', owner', a, views[a].(pages := SharedPages(views[a].pages)), n)
    ensures TreeOf(m', owner', b, views[a].(root := root, pages := SharedPages(views[a].pages)), n)
  {
    var w := views[a];
    assert TreeOf(m, owner, a, w, n);
    assert root in Nodes(m', root, n);
    hide Tree, Nodes, Users, Walk, Mapped, OwnedBy;
    assert w.(root := w.root, pages := SharedPages(w.pages)) == w.(pages := SharedPages(w.pages));
    ForkTree(m, m', owner', a, w, w.root, a, n);
    ForkTree(m, m', owner', a, w, root, b, n);
  }

  /** Duplicating the tables is the machine's fork step. */
  lemma ForkIsFork(m: Mem, views: map<Id, View>, owner: map<Frame, Owner>, counts: map<Frame, U16>,
                   m': Mem, used': set<Frame>, counts': map<Frame, U16>, a: Id, b: Id, root: Frame, n: nat)
    requires n <= 2 && AllTrees(m, owner, views, n) && a in views && b !in views && OwnedBy(owner, TableOf(b)) == {}
    requires ForkEffect(m, owner.Keys, counts, m', used', counts', views[a].root, n, root)
    ensures Forked(m, views, owner, counts, m', used', counts', a, b, root, n)
  {
    assert owner.Keys <= used';
    hide Tree, Nodes, Users, Walk, Mapped, OwnedBy, TreeOf, OnlyTablesOf, ForkEffect;
    var w := views[a];
    var tables := used' - owner.Keys;
    var views' := views[a := w.(pages := SharedPages(w.pages))][b := w.(root := root, pages := SharedPages(w.pages))];
    var owner' := Give(Give(owner, tables, TableOf(b)), {}, StackOf(b));
    ForkOwner(owner, used', b);
    ForkTrees(m, views, owner, counts, m', used', counts', owner', a, b, root, n);
    forall c | c in views' ensures TreeOf(m', owner', c, views'[c], n) {
      if c != a && c != b {
        UntouchedTree(m, m', owner, owner', views, a, c, n);
      }
    }
    SpaceData(m, m', owner, a, w, n);
  }

  lemma UntouchedTree(m: Mem, m': Mem, owner: map<Frame, Owner>, owner': map<Frame, Owner>, views: map<Id, View>, a: Id, c: Id, n: nat)
    requires n <= 2 && AllTrees(m, owner, views, n) && c in views && c != a && OnlyTablesOf(m, m', owner, a)
    requires OwnedBy(owner', TableOf(c)) == OwnedBy(owner, TableOf(c))
    ensures TreeOf(m', owner', c, views[c], n)
  {
    assert TreeOf(m, owner, c, views[c], n);
    OtherTree(m, m', owner, owner', c, views[c], n);
  }

  // ---- a new space ----

  /** A root table whose entries from `KERNEL_SLOT` on hold `k` kernel leaves, and nothing else. */
  ghost predicate KernelTree(m: Mem, root: Frame, n: nat, k: nat)
    requires n <= 2
  {
    && Tree(m, root, n) && Nodes(m, root, n) == {root} && Users(m, root, n) == {}
    && (forall u: nat | Index(u, n) < KERNEL_SLOT || KERNEL_SLOT + k <= Index(u, n) :: Walk(m, root, n, u) == None)
    && KernelMaps(m, root, n, k)
  }

  lemma KernelStart(m: Mem, g: Frame, n: nat)
    requires n <= 2 && g in m && m[g] == BlankTable()
    ensures KernelTree(m, g, n, 0)
  {}

  ghost predicate Created(m: Mem, views: map<Id, View>, owner: map<Frame, Owner>, counts: map<Frame, U16>, m': Mem, b: Id, g: Frame, n: nat)
    requires n <= 2
  {
    var views' := views[b := View(g, map[], map[], 0, 0)];
    var owner' := Give(Give(owner, {g}, TableOf(b)), {}, StackOf(b));
    && owner'.Keys == owner.Keys + {g} && AllTrees(m', owner', views', n)
    && NewSpace(State(views, owner, m, counts), State(views', owner', m', counts), b, g, {g}, {})
  }

  lemma NewTree(m': Mem, owner': map<Frame, Owner>, b: Id, g: Frame, n: nat)
    requires n == 2 && KernelTree(m', g, n, KERNEL_SLOTS) && OwnedBy(owner', TableOf(b)) == {g}
    ensures TreeOf(m', owner', b, View(g, map[], map[], 0, 0), n)
  {}

  lemma NewTrees(m: Mem, views: map<Id, View>, owner: map<Frame, Owner>, m': Mem, owner': map<Frame, Owner>, b: Id, g: Frame, n: nat)
    requires n == 2 && AllTrees(m, owner, views, n) && b !in views
    requires KernelTree(m', g, n, KERNEL_SLOTS) && Agree(m, m', owner.Keys) && OwnedBy(owner', TableOf(b)) == {g}
    requires forall c | c != b :: OwnedBy(owner', TableOf(c)) == OwnedBy(owner, TableOf(c))
    ensures AllTrees(m', owner', views[b := View(g, map[], map[], 0, 0)], n)
  {
    hide Tree, Nodes, Users, Walk, Mapped, KernelTree, OwnedBy, TreeOf;
    var views' := views[b := View(g, map[], map[], 0, 0)];
    NewTree(m', owner', b, g, n);
    forall c | c in views' ensures TreeOf(m', owner', c, views'[c], n) {
      if c != b {
        OwnedWithin(owner, TableOf(c));
        assert TreeOf(m, owner, c, views[c], n);
        OtherTree(m, m', owner, owner', c, views[c], n);
      }
    }
  }

  /** A root table with the kernel's mappings is the machine's new space. */
  lemma NewIsNew(m: Mem, views: map<Id, View>, owner: map<Frame, Owner>, counts: map<Frame, U16>, m': Mem, b: Id, g: Frame, n: nat)
    requires n == 2 && AllTrees(m, owner, views, n) && b !in views && g !in owner && OwnedBy(owner, TableOf(b)) == {}
    requires KernelTree(m', g, n, KERNEL_SLOTS) && Agree(m, m', owner.Keys)
    ensures Created(m, views, owner, counts, m', b, g, n)
  {
    hide AllTrees, KernelTree, OwnedBy;
    ForkOwner(owner, owner.Keys + {g}, b);
    assert owner.Keys + {g} - owner.Keys == {g};
    NewTrees(m, views, owner, m', Give(Give(owner, {g}, TableOf(b)), {}, StackOf(b)), b, g, n);
  }

  lemma OwnedWithin(owner: map<Frame, Owner>, o: Owner)
    ensures OwnedBy(owner, o) <= owner.Keys
  {}

  // ---- more permissions ----

  ghost predicate Remapped(m: Mem, views: map<Id, View>, owner: map<Frame, Owner>, counts: map<Frame, U16>, m': Mem, a: Id, v: nat, flags: Flags, n: nat)
    requires n <= 2 && a in views && v in views[a].pages
  {
    var views' := views[a := views[a].(pages := views[a].pages[v := views[a].pages[v].SetFlags(flags.Or(VAD))])];
    && AllTrees(m', owner, views', n)
    && AddFlags(State(views, owner, m, counts), State(views', owner, m', counts), a, v, flags)
  }

  lemma RemapTree(m: Mem, used: set<Frame>, m': Mem, owner: map<Frame, Owner>, a: Id, w: View, v: nat, flags: Flags, n: nat)
    requires n == 2 && TreeOf(m, owner, a, w, n) && v < USER_PAGES && v in w.pages && w.pages[v].UserLeaf()
    requires MapEffect(m, used, m', used, w.root, n, v, 0, w.pages[v].SetFlags(flags.Or(VAD)))
    ensures TreeOf(m', owner, a, w.(pages := w.pages[v := w.pages[v].SetFlags(flags.Or(VAD))]), n)
  {
    hide Tree, Nodes, Users, Walk, SamePath, Mapped, OwnedBy;
    var w' := w.(pages := w.pages[v := w.pages[v].SetFlags(flags.Or(VAD))]);
    SamePpns(w, w');
    assert w.pages[v].ppn in Mapped(w) by { InMapped(w, v); }
    assert used - used == {};
    forall u: nat | u < USER_PAGES ensures Walk(m', w.root, n, u) == PageHit(w', u) {
      SamePageOnly(u, v, n);
    }
    forall u: nat | Index(u, n) >= KERNEL_SLOT ensures Walk(m', w.root, n, u) == Walk(m, w.root, n, u) { KernelApart(u, v, n); }
  }

  lemma InMapped(w: View, v: nat)
    requires v in w.pages
    ensures w.pages[v].ppn in Mapped(w)
  {}

  /** Adding flags to a leaf is the machine's remap step. */
  lemma RemapIsAddFlags(m: Mem, views: map<Id, View>, owner: map<Frame, Owner>, counts: map<Frame, U16>, m': Mem, a: Id, v: nat, flags: Flags, n: nat)
    requires n == 2 && AllTrees(m, owner, views, n) && a in views && v < USER_PAGES && v in views[a].pages && views[a].pages[v].UserLeaf()
    requires MapEffect(m, owner.Keys, m', owner.Keys, views[a].root, n, v, 0, views[a].pages[v].SetFlags(flags.Or(VAD)))
    ensures Remapped(m, views, owner, counts, m', a, v, flags, n)
  {
    var w := views[a];
    var w' := w.(pages := w.pages[v := w.pages[v].SetFlags(flags.Or(VAD))]);
    assert TreeOf(m, owner, a, w, n);
    assert OnlyTablesOf(m, m', owner, a);
    hide Tree, Nodes, Users, Walk, Mapped, OwnedBy, TreeOf, OnlyTablesOf, MapEffect;
    RemapTree(m, owner.Keys, m', owner, a, w, v, flags, n);
    OtherTrees(m, m', owner, owner, views, views[a := w'], a, n);
    SpaceData(m, m', owner, a, w, n);
  }

  // ---- bytes copied by the kernel ----

  /** Bytes of a user frame change: the trees stay, and so does every other frame. */
  lemma FillIsFill(m: Mem, views: map<Id, View>, owner: map<Frame, Owner>, counts: map<Frame, U16>, x: Frame, bytes: Bytes, n: nat)
    requires n <= 2 && AllTrees(m, owner, views, n) && x in owner && owner[x] == User && x in DataOf(m)
    ensures AllTrees(m[x := Data(bytes)], owner, views, n)
    ensures DataOf(m[x := Data(bytes)]) == DataOf(m)[x := bytes]
  {
    hide Tree, Nodes, Users, Walk, Mapped, TreeOf;
    forall b | b in views ensures TreeOf(m[x := Data(bytes)], owner, b, views[b], n) {
      assert TreeOf(m, owner, b, views[b], n);
      OtherTree(m, m[x := Data(bytes)], owner, owner, b, views[b], n);
    }
  }

  // ---- release ----

  /** The frames of `done` that had one reference. */
  ghost function Last(c: map<Frame, U16>, done: set<Frame>): set<Frame> {
    set x | x in done && x in c && c[x] == 1
  }

  lemma ReleaseNext(c: map<Frame, U16>, done: set<Frame>, x: Frame)
    requires x !in done && x in c && c[x] > 0
    ensures x in Released(c, done) && Released(c, done)[x] == c[x]
    ensures Dropped(Released(c, done), x) == Released(c, done + {x})
    ensures Last(c, done + {x}) == if c[x] == 1 then Last(c, done) + {x} else Last(c, done)
  {}

  ghost predicate Gone(m: Mem, views: map<Id, View>, owner: map<Frame, Owner>, counts: map<Frame, U16>, used': set<Frame>, a: Id, n: nat)
    requires n <= 2 && a in views
  {
    var s := State(views, owner, m, counts);
    var owner' := owner - LastFrames(s, a);
    && owner'.Keys == used' && AllTrees(m, owner', views - {a}, n)
    && FreeSpace(s, State(views - {a}, owner', m, Released(counts, Mapped(views[a]))), a)
  }

  /** Releasing the user frames, the stack and the tables is the machine's free step. */
  lemma FreeIsFree(m: Mem, views: map<Id, View>, owner: map<Frame, Owner>, counts: map<Frame, U16>, used': set<Frame>, a: Id, n: nat)
    requires n <= 2 && AllTrees(m, owner, views, n) && a in views
    requires forall x | x in counts && x in owner :: owner[x] == User
    requires used' == owner.Keys - Last(counts, Mapped(views[a])) - OwnedBy(owner, StackOf(a)) - OwnedBy(owner, TableOf(a))
    ensures Gone(m, views, owner, counts, used', a, n)
  {}
}
