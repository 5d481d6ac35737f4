/**
 Copy-on-write address spaces as a state machine.

 A state holds, for each live address space, its root table, its user leaf entries by virtual page
 and the permissions of its regions; and, shared by all of them, the owner of every allocated
 frame, the data of the user frames and their reference counts.  The steps are what the operations
 of the kernel do to that state; `AddressSpaces` shows that the page-table code performs them.
 */
module CowMachine {
  import opened Basics
  import opened Sv39
  import opened FrameAllocator
  import opened PageTables
  import opened Forking
  import opened Paging

  type Id = nat

  /** What an allocated frame is for. */
  datatype Owner = Kernel | TableOf(id: Id) | StackOf(id: Id) | User

  datatype View = View(
    root: Frame,
    pages: map<nat, Pte>,
    region: map<nat, Flags>,
    startBrk: nat,
    brk: nat
  )

  datatype Sys = Sys(
    views: map<Id, View>,
    owner: map<Frame, Owner>,
    data: map<Frame, Bytes>,
    counts: map<Frame, U16>
  )

  /** The frames a space maps for the user. */
  ghost function Mapped(w: View): set<Frame> {
    set v | v in w.pages :: w.pages[v].ppn
  }

  /** The frames each space maps. */
  ghost function Maps(views: map<Id, View>): map<Id, set<Frame>> {
    map a | a in views :: Mapped(views[a])
  }

  /** The spaces that map frame `x`. */
  ghost function Sharers(mp: map<Id, set<Frame>>, x: Frame): set<Id> {
    set a | a in mp && x in mp[a]
  }

  /** The frames with a given owner. */
  ghost function OwnedBy(owner: map<Frame, Owner>, o: Owner): set<Frame> {
    set x | x in owner && owner[x] == o
  }

  // ---- reference counts against the sets of mapped frames ----

  /** The table holds exactly the mapped frames, each with the number of spaces that map it. */
  ghost predicate CountsExact(c: map<Frame, U16>, mp: map<Id, set<Frame>>) {
    && (forall x: Frame :: x in c <==> Sharers(mp, x) != {})
    && (forall x | x in c :: c[x] as int == |Sharers(mp, x)|)
  }

  lemma SharersAdd(c: map<Frame, U16>, mp: map<Id, set<Frame>>, a: Id, g: Frame)
    requires CountsExact(c, mp) && a in mp && g !in c
    ensures forall x :: Sharers(mp[a := mp[a] + {g}], x) == if x == g then {a} else Sharers(mp, x)
    ensures CountsExact(c[g := 1], mp[a := mp[a] + {g}])
  {
    var mp' := mp[a := mp[a] + {g}];
    assert Sharers(mp, g) == {};
    forall x
      ensures Sharers(mp', x) == if x == g then {a} else Sharers(mp, x)
    {
      forall b ensures b in Sharers(mp', x) <==> b in (if x == g then {a} else Sharers(mp, x)) {
        if x == g && b in mp && b != a { assert b !in Sharers(mp, g); }
      }
    }
  }

  lemma SharersDrop(c: map<Frame, U16>, mp: map<Id, set<Frame>>, a: Id, y: Frame)
    requires CountsExact(c, mp) && a in mp && y in mp[a]
    ensures y in c && c[y] > 0
    ensures forall x :: Sharers(mp[a := mp[a] - {y}], x) == if x == y then Sharers(mp, x) - {a} else Sharers(mp, x)
    ensures CountsExact(Dropped(c, y), mp[a := mp[a] - {y}])
  {
    var mp' := mp[a := mp[a] - {y}];
    assert a in Sharers(mp, y);
    forall x
      ensures Sharers(mp', x) == if x == y then Sharers(mp, x) - {a} else Sharers(mp, x)
    {}
    if c[y] == 1 {
      assert |Sharers(mp, y) - {a}| == 0;
    } else {
      assert |Sharers(mp, y) - {a}| == c[y] as int - 1;
    }
  }

  lemma SharersOfFork(mp: map<Id, set<Frame>>, a: Id, b: Id, x: Frame)
    requires a in mp && b !in mp
    ensures Sharers(mp[b := mp[a]], x) == if x in mp[a] then Sharers(mp, x) + {b} else Sharers(mp, x)
    ensures |Sharers(mp[b := mp[a]], x)| == if x in mp[a] then |Sharers(mp, x)| + 1 else |Sharers(mp, x)|
    ensures |Sharers(mp, x)| <= |mp.Keys| && (x in mp[a] ==> a in Sharers(mp, x))
  {
    SubsetSize(Sharers(mp, x), mp.Keys);
    assert b !in Sharers(mp, x);
  }

  lemma CountOfFork(c: map<Frame, U16>, mp: map<Id, set<Frame>>, a: Id, b: Id, x: Frame)
    requires CountsExact(c, mp) && a in mp && b !in mp && |mp.Keys| < 0xffff
    ensures x in Bumped(c, mp[a]) <==> Sharers(mp[b := mp[a]], x) != {}
    ensures x in Bumped(c, mp[a]) ==> Bumped(c, mp[a])[x] as int == |Sharers(mp[b := mp[a]], x)|
  {
    SharersOfFork(mp, a, b, x);
    if x in mp[a] {
      assert x in c && c[x] as int == |Sharers(mp, x)|;
      var n := c[x] as int + 1;
      assert n % 0x1_0000 == n;
    }
  }

  lemma SharersFork(c: map<Frame, U16>, mp: map<Id, set<Frame>>, a: Id, b: Id)
    requires CountsExact(c, mp) && a in mp && b !in mp && |mp.Keys| < 0xffff
    ensures CountsExact(Bumped(c, mp[a]), mp[b := mp[a]])
  {
    forall x
      ensures x in Bumped(c, mp[a]) <==> Sharers(mp[b := mp[a]], x) != {}
      ensures x in Bumped(c, mp[a]) ==> Bumped(c, mp[a])[x] as int == |Sharers(mp[b := mp[a]], x)|
    {
      CountOfFork(c, mp, a, b, x);
    }
  }

  lemma SharersNew(c: map<Frame, U16>, mp: map<Id, set<Frame>>, b: Id)
    requires CountsExact(c, mp) && b !in mp
    ensures forall x :: Sharers(mp[b := {}], x) == Sharers(mp, x)
    ensures CountsExact(c, mp[b := {}])
  {
    forall x ensures Sharers(mp[b := {}], x) == Sharers(mp, x) {}
  }

  lemma {:induction false} SubsetSize<T>(small: set<T>, big: set<T>)
    requires small <= big
    ensures |small| <= |big|
  {
    assert big == small + (big - small);
  }

  // ---- the invariant ----

  /** One space: its pages lie in regions, its leaves are user leaves, and no frame is mapped twice. */
  ghost predicate ViewOk(w: View) {
    && w.pages.Keys <= w.region.Keys
    && (forall v | v in w.pages :: w.pages[v].UserLeaf() && (w.pages[v].flags.r || w.pages[v].flags.x) && w.pages[v].flags.a && w.pages[v].flags.d)
    && (forall u, v | u in w.pages && v in w.pages && w.pages[u].ppn == w.pages[v].ppn :: u == v)
  }

  /** Each space owns its root table. */
  ghost predicate RootsOk(s: Sys) {
    forall a | a in s.views :: s.views[a].root in s.owner && s.owner[s.views[a].root] == TableOf(a)
  }

  /** A writable user leaf of space `a` names a frame that no other space maps. */
  ghost predicate Alone(mp: map<Id, set<Frame>>, a: Id, w: View) {
    forall v | v in w.pages && w.pages[v].flags.w :: Sharers(mp, w.pages[v].ppn) == {a}
  }

  ghost predicate WritableAlone(s: Sys) {
    forall a | a in s.views :: Alone(Maps(s.views), a, s.views[a])
  }

  /** User frames are the counted frames, and each holds data. */
  ghost predicate UsersOk(s: Sys) {
    && s.counts.Keys <= s.owner.Keys && s.counts.Keys <= s.data.Keys
    && (forall x | x in s.owner :: x in s.counts <==> s.owner[x] == User)
  }

  /** Table and stack frames belong to live spaces, and the allocator manages them all. */
  ghost predicate OwnersOk(s: Sys, pool: set<Frame>) {
    && s.owner.Keys <= pool && |pool| <= POOL
    && (forall x, b | x in s.owner && (s.owner[x] == TableOf(b) || s.owner[x] == StackOf(b)) :: b in s.views)
  }

  ghost predicate Inv(s: Sys, pool: set<Frame>) {
    && (forall a | a in s.views :: ViewOk(s.views[a]))
    && RootsOk(s) && UsersOk(s) && OwnersOk(s, pool)
    && CountsExact(s.counts, Maps(s.views))
    && WritableAlone(s)
  }

  // ---- what the invariant gives ----

  lemma MapsCounted(s: Sys, pool: set<Frame>, a: Id, v: nat)
    requires Inv(s, pool) && a in s.views && v in s.views[a].pages
    ensures var x := s.views[a].pages[v].ppn;
            && x in Mapped(s.views[a]) && a in Sharers(Maps(s.views), x)
            && x in s.counts && s.counts[x] > 0 && x in s.owner && s.owner[x] == User && x in s.data
  {
    var x := s.views[a].pages[v].ppn;
    assert x in Mapped(s.views[a]);
    assert a in Sharers(Maps(s.views), x);
  }

  /** Every user leaf entry, in every space, that names frame `x`. */
  ghost function References(s: Sys, x: Frame): set<(Id, nat)> {
    set a, v | a in s.views && v in s.views[a].pages && s.views[a].pages[v].ppn == x :: (a, v)
  }

  /** A frame's count is the number of user leaf entries that name it, over all spaces. */
  lemma CountIsReferences(s: Sys, pool: set<Frame>, x: Frame)
    requires Inv(s, pool)
    ensures |References(s, x)| == if x in s.counts then s.counts[x] as int else 0
  {
    hide Inv;
    var refs := References(s, x);
    var ids := Sharers(Maps(s.views), x);
    forall r | r in refs ensures r.0 in ids {
      assert s.views[r.0].pages[r.1].ppn in Mapped(s.views[r.0]);
    }
    forall a | a in ids
      ensures exists v :: (a, v) in refs
    {
      var v :| v in s.views[a].pages && s.views[a].pages[v].ppn == x;
      assert (a, v) in refs;
    }
    forall a, u, v | (a, u) in refs && (a, v) in refs
      ensures u == v
    {
      OneReference(s, pool, a, u, v);
    }
    OnePerId(refs, ids);
    SharersCounted(s, pool, x);
  }

  lemma OneReference(s: Sys, pool: set<Frame>, a: Id, u: nat, v: nat)
    requires Inv(s, pool) && a in s.views && u in s.views[a].pages && v in s.views[a].pages && s.views[a].pages[u].ppn == s.views[a].pages[v].ppn
    ensures u == v
  {
    assert ViewOk(s.views[a]);
  }

  lemma SharersCounted(s: Sys, pool: set<Frame>, x: Frame)
    requires Inv(s, pool)
    ensures |Sharers(Maps(s.views), x)| == if x in s.counts then s.counts[x] as int else 0
  {}

  /** A set of pairs with exactly one pair for each id has as many elements as there are ids. */
  lemma {:induction false} OnePerId(refs: set<(Id, nat)>, ids: set<Id>)
    requires forall r | r in refs :: r.0 in ids
    requires forall a | a in ids :: exists v :: (a, v) in refs
    requires forall a, u, v | (a, u) in refs && (a, v) in refs :: u == v
    ensures |refs| == |ids|
    decreases ids
  {
    if ids == {} {
      assert refs == {};
    } else {
      var a :| a in ids;
      var v :| (a, v) in refs;
      var refs', ids' := refs - {(a, v)}, ids - {a};
      forall b | b in ids' ensures exists u :: (b, u) in refs' {
        var u :| (b, u) in refs;
        assert (b, u) in refs';
      }
      OnePerId(refs', ids');
    }
  }

  /** There are never more address spaces than frames: each owns a root table of its own. */
  lemma SpacesBounded(s: Sys, pool: set<Frame>)
    requires RootsOk(s) && OwnersOk(s, pool)
    ensures |s.views.Keys| <= POOL
  {
    RootEach(s.views, s.views.Keys, s.owner, s.owner.Keys);
    SubsetSize(s.owner.Keys, pool);
  }

  lemma {:induction false} RootEach(views: map<Id, View>, ids: set<Id>, owner: map<Frame, Owner>, frames: set<Frame>)
    requires ids <= views.Keys && frames <= owner.Keys
    requires forall a | a in ids :: views[a].root in frames && owner[views[a].root] == TableOf(a)
    ensures |ids| <= |frames|
    decreases ids
  {
    if ids != {} {
      var a :| a in ids;
      RootEach(views, ids - {a}, owner, frames - {views[a].root});
    }
  }

  /** A 16-bit count never wraps: no frame is ever referenced more than 4096 times. */
  lemma CountBounded(s: Sys, pool: set<Frame>, x: Frame)
    requires Inv(s, pool) && x in s.counts
    ensures 1 <= s.counts[x] <= 4096
  {
    SpacesBounded(s, pool);
    SubsetSize(Sharers(Maps(s.views), x), s.views.Keys);
    assert Sharers(Maps(s.views), x) != {};
  }

  // ---- steps ----

  /** `owner` with every frame of `more` given to `o`. */
  ghost function Give(owner: map<Frame, Owner>, more: set<Frame>, o: Owner): map<Frame, Owner> {
    owner + map x | x in more :: o
  }

  /** Allocated frames keep their data. */
  ghost predicate KeepData(s: Sys, s': Sys) {
    forall x | x in s.owner && x in s.data :: x in s'.data && s'.data[x] == s.data[x]
  }

  function UserLeafFor(g: Frame, flags: Flags): Pte {
    Pte(flags.Or(VAD), g)
  }

  /** Space `a` changes to `w`, which maps the given frames. */
  lemma MapsChange(views: map<Id, View>, a: Id, w: View)
    ensures Maps(views[a := w]) == Maps(views)[a := Mapped(w)]
  {}

  /** Page `v` of space `a` is given the fresh zeroed frame `g`; its tree grew by `grown`. */
  ghost predicate PageIn(s: Sys, s': Sys, a: Id, v: nat, flags: Flags, g: Frame, grown: set<Frame>, region: map<nat, Flags>) {
    && a in s.views && v !in s.views[a].pages && v in region && s.views[a].region.Keys <= region.Keys
    && flags.u && (flags.r || flags.x)
    && g !in s.owner && grown !! s.owner.Keys && g !in grown
    && s'.views == s.views[a := s.views[a].(pages := s.views[a].pages[v := UserLeafFor(g, flags)], region := region)]
    && s'.owner == Give(s.owner, grown, TableOf(a))[g := User]
    && s'.counts == s.counts[g := 1]
    && g in s'.data && s'.data[g] == ZeroPage().bytes && KeepData(s, s')
  }

  lemma PageInView(w: View, v: nat, q: Pte, region: map<nat, Flags>)
    requires ViewOk(w) && v !in w.pages && v in region && w.region.Keys <= region.Keys
    requires q.UserLeaf() && (q.flags.r || q.flags.x) && q.flags.a && q.flags.d && q.ppn !in Mapped(w)
    ensures var w' := w.(pages := w.pages[v := q], region := region);
            ViewOk(w') && Mapped(w') == Mapped(w) + {q.ppn}
  {
    var w' := w.(pages := w.pages[v := q], region := region);
    forall x ensures x in Mapped(w') <==> x in Mapped(w) + {q.ppn} {
      if x in Mapped(w) {
        var u :| u in w.pages && w.pages[u].ppn == x;
        assert w'.pages[u].ppn == x;
      }
      assert w'.pages[v].ppn == q.ppn;
    }
    forall u | u in w.pages ensures w.pages[u].ppn in Mapped(w) {}
  }

  /** A space keeps its writable frames to itself when nobody starts or stops mapping them. */
  lemma KeepAlone(mp: map<Id, set<Frame>>, mp': map<Id, set<Frame>>, b: Id, w: View)
    requires Alone(mp, b, w) && forall x | x in Mapped(w) :: Sharers(mp', x) == Sharers(mp, x)
    ensures Alone(mp', b, w)
  {
    forall v | v in w.pages ensures w.pages[v].ppn in Mapped(w) {}
  }

  lemma MappedInMaps(views: map<Id, View>, c: map<Frame, U16>, a: Id)
    requires CountsExact(c, Maps(views)) && a in views
    ensures Mapped(views[a]) <= c.Keys
    ensures forall x | x in Mapped(views[a]) :: a in Sharers(Maps(views), x)
  {
    forall x | x in Mapped(views[a]) ensures a in Sharers(Maps(views), x) && x in c {}
  }

  lemma PageInCounts(s: Sys, s': Sys, a: Id, v: nat, flags: Flags, g: Frame, grown: set<Frame>, region: map<nat, Flags>)
    requires PageIn(s, s', a, v, flags, g, grown, region) && CountsExact(s.counts, Maps(s.views)) && g !in s.counts
    requires ViewOk(s.views[a])
    ensures ViewOk(s'.views[a])
    ensures Maps(s'.views) == Maps(s.views)[a := Maps(s.views)[a] + {g}]
    ensures CountsExact(s'.counts, Maps(s'.views))
    ensures forall x :: Sharers(Maps(s'.views), x) == if x == g then {a} else Sharers(Maps(s.views), x)
  {
    MappedInMaps(s.views, s.counts, a);
    PageInView(s.views[a], v, UserLeafFor(g, flags), region);
    MapsChange(s.views, a, s'.views[a]);
    SharersAdd(s.counts, Maps(s.views), a, g);
  }

  lemma PageInAlone(mp: map<Id, set<Frame>>, mp': map<Id, set<Frame>>, w: View, w': View, a: Id, v: nat, q: Pte)
    requires Alone(mp, a, w) && w'.pages == w.pages[v := q] && q.ppn !in Mapped(w)
    requires forall x :: Sharers(mp', x) == if x == q.ppn then {a} else Sharers(mp, x)
    ensures Alone(mp', a, w')
  {
    forall u | u in w.pages ensures w.pages[u].ppn in Mapped(w) {}
  }

  lemma PageInWritable(s: Sys, s': Sys, a: Id, v: nat, flags: Flags, g: Frame, grown: set<Frame>, region: map<nat, Flags>)
    requires PageIn(s, s', a, v, flags, g, grown, region) && CountsExact(s.counts, Maps(s.views)) && g !in s.counts
    requires WritableAlone(s)
    requires forall x :: Sharers(Maps(s'.views), x) == if x == g then {a} else Sharers(Maps(s.views), x)
    ensures WritableAlone(s')
  {
    forall b | b in s'.views ensures Alone(Maps(s'.views), b, s'.views[b]) {
      MappedInMaps(s.views, s.counts, b);
      if b == a {
        PageInAlone(Maps(s.views), Maps(s'.views), s.views[a], s'.views[a], a, v, UserLeafFor(g, flags));
      } else {
        KeepAlone(Maps(s.views), Maps(s'.views), b, s.views[b]);
      }
    }
  }

  lemma PageInOwners(s: Sys, s': Sys, pool: set<Frame>, a: Id, v: nat, flags: Flags, g: Frame, grown: set<Frame>, region: map<nat, Flags>)
    requires PageIn(s, s', a, v, flags, g, grown, region) && s'.owner.Keys <= pool
    requires RootsOk(s) && UsersOk(s) && OwnersOk(s, pool)
    ensures RootsOk(s') && UsersOk(s') && OwnersOk(s', pool)
  {}

  lemma PageInInv(s: Sys, s': Sys, pool: set<Frame>, a: Id, v: nat, flags: Flags, g: Frame, grown: set<Frame>, region: map<nat, Flags>)
    requires Inv(s, pool) && PageIn(s, s', a, v, flags, g, grown, region) && s'.owner.Keys <= pool
    ensures Inv(s', pool)
  {
    hide RootsOk, OwnersOk, CountsExact, WritableAlone, Maps, Sharers;
    PageInOwners(s, s', pool, a, v, flags, g, grown, region);
    PageInCounts(s, s', a, v, flags, g, grown, region);
    PageInWritable(s, s', a, v, flags, g, grown, region);
  }

  /** Page `v` of space `a` is given the fresh private copy `g` of its frame. */
  ghost predicate CopyPage(s: Sys, s': Sys, a: Id, v: nat, g: Frame) {
    && a in s.views && v in s.views[a].pages && g !in s.owner
    && var p := s.views[a].pages[v];
    && p.ppn in s.counts && s.counts[p.ppn] > 0 && p.ppn in s.data
    && s'.views == s.views[a := s.views[a].(pages := s.views[a].pages[v := p.(ppn := g).SetFlags(W)])]
    && s'.owner == (if s.counts[p.ppn] == 1 then s.owner - {p.ppn} else s.owner)[g := User]
    && s'.counts == Dropped(s.counts, p.ppn)[g := 1]
    && g in s'.data && s'.data[g] == s.data[p.ppn] && KeepData(s, s')
  }

  lemma CopyView(w: View, v: nat, g: Frame)
    requires ViewOk(w) && v in w.pages && g !in Mapped(w)
    ensures var w' := w.(pages := w.pages[v := w.pages[v].(ppn := g).SetFlags(W)]);
            ViewOk(w') && Mapped(w') == Mapped(w) - {w.pages[v].ppn} + {g}
  {
    var w' := w.(pages := w.pages[v := w.pages[v].(ppn := g).SetFlags(W)]);
    forall u | u in w.pages ensures w.pages[u].ppn in Mapped(w) {}
    forall x ensures x in Mapped(w') <==> x in Mapped(w) - {w.pages[v].ppn} + {g} {
      if x in Mapped(w) && x != w.pages[v].ppn {
        var u :| u in w.pages && w.pages[u].ppn == x;
        assert w'.pages[u].ppn == x;
      }
      assert w'.pages[v].ppn == g;
    }
  }

  /** Who maps what after space `a` exchanged frame `y` for the fresh frame `g`. */
  ghost predicate Exchanged(mp: map<Id, set<Frame>>, mp': map<Id, set<Frame>>, a: Id, y: Frame, g: Frame) {
    && Sharers(mp', g) == {a}
    && (forall x | x != g && x != y :: Sharers(mp', x) == Sharers(mp, x))
  }

  lemma ExchangeMaps(c: map<Frame, U16>, mp: map<Id, set<Frame>>, a: Id, y: Frame, g: Frame)
    requires CountsExact(c, mp) && a in mp && y in mp[a] && g !in c
    ensures y in c && c[y] > 0
    ensures CountsExact(Dropped(c, y)[g := 1], mp[a := mp[a] - {y} + {g}])
    ensures Exchanged(mp, mp[a := mp[a] - {y} + {g}], a, y, g)
  {
    SharersDrop(c, mp, a, y);
    var mp1 := mp[a := mp[a] - {y}];
    SharersAdd(Dropped(c, y), mp1, a, g);
    assert mp1[a := mp1[a] + {g}] == mp[a := mp[a] - {y} + {g}];
  }

  lemma CopyCounts(s: Sys, s': Sys, a: Id, v: nat, g: Frame)
    requires CopyPage(s, s', a, v, g) && CountsExact(s.counts, Maps(s.views)) && g !in s.counts && ViewOk(s.views[a])
    ensures ViewOk(s'.views[a])
    ensures var y := s.views[a].pages[v].ppn;
            Maps(s'.views) == Maps(s.views)[a := Maps(s.views)[a] - {y} + {g}] && y in Maps(s.views)[a]
  {
    MappedInMaps(s.views, s.counts, a);
    CopyView(s.views[a], v, g);
    MapsChange(s.views, a, s'.views[a]);
  }

  lemma CopyAlone(mp: map<Id, set<Frame>>, mp': map<Id, set<Frame>>, w: View, a: Id, v: nat, g: Frame)
    requires Alone(mp, a, w) && ViewOk(w) && v in w.pages && g !in Mapped(w)
    requires Exchanged(mp, mp', a, w.pages[v].ppn, g)
    ensures Alone(mp', a, w.(pages := w.pages[v := w.pages[v].(ppn := g).SetFlags(W)]))
  {
    forall u | u in w.pages ensures w.pages[u].ppn in Mapped(w) {}
  }

  lemma OtherAlone(mp: map<Id, set<Frame>>, mp': map<Id, set<Frame>>, b: Id, w: View, a: Id, y: Frame, g: Frame)
    requires Alone(mp, b, w) && a != b && a in Sharers(mp, y) && g !in Mapped(w)
    requires Exchanged(mp, mp', a, y, g)
    ensures Alone(mp', b, w)
  {
    forall v | v in w.pages && w.pages[v].flags.w ensures Sharers(mp', w.pages[v].ppn) == {b} {
      assert w.pages[v].ppn in Mapped(w);
      assert Sharers(mp, w.pages[v].ppn) == {b};
    }
  }

  lemma CopyWritable(views: map<Id, View>, mp': map<Id, set<Frame>>, c: map<Frame, U16>, a: Id, v: nat, g: Frame, b: Id)
    requires CountsExact(c, Maps(views)) && g !in c && a in views && b in views && v in views[a].pages
    requires ViewOk(views[a]) && Alone(Maps(views), b, views[b])
    requires Exchanged(Maps(views), mp', a, views[a].pages[v].ppn, g)
    ensures b != a ==> Alone(mp', b, views[b])
    ensures b == a ==> Alone(mp', a, views[a].(pages := views[a].pages[v := views[a].pages[v].(ppn := g).SetFlags(W)]))
  {
    MappedInMaps(views, c, b);
    if b == a {
      CopyAlone(Maps(views), mp', views[a], a, v, g);
    } else {
      MappedInMaps(views, c, a);
      OtherAlone(Maps(views), mp', b, views[b], a, views[a].pages[v].ppn, g);
    }
  }

  lemma CopyOwners(s: Sys, s': Sys, pool: set<Frame>, a: Id, v: nat, g: Frame)
    requires CopyPage(s, s', a, v, g) && s'.owner.Keys <= pool
    requires RootsOk(s) && UsersOk(s) && OwnersOk(s, pool)
    ensures RootsOk(s') && UsersOk(s') && OwnersOk(s', pool)
  {}

  lemma CopyExact(s: Sys, s': Sys, a: Id, v: nat, g: Frame)
    requires CopyPage(s, s', a, v, g) && CountsExact(s.counts, Maps(s.views)) && g !in s.counts && ViewOk(s.views[a])
    ensures ViewOk(s'.views[a]) && CountsExact(s'.counts, Maps(s'.views))
    ensures Exchanged(Maps(s.views), Maps(s'.views), a, s.views[a].pages[v].ppn, g)
  {
    CopyCounts(s, s', a, v, g);
    ExchangeMaps(s.counts, Maps(s.views), a, s.views[a].pages[v].ppn, g);
  }

  lemma CopyAlones(s: Sys, s': Sys, a: Id, v: nat, g: Frame)
    requires CopyPage(s, s', a, v, g) && CountsExact(s.counts, Maps(s.views)) && g !in s.counts
    requires ViewOk(s.views[a]) && WritableAlone(s)
    requires Exchanged(Maps(s.views), Maps(s'.views), a, s.views[a].pages[v].ppn, g)
    ensures WritableAlone(s')
  {
    forall b | b in s'.views ensures Alone(Maps(s'.views), b, s'.views[b]) {
      CopyWritable(s.views, Maps(s'.views), s.counts, a, v, g, b);
    }
  }

  lemma CopyInv(s: Sys, s': Sys, pool: set<Frame>, a: Id, v: nat, g: Frame)
    requires Inv(s, pool) && CopyPage(s, s', a, v, g) && s'.owner.Keys <= pool
    ensures Inv(s', pool)
  {
    CopyOwners(s, s', pool, a, v, g);
    CopyExact(s, s', a, v, g);
    CopyAlones(s, s', a, v, g);
  }

  // ---- fork ----

  /** The leaves of a space after it was forked, on either side. */
  ghost function SharedPages(pages: map<nat, Pte>): map<nat, Pte> {
    map v | v in pages :: SharedPte(pages[v])
  }

  /** Space `b` is forked off space `a`, with fresh tables and a fresh kernel stack. */
  ghost predicate ForkSpace(s: Sys, s': Sys, a: Id, b: Id, root: Frame, tables: set<Frame>, stack: set<Frame>) {
    && a in s.views && b !in s.views
    && tables !! s.owner.Keys && stack !! s.owner.Keys && tables !! stack && root in tables
    && var w := s.views[a];
    && s'.views == s.views[a := w.(pages := SharedPages(w.pages))][b := w.(root := root, pages := SharedPages(w.pages))]
    && s'.owner == Give(Give(s.owner, tables, TableOf(b)), stack, StackOf(b))
    && s'.counts == Bumped(s.counts, Mapped(w))
    && KeepData(s, s')
  }

  lemma ForkView(w: View)
    requires ViewOk(w)
    ensures ViewOk(w.(pages := SharedPages(w.pages))) && Mapped(w.(pages := SharedPages(w.pages))) == Mapped(w)
    ensures forall v | v in w.pages :: !SharedPages(w.pages)[v].flags.w
  {
    var w' := w.(pages := SharedPages(w.pages));
    forall x | x in Mapped(w) ensures x in Mapped(w') {
      var v :| v in w.pages && w.pages[v].ppn == x;
      assert w'.pages[v].ppn == x;
    }
  }

  lemma ForkCounts(s: Sys, s': Sys, a: Id, b: Id, root: Frame, tables: set<Frame>, stack: set<Frame>)
    requires ForkSpace(s, s', a, b, root, tables, stack) && CountsExact(s.counts, Maps(s.views)) && ViewOk(s.views[a])
    requires |s.views.Keys| <= POOL
    ensures ViewOk(s'.views[a]) && ViewOk(s'.views[b])
    ensures Maps(s'.views) == Maps(s.views)[b := Maps(s.views)[a]]
    ensures CountsExact(s'.counts, Maps(s'.views))
  {
    hide CountsExact, Sharers;
    ForkView(s.views[a]);
    assert Mapped(s'.views[b]) == Mapped(s'.views[a]);
    assert Maps(s.views).Keys == s.views.Keys;
    SharersFork(s.counts, Maps(s.views), a, b);
  }

  lemma ForkWritable(s: Sys, s': Sys, a: Id, b: Id, root: Frame, tables: set<Frame>, stack: set<Frame>)
    requires ForkSpace(s, s', a, b, root, tables, stack) && ViewOk(s.views[a]) && WritableAlone(s)
    requires Maps(s'.views) == Maps(s.views)[b := Maps(s.views)[a]]
    ensures WritableAlone(s')
  {
    var mp, mp' := Maps(s.views), Maps(s'.views);
    forall c | c in s'.views ensures Alone(mp', c, s'.views[c]) {
      ForkView(s.views[a]);
      if c != a && c != b {
        ForkAlone(mp, a, b, c, s.views[c]);
      }
    }
  }

  lemma ForkAlone(mp: map<Id, set<Frame>>, a: Id, b: Id, c: Id, w: View)
    requires a in mp && b !in mp && c != a && Alone(mp, c, w)
    ensures Alone(mp[b := mp[a]], c, w)
  {
    forall v | v in w.pages && w.pages[v].flags.w ensures Sharers(mp[b := mp[a]], w.pages[v].ppn) == {c} {
      assert Sharers(mp, w.pages[v].ppn) == {c};
      SharersOfFork(mp, a, b, w.pages[v].ppn);
    }
  }

  lemma ForkOwners(s: Sys, s': Sys, pool: set<Frame>, a: Id, b: Id, root: Frame, tables: set<Frame>, stack: set<Frame>)
    requires ForkSpace(s, s', a, b, root, tables, stack) && s'.owner.Keys <= pool
    requires OwnersOk(s, pool)
    ensures OwnersOk(s', pool)
  {}

  lemma ForkRoots(s: Sys, s': Sys, a: Id, b: Id, root: Frame, tables: set<Frame>, stack: set<Frame>)
    requires ForkSpace(s, s', a, b, root, tables, stack) && RootsOk(s)
    ensures RootsOk(s')
  {}

  lemma ForkUsers(s: Sys, s': Sys, a: Id, b: Id, root: Frame, tables: set<Frame>, stack: set<Frame>)
    requires ForkSpace(s, s', a, b, root, tables, stack) && UsersOk(s) && Mapped(s.views[a]) <= s.counts.Keys
    ensures UsersOk(s')
  {
    assert s'.counts.Keys == s.counts.Keys;
  }

  lemma ForkSharing(s: Sys, s': Sys, a: Id, b: Id, root: Frame, tables: set<Frame>, stack: set<Frame>)
    requires ForkSpace(s, s', a, b, root, tables, stack) && CountsExact(s.counts, Maps(s.views))
    requires ViewOk(s.views[a]) && WritableAlone(s) && |s.views.Keys| <= POOL
    ensures ViewOk(s'.views[a]) && ViewOk(s'.views[b])
    ensures CountsExact(s'.counts, Maps(s'.views)) && WritableAlone(s')
  {
    ForkCounts(s, s', a, b, root, tables, stack);
    ForkWritable(s, s', a, b, root, tables, stack);
  }

  lemma ForkInv(s: Sys, s': Sys, pool: set<Frame>, a: Id, b: Id, root: Frame, tables: set<Frame>, stack: set<Frame>)
    requires Inv(s, pool) && ForkSpace(s, s', a, b, root, tables, stack) && s'.owner.Keys <= pool
    ensures Inv(s', pool)
  {
    hide RootsOk, UsersOk, OwnersOk, CountsExact, WritableAlone, Maps, Sharers;
    MappedInMaps(s.views, s.counts, a);
    ForkUsers(s, s', a, b, root, tables, stack);
    ForkOwners(s, s', pool, a, b, root, tables, stack);
    ForkRoots(s, s', a, b, root, tables, stack);
    SpacesBounded(s, pool);
    ForkSharing(s, s', a, b, root, tables, stack);
  }

  // ---- release ----

  /** Reference counts after one reference to each frame of `gone` is dropped. */
  function Released(c: map<Frame, U16>, gone: set<Frame>): map<Frame, U16> {
    map x | x in c && !(x in gone && c[x] <= 1) :: if x in gone then c[x] - 1 else c[x]
  }

  /** The frames given back when space `a` goes away: its tables, its stack, and what only it mapped. */
  ghost function LastFrames(s: Sys, a: Id): set<Frame>
    requires a in s.views
  {
    set x | x in s.owner && (s.owner[x] == TableOf(a) || s.owner[x] == StackOf(a)
                             || (x in Mapped(s.views[a]) && x in s.counts && s.counts[x] == 1))
  }

  ghost predicate FreeSpace(s: Sys, s': Sys, a: Id) {
    && a in s.views
    && s'.views == s.views - {a}
    && s'.owner == s.owner - LastFrames(s, a)
    && s'.counts == Released(s.counts, Mapped(s.views[a]))
    && s'.data == s.data
  }

  lemma SharersFree(c: map<Frame, U16>, mp: map<Id, set<Frame>>, a: Id)
    requires CountsExact(c, mp) && a in mp
    ensures CountsExact(Released(c, mp[a]), mp - {a})
    ensures forall x | x !in mp[a] :: Sharers(mp - {a}, x) == Sharers(mp, x)
  {
    forall x
      ensures x in Released(c, mp[a]) <==> Sharers(mp - {a}, x) != {}
      ensures x in Released(c, mp[a]) ==> Released(c, mp[a])[x] as int == |Sharers(mp - {a}, x)|
      ensures x !in mp[a] ==> Sharers(mp - {a}, x) == Sharers(mp, x)
    {
      CountOfFree(c, mp, a, x);
    }
  }

  lemma CountOfFree(c: map<Frame, U16>, mp: map<Id, set<Frame>>, a: Id, x: Frame)
    requires CountsExact(c, mp) && a in mp
    ensures x in Released(c, mp[a]) <==> Sharers(mp - {a}, x) != {}
    ensures x in Released(c, mp[a]) ==> Released(c, mp[a])[x] as int == |Sharers(mp - {a}, x)|
    ensures x !in mp[a] ==> Sharers(mp - {a}, x) == Sharers(mp, x)
  {
    assert Sharers(mp - {a}, x) == Sharers(mp, x) - {a};
    if x in mp[a] {
      assert a in Sharers(mp, x) && |Sharers(mp, x) - {a}| == |Sharers(mp, x)| - 1;
      assert x in c && c[x] as int == |Sharers(mp, x)|;
      if c[x] == 1 { assert |Sharers(mp - {a}, x)| == 0; }
    }
  }

  lemma FreeOwners(s: Sys, s': Sys, pool: set<Frame>, a: Id)
    requires FreeSpace(s, s', a) && RootsOk(s) && UsersOk(s) && OwnersOk(s, pool)
    requires Mapped(s.views[a]) <= s.counts.Keys && forall x | x in s.counts :: s.counts[x] > 0
    ensures RootsOk(s') && UsersOk(s') && OwnersOk(s', pool)
  {}

  lemma FreeAlone(s: Sys, s': Sys, a: Id)
    requires FreeSpace(s, s', a) && WritableAlone(s)
    requires Maps(s'.views) == Maps(s.views) - {a}
    requires forall x | x !in Maps(s.views)[a] :: Sharers(Maps(s'.views), x) == Sharers(Maps(s.views), x)
    ensures WritableAlone(s')
  {
    var mp := Maps(s.views);
    forall b | b in s'.views ensures Alone(Maps(s'.views), b, s'.views[b]) {
      var w := s.views[b];
      assert Alone(mp, b, w);
      forall v | v in w.pages && w.pages[v].flags.w ensures Sharers(Maps(s'.views), w.pages[v].ppn) == {b} {
        assert Sharers(mp, w.pages[v].ppn) == {b};
        assert a !in Sharers(mp, w.pages[v].ppn);
      }
    }
  }

  lemma PositiveCounts(c: map<Frame, U16>, mp: map<Id, set<Frame>>)
    requires CountsExact(c, mp)
    ensures forall x | x in c :: c[x] > 0
  {
    forall x | x in c ensures c[x] > 0 { assert Sharers(mp, x) != {}; }
  }

  lemma FreeSharing(s: Sys, s': Sys, a: Id)
    requires FreeSpace(s, s', a) && CountsExact(s.counts, Maps(s.views)) && WritableAlone(s)
    ensures CountsExact(s'.counts, Maps(s'.views)) && WritableAlone(s')
  {
    assert Maps(s'.views) == Maps(s.views) - {a};
    SharersFree(s.counts, Maps(s.views), a);
    FreeAlone(s, s', a);
  }

  lemma FreeInv(s: Sys, s': Sys, pool: set<Frame>, a: Id)
    requires Inv(s, pool) && FreeSpace(s, s', a)
    ensures Inv(s', pool)
  {
    assert RootsOk(s') && UsersOk(s') && OwnersOk(s', pool) by {
      MappedInMaps(s.views, s.counts, a);
      PositiveCounts(s.counts, Maps(s.views));
      FreeOwners(s, s', pool, a);
    }
    FreeSharing(s, s', a);
  }

  lemma OnlySharer(c: map<Frame, U16>, mp: map<Id, set<Frame>>, a: Id, x: Frame)
    requires CountsExact(c, mp) && a in mp
    ensures x in mp[a] && x in c && c[x] == 1 <==> Sharers(mp, x) == {a}
  {
    var sh := Sharers(mp, x);
    if x in mp[a] && x in c && c[x] == 1 {
      assert a in sh && |sh - {a}| == 0;
      assert sh == {a};
    }
    if sh == {a} {
      assert a in sh && |sh| == 1;
    }
  }

  /** Freeing a space gives back exactly its tables, its stack and the user frames only it mapped. */
  lemma FreeReleases(s: Sys, s': Sys, pool: set<Frame>, a: Id, x: Frame)
    requires Inv(s, pool) && FreeSpace(s, s', a) && x in s.owner
    ensures x !in s'.owner <==>
            s.owner[x] == TableOf(a) || s.owner[x] == StackOf(a)
            || (s.owner[x] == User && Sharers(Maps(s.views), x) == {a})
  {
    OnlySharer(s.counts, Maps(s.views), a, x);
  }

  // ---- smaller steps ----

  /** A new space: fresh tables and a fresh kernel stack, no user pages and no regions. */
  ghost predicate NewSpace(s: Sys, s': Sys, b: Id, root: Frame, tables: set<Frame>, stack: set<Frame>) {
    && b !in s.views
    && tables !! s.owner.Keys && stack !! s.owner.Keys && tables !! stack && root in tables
    && s'.views == s.views[b := View(root, map[], map[], 0, 0)]
    && s'.owner == Give(Give(s.owner, tables, TableOf(b)), stack, StackOf(b))
    && s'.counts == s.counts && KeepData(s, s')
  }

  /** A space gets frames for its kernel stack. */
  ghost predicate GiveStack(s: Sys, s': Sys, a: Id, stack: set<Frame>) {
    && a in s.views && stack !! s.owner.Keys
    && s' == s.(owner := Give(s.owner, stack, StackOf(a)), data := s'.data) && KeepData(s, s')
  }

  lemma GiveStackInv(s: Sys, s': Sys, pool: set<Frame>, a: Id, stack: set<Frame>)
    requires Inv(s, pool) && GiveStack(s, s', a, stack) && s'.owner.Keys <= pool
    ensures Inv(s', pool)
  {
    hide CountsExact, Maps, Alone;
  }

  lemma NewSharing(s: Sys, s': Sys, b: Id, root: Frame, tables: set<Frame>, stack: set<Frame>)
    requires NewSpace(s, s', b, root, tables, stack) && CountsExact(s.counts, Maps(s.views)) && WritableAlone(s)
    ensures CountsExact(s'.counts, Maps(s'.views)) && WritableAlone(s')
  {
    assert Mapped(s'.views[b]) == {};
    MapsChange(s.views, b, s'.views[b]);
    SharersNew(s.counts, Maps(s.views), b);
    forall c | c in s'.views ensures Alone(Maps(s'.views), c, s'.views[c]) {
      if c != b { KeepAlone(Maps(s.views), Maps(s'.views), c, s.views[c]); }
    }
  }

  lemma NewInv(s: Sys, s': Sys, pool: set<Frame>, b: Id, root: Frame, tables: set<Frame>, stack: set<Frame>)
    requires Inv(s, pool) && NewSpace(s, s', b, root, tables, stack) && s'.owner.Keys <= pool
    ensures Inv(s', pool)
  {
    NewOwners(s, s', pool, b, root, tables, stack);
    NewSharing(s, s', b, root, tables, stack);
  }

  lemma NewOwners(s: Sys, s': Sys, pool: set<Frame>, b: Id, root: Frame, tables: set<Frame>, stack: set<Frame>)
    requires NewSpace(s, s', b, root, tables, stack) && s'.owner.Keys <= pool
    requires RootsOk(s) && UsersOk(s) && OwnersOk(s, pool)
    ensures RootsOk(s') && UsersOk(s') && OwnersOk(s', pool)
  {}

  /** One byte of a writable page changes. */
  ghost predicate WriteByte(s: Sys, s': Sys, a: Id, v: nat, off: nat, byte: Byte) {
    && a in s.views && v in s.views[a].pages && s.views[a].pages[v].flags.w && off < 4096
    && var x := s.views[a].pages[v].ppn;
    x in s.data && s' == s.(data := s.data[x := s.data[x][off := byte]])
  }

  lemma WriteInv(s: Sys, s': Sys, pool: set<Frame>, a: Id, v: nat, off: nat, byte: Byte)
    requires Inv(s, pool) && WriteByte(s, s', a, v, off, byte)
    ensures Inv(s', pool)
  {}

  /** A page with some of its bytes replaced. */
  function Overlay(page: Bytes, off: nat, bytes: seq<Byte>): Bytes
    requires off + |bytes| <= 4096
  {
    page[..off] + bytes + page[off + |bytes|..]
  }

  /** The kernel copies bytes to a page that no other space maps, whatever the page permits its program. */
  ghost predicate FillBytes(s: Sys, s': Sys, a: Id, v: nat, off: nat, bytes: seq<Byte>) {
    && a in s.views && v in s.views[a].pages && off + |bytes| <= 4096
    && var x := s.views[a].pages[v].ppn;
    && x in s.data && Sharers(Maps(s.views), x) == {a}
    && s' == s.(data := s.data[x := Overlay(s.data[x], off, bytes)])
  }

  lemma FillInv(s: Sys, s': Sys, pool: set<Frame>, a: Id, v: nat, off: nat, bytes: seq<Byte>)
    requires Inv(s, pool) && FillBytes(s, s', a, v, off, bytes)
    ensures Inv(s', pool)
  {}

  /** Regions are added and the break moves; no page is touched. */
  ghost predicate SetRegions(s: Sys, s': Sys, a: Id, region: map<nat, Flags>, startBrk: nat, brk: nat) {
    && a in s.views && s.views[a].region.Keys <= region.Keys
    && (forall v | v in s.views[a].region :: region[v] == s.views[a].region[v])
    && s' == s.(views := s.views[a := s.views[a].(region := region, startBrk := startBrk, brk := brk)])
  }

  /** The loader adds flags to the leaf of a page; the region keeps its own. */
  ghost predicate AddFlags(s: Sys, s': Sys, a: Id, v: nat, flags: Flags) {
    && a in s.views && v in s.views[a].pages
    && s' == s.(views := s.views[a := s.views[a].(pages := s.views[a].pages[v := s.views[a].pages[v].SetFlags(flags.Or(VAD))])],
             data := s'.data)
    && KeepData(s, s')
  }

  lemma SamePpns(w: View, w': View)
    requires w'.pages.Keys == w.pages.Keys
    requires forall v | v in w.pages :: w'.pages[v].ppn == w.pages[v].ppn
    ensures Mapped(w') == Mapped(w)
  {
    forall x | x in Mapped(w) ensures x in Mapped(w') {
      var v :| v in w.pages && w.pages[v].ppn == x;
      assert w'.pages[v].ppn == x;
    }
  }

  lemma OneViewAlone(s: Sys, s': Sys, a: Id, w: View)
    requires a in s.views && s'.views == s.views[a := w] && Mapped(w) == Mapped(s.views[a])
    requires WritableAlone(s) && Alone(Maps(s.views), a, w)
    ensures Maps(s'.views) == Maps(s.views) && WritableAlone(s')
  {
    assert Maps(s'.views) == Maps(s.views);
    forall c | c in s'.views ensures Alone(Maps(s'.views), c, s'.views[c]) {
      assert c != a ==> Alone(Maps(s.views), c, s.views[c]);
    }
  }

  /** Replacing one space by one that maps the same frames. */
  lemma OneView(s: Sys, s': Sys, pool: set<Frame>, a: Id, w: View)
    requires Inv(s, pool) && a in s.views && s' == s.(views := s.views[a := w], data := s'.data) && KeepData(s, s')
    requires ViewOk(w) && w.root == s.views[a].root && Mapped(w) == Mapped(s.views[a]) && Alone(Maps(s.views), a, w)
    ensures Inv(s', pool)
  {
    OneViewAlone(s, s', a, w);
  }

  lemma SetRegionsInv(s: Sys, s': Sys, pool: set<Frame>, a: Id, region: map<nat, Flags>, startBrk: nat, brk: nat)
    requires Inv(s, pool) && SetRegions(s, s', a, region, startBrk, brk)
    ensures Inv(s', pool)
  {
    SamePpns(s.views[a], s'.views[a]);
    assert Alone(Maps(s.views), a, s'.views[a]);
    OneView(s, s', pool, a, s'.views[a]);
  }

  lemma FlagsView(mp: map<Id, set<Frame>>, a: Id, w: View, v: nat, flags: Flags)
    requires ViewOk(w) && v in w.pages && Alone(mp, a, w)
    requires flags.w ==> Sharers(mp, w.pages[v].ppn) == {a}
    ensures var w' := w.(pages := w.pages[v := w.pages[v].SetFlags(flags.Or(VAD))]);
            ViewOk(w') && Mapped(w') == Mapped(w) && Alone(mp, a, w')
  {
    SamePpns(w, w.(pages := w.pages[v := w.pages[v].SetFlags(flags.Or(VAD))]));
  }

  lemma AddFlagsShared(s: Sys, s': Sys, a: Id, v: nat, flags: Flags)
    requires AddFlags(s, s', a, v, flags) && flags.w && Sharers(Maps(s.views), s.views[a].pages[v].ppn) != {a}
    ensures !WritableAlone(s')
  {
    var w, w' := s.views[a], s'.views[a];
    SamePpns(w, w');
    MapsChange(s.views, a, w');
    assert Maps(s'.views) == Maps(s.views);
    assert w'.pages[v].flags.w && w'.pages[v].ppn == w.pages[v].ppn;
    assert !Alone(Maps(s'.views), a, w');
  }

  /** Adding flags keeps the invariant if and only if it does not make a shared page writable. */
  lemma AddFlagsInv(s: Sys, s': Sys, pool: set<Frame>, a: Id, v: nat, flags: Flags)
    requires Inv(s, pool) && AddFlags(s, s', a, v, flags)
    ensures Inv(s', pool) <==> (flags.w ==> Sharers(Maps(s.views), s.views[a].pages[v].ppn) == {a})
  {
    hide ViewOk, Alone, CountsExact, UsersOk, RootsOk, OwnersOk, Sharers, Maps;
    assert ViewOk(s.views[a]) && WritableAlone(s);
    if flags.w ==> Sharers(Maps(s.views), s.views[a].pages[v].ppn) == {a} {
      FlagsView(Maps(s.views), a, s.views[a], v, flags);
      OneView(s, s', pool, a, s'.views[a]);
    } else {
      AddFlagsShared(s, s', a, v, flags);
    }
  }
}
