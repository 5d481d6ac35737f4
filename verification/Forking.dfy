/**
 Duplicating a page-table tree for a forked process.  The recursive walk over the 512 entries of
 each table is followed entry by entry: `ForkLoop` says what has been done when entries below `i`
 have been visited, and `ForkEffect` what the whole duplication has done.
 */
module Forking {
  import opened Basics
  import opened Sv39
  import opened FrameAllocator
  import opened PageTables

  /** A leaf after the fork: a user leaf has lost its write permission. */
  function SharedPte(p: Pte): Pte {
    if p.UserLeaf() then p.UnsetFlags(W) else p
  }

  function SharedHit(h: Option<Hit>): Option<Hit> {
    if h.Some? then Some(h.value.(pte := SharedPte(h.value.pte))) else None
  }

  /** 16-bit reference counts after one more reference to each frame of `s`. */
  function Bumped(c: map<Frame, U16>, s: set<Frame>): map<Frame, U16> {
    map x | x in c.Keys + s :: if x !in s then c[x] else if x in c then (c[x] as int + 1) % 0x1_0000 else 1
  }

  lemma BumpedTwice(c: map<Frame, U16>, s: set<Frame>, t: set<Frame>)
    requires s !! t
    ensures Bumped(Bumped(c, s), t) == Bumped(c, s + t)
    ensures Bumped(c, {}) == c
  {}

  /** Entry `p` of `m0` has been duplicated: `pf` replaces it in the parent, `pg` is the copy. */
  ghost predicate EntryForked(m0: Mem, p: Pte, m: Mem, pf: Pte, pg: Pte, l: nat)
    requires l <= 2
  {
    && EntryTree(m, pf, l) && EntryTree(m, pg, l)
    && EntryNodes(m, pf, l) == EntryNodes(m0, p, l)
    && EntryUsers(m, pf, l) == EntryUsers(m0, p, l) && EntryUsers(m, pg, l) == EntryUsers(m0, p, l)
    && (forall v :: WalkEntry(m, pf, l, v) == SharedHit(WalkEntry(m0, p, l, v)))
    && (forall v :: WalkEntry(m, pg, l, v) == SharedHit(WalkEntry(m0, p, l, v)))
  }

  /** User frames mapped through the first `i` entries of `f`. */
  ghost function UsersBelow(m: Mem, f: Frame, l: nat, i: nat): set<Frame>
    requires IsTable(m, f) && i <= 512
  {
    set k, x | 0 <= k < i && x in EntryUsers(m, m[f].ptes[k], l) :: x
  }

  /** What duplicating the level-`l` table `f` into the new tree `g` has done to memory and counts. */
  ghost predicate ForkEffect(m0: Mem, used0: set<Frame>, c0: map<Frame, U16>,
                             m: Mem, used: set<Frame>, c: map<Frame, U16>, f: Frame, l: nat, g: Frame)
    requires l <= 2
  {
    && used0 <= used
    && Tree(m, f, l) && Tree(m, g, l)
    && Nodes(m, f, l) == Nodes(m0, f, l) && Nodes(m, g, l) == used - used0
    && Users(m, f, l) == Users(m0, f, l) && Users(m, g, l) == Users(m0, f, l)
    && (forall v :: Walk(m, f, l, v) == SharedHit(Walk(m0, f, l, v)))
    && (forall v :: Walk(m, g, l, v) == SharedHit(Walk(m0, f, l, v)))
    && Agree(m0, m, used0 - Nodes(m0, f, l))
    && c == Bumped(c0, Users(m0, f, l))
  }

  ghost predicate LoopFrame(m0: Mem, used0: set<Frame>, m: Mem, used: set<Frame>, f: Frame, l: nat, g: Frame) {
    && Tree(m0, f, l) && Nodes(m0, f, l) <= used0
    && IsTable(m, f) && IsTable(m, g)
    && g !in used0 && g in used && used0 <= used
    && Agree(m0, m, used0 - Nodes(m0, f, l))
  }

  /** Entries below `i` are duplicated into fresh tables that share nothing. */
  ghost predicate LoopDone(m0: Mem, used0: set<Frame>, m: Mem, used: set<Frame>, f: Frame, l: nat, g: Frame, i: nat)
    requires l <= 2 && i <= 512 && LoopFrame(m0, used0, m, used, f, l, g)
  {
    && (forall k | 0 <= k < i :: EntryForked(m0, m0[f].ptes[k], m, m[f].ptes[k], m[g].ptes[k], l))
    && (forall k | 0 <= k < i :: EntryNodes(m, m[g].ptes[k], l) <= used - used0 - {g})
    && (forall j, k | 0 <= j < k < i :: EntryNodes(m, m[g].ptes[j], l) !! EntryNodes(m, m[g].ptes[k], l))
    && (forall x | x in used - used0 - {g} :: exists k :: 0 <= k < i && x in EntryNodes(m, m[g].ptes[k], l))
  }

  /** Entries from `i` on are as they were, and so are the tables below them. */
  ghost predicate LoopTodo(m0: Mem, m: Mem, f: Frame, l: nat, g: Frame, i: nat)
    requires i <= 512 && IsTable(m0, f) && IsTable(m, f) && IsTable(m, g)
  {
    forall k | i <= k < 512 ::
      && m[f].ptes[k] == m0[f].ptes[k] && m[g].ptes[k] == m0[f].ptes[k]
      && Agree(m0, m, EntryNodes(m0, m0[f].ptes[k], l))
  }

  ghost predicate ForkLoop(m0: Mem, used0: set<Frame>, c0: map<Frame, U16>,
                           m: Mem, used: set<Frame>, c: map<Frame, U16>, f: Frame, l: nat, g: Frame, i: nat)
    requires l <= 2 && i <= 512
  {
    && LoopFrame(m0, used0, m, used, f, l, g)
    && LoopDone(m0, used0, m, used, f, l, g, i)
    && LoopTodo(m0, m, f, l, g, i)
    && c == Bumped(c0, UsersBelow(m0, f, l, i))
  }

  lemma ForkStart(m0: Mem, used0: set<Frame>, c0: map<Frame, U16>, f: Frame, l: nat, g: Frame)
    requires l <= 2 && Tree(m0, f, l) && Nodes(m0, f, l) <= used0 && g !in used0
    ensures ForkLoop(m0, used0, c0, m0[g := m0[f]], used0 + {g}, c0, f, l, g, 0)
  {}

  lemma DoneParent(m0: Mem, used0: set<Frame>, m: Mem, used: set<Frame>, f: Frame, l: nat, g: Frame)
    requires l <= 2 && LoopFrame(m0, used0, m, used, f, l, g) && LoopDone(m0, used0, m, used, f, l, g, 512)
    ensures Tree(m, f, l)
    ensures Nodes(m, f, l) == Nodes(m0, f, l) && Users(m, f, l) == Users(m0, f, l)
    ensures forall v :: Walk(m, f, l, v) == SharedHit(Walk(m0, f, l, v))
  {}

  lemma DoneCopy(m0: Mem, used0: set<Frame>, m: Mem, used: set<Frame>, f: Frame, l: nat, g: Frame)
    requires l <= 2 && LoopFrame(m0, used0, m, used, f, l, g) && LoopDone(m0, used0, m, used, f, l, g, 512)
    ensures Tree(m, g, l)
    ensures Nodes(m, g, l) == used - used0 && Users(m, g, l) == Users(m0, f, l)
    ensures forall v :: Walk(m, g, l, v) == SharedHit(Walk(m0, f, l, v))
  {
    forall j, k | 0 <= j < k < 512
      ensures Apart(m, m[g].ptes[j], m[g].ptes[k], l)
    {
      assert Apart(m0, m0[f].ptes[j], m0[f].ptes[k], l);
      assert EntryForked(m0, m0[f].ptes[j], m, m[f].ptes[j], m[g].ptes[j], l);
    }
    DoneNodes(m0, used0, m, used, f, l, g);
  }

  lemma DoneNodes(m0: Mem, used0: set<Frame>, m: Mem, used: set<Frame>, f: Frame, l: nat, g: Frame)
    requires l <= 2 && LoopFrame(m0, used0, m, used, f, l, g) && LoopDone(m0, used0, m, used, f, l, g, 512)
    ensures Nodes(m, g, l) == used - used0
  {
    hide Tree, EntryForked;
    forall x
      ensures x in Nodes(m, g, l) <==> x in used - used0
    {
      if x in used - used0 - {g} {
        var k :| 0 <= k < 512 && x in EntryNodes(m, m[g].ptes[k], l);
      }
    }
  }

  lemma ForkDone(m0: Mem, used0: set<Frame>, c0: map<Frame, U16>,
                 m: Mem, used: set<Frame>, c: map<Frame, U16>, f: Frame, l: nat, g: Frame)
    requires l <= 2 && ForkLoop(m0, used0, c0, m, used, c, f, l, g, 512)
    ensures ForkEffect(m0, used0, c0, m, used, c, f, l, g)
  {
    DoneParent(m0, used0, m, used, f, l, g);
    DoneCopy(m0, used0, m, used, f, l, g);
    assert UsersBelow(m0, f, l, 512) == Users(m0, f, l);
  }

  // ---- one iteration ----

  /** Tables of the entries already visited survive a change of memory elsewhere. */
  lemma KeepForked(m0: Mem, p: Pte, m: Mem, m': Mem, pf: Pte, pg: Pte, l: nat)
    requires l <= 2 && EntryForked(m0, p, m, pf, pg, l)
    requires Agree(m, m', EntryNodes(m, pf, l)) && Agree(m, m', EntryNodes(m, pg, l))
    ensures EntryForked(m0, p, m', pf, pg, l)
    ensures EntryNodes(m', pg, l) == EntryNodes(m, pg, l)
  {
    EntryFrame(m, m', pf, l);
    EntryFrame(m, m', pg, l);
  }

  /** `m'` is `m` with entry `i` of the parent and of the copy rewritten, and other tables kept. */
  ghost predicate EntryStep(m0: Mem, used0: set<Frame>, m: Mem, used: set<Frame>, m': Mem, used': set<Frame>,
                            f: Frame, l: nat, g: Frame, i: nat, pf: Pte, pg: Pte)
    requires l <= 2 && i < 512 && LoopFrame(m0, used0, m, used, f, l, g)
  {
    && used <= used'
    && IsTable(m', f) && m'[f].ptes == m[f].ptes[i := pf]
    && IsTable(m', g) && m'[g].ptes == m[g].ptes[i := pg]
    && Agree(m, m', used - {f, g} - EntryNodes(m0, m0[f].ptes[i], l))
    && EntryForked(m0, m0[f].ptes[i], m', pf, pg, l)
    && EntryNodes(m', pg, l) == used' - used
  }

  lemma StepDone(m0: Mem, used0: set<Frame>, m: Mem, used: set<Frame>, m': Mem, used': set<Frame>,
                 f: Frame, l: nat, g: Frame, i: nat, pf: Pte, pg: Pte)
    requires l <= 2 && i < 512 && LoopFrame(m0, used0, m, used, f, l, g)
    requires LoopDone(m0, used0, m, used, f, l, g, i)
    requires EntryStep(m0, used0, m, used, m', used', f, l, g, i, pf, pg)
    ensures LoopFrame(m0, used0, m', used', f, l, g)
    ensures LoopDone(m0, used0, m', used', f, l, g, i + 1)
  {
    EntryWithin(m0, f, l, i);
    assert f in Nodes(m0, f, l);
    forall k | 0 <= k < i
      ensures EntryForked(m0, m0[f].ptes[k], m', m'[f].ptes[k], m'[g].ptes[k], l)
      ensures EntryNodes(m', m'[g].ptes[k], l) == EntryNodes(m, m[g].ptes[k], l)
    {
      EntryWithin(m0, f, l, k);
      assert Apart(m0, m0[f].ptes[k], m0[f].ptes[i], l);
      assert f !in EntryNodes(m0, m0[f].ptes[k], l);
      KeepForked(m0, m0[f].ptes[k], m, m', m[f].ptes[k], m[g].ptes[k], l);
    }
    StepCover(m0, used0, m, used, m', used', f, l, g, i);
  }

  lemma StepCover(m0: Mem, used0: set<Frame>, m: Mem, used: set<Frame>, m': Mem, used': set<Frame>,
                  f: Frame, l: nat, g: Frame, i: nat)
    requires i < 512 && IsTable(m, g) && IsTable(m', g)
    requires forall x | x in used - used0 - {g} :: exists k :: 0 <= k < i && x in EntryNodes(m, m[g].ptes[k], l)
    requires forall k | 0 <= k < i :: EntryNodes(m', m'[g].ptes[k], l) == EntryNodes(m, m[g].ptes[k], l)
    requires EntryNodes(m', m'[g].ptes[i], l) == used' - used
    ensures forall x | x in used' - used0 - {g} :: exists k :: 0 <= k < i + 1 && x in EntryNodes(m', m'[g].ptes[k], l)
  {
    forall x | x in used' - used0 - {g}
      ensures exists k :: 0 <= k < i + 1 && x in EntryNodes(m', m'[g].ptes[k], l)
    {
      if x in used {
        assert x in used - used0 - {g};
        var k :| 0 <= k < i && x in EntryNodes(m, m[g].ptes[k], l);
        assert x in EntryNodes(m', m'[g].ptes[k], l);
      } else {
        assert x in EntryNodes(m', m'[g].ptes[i], l);
      }
    }
  }

  lemma StepTodo(m0: Mem, used0: set<Frame>, m: Mem, used: set<Frame>, m': Mem, used': set<Frame>,
                 f: Frame, l: nat, g: Frame, i: nat, pf: Pte, pg: Pte)
    requires l <= 2 && i < 512 && LoopFrame(m0, used0, m, used, f, l, g) && LoopTodo(m0, m, f, l, g, i)
    requires EntryStep(m0, used0, m, used, m', used', f, l, g, i, pf, pg)
    ensures LoopTodo(m0, m', f, l, g, i + 1)
  {}

  lemma StepUsers(m: Mem, f: Frame, l: nat, i: nat)
    requires Tree(m, f, l) && i < 512
    ensures UsersBelow(m, f, l, i + 1) == UsersBelow(m, f, l, i) + EntryUsers(m, m[f].ptes[i], l)
    ensures UsersBelow(m, f, l, i) !! EntryUsers(m, m[f].ptes[i], l)
  {}

  lemma ForkStep(m0: Mem, used0: set<Frame>, c0: map<Frame, U16>, m: Mem, used: set<Frame>, c: map<Frame, U16>,
                 m': Mem, used': set<Frame>, f: Frame, l: nat, g: Frame, i: nat, pf: Pte, pg: Pte)
    requires l <= 2 && i < 512 && ForkLoop(m0, used0, c0, m, used, c, f, l, g, i)
    requires EntryStep(m0, used0, m, used, m', used', f, l, g, i, pf, pg)
    ensures ForkLoop(m0, used0, c0, m', used', Bumped(c, EntryUsers(m0, m0[f].ptes[i], l)), f, l, g, i + 1)
  {
    StepDone(m0, used0, m, used, m', used', f, l, g, i, pf, pg);
    StepTodo(m0, used0, m, used, m', used', f, l, g, i, pf, pg);
    StepUsers(m0, f, l, i);
    BumpedTwice(c0, UsersBelow(m0, f, l, i), EntryUsers(m0, m0[f].ptes[i], l));
  }

  /** An unused entry or a leaf: the two tables keep it, a user leaf without write permission. */
  lemma LeafStep(m0: Mem, used0: set<Frame>, m: Mem, used: set<Frame>, f: Frame, l: nat, g: Frame, i: nat)
    requires l <= 2 && i < 512 && LoopFrame(m0, used0, m, used, f, l, g) && LoopTodo(m0, m, f, l, g, i)
    requires !m0[f].ptes[i].Pointer()
    ensures
      var q := SharedPte(m0[f].ptes[i]);
      var m' := m[f := Table(m[f].ptes[i := q])][g := Table(m[g].ptes[i := q])];
      EntryStep(m0, used0, m, used, m', used, f, l, g, i, q, q)
    ensures EntryUsers(m0, m0[f].ptes[i], l) == LeafUsers(m0[f].ptes[i])
  {
    assert EntryTree(m0, m0[f].ptes[i], l);
    assert f in Nodes(m0, f, l);
  }

  lemma PointerReady(m0: Mem, used0: set<Frame>, m: Mem, used: set<Frame>, f: Frame, l: nat, g: Frame, i: nat)
    requires l <= 2 && i < 512 && LoopFrame(m0, used0, m, used, f, l, g) && LoopTodo(m0, m, f, l, g, i)
    requires m0[f].ptes[i].Pointer()
    ensures l > 0 && m[f].ptes[i] == m0[f].ptes[i]
    ensures var c := m0[f].ptes[i].ppn;
            && Tree(m, c, l - 1) && Nodes(m, c, l - 1) == EntryNodes(m0, m0[f].ptes[i], l)
            && Users(m, c, l - 1) == EntryUsers(m0, m0[f].ptes[i], l)
            && Nodes(m, c, l - 1) <= used
            && (forall v :: Walk(m, c, l - 1, v) == WalkEntry(m0, m0[f].ptes[i], l, v))
  {
    assert EntryTree(m0, m0[f].ptes[i], l);
    EntryWithin(m0, f, l, i);
    TreeFrame(m0, m, m0[f].ptes[i].ppn, l - 1);
  }

  lemma PointerForked(m0: Mem, p: Pte, m: Mem, used: set<Frame>, c: map<Frame, U16>,
                      m1: Mem, used1: set<Frame>, c1: map<Frame, U16>, m': Mem, g: Frame, l: nat, h: Frame)
    requires 1 <= l <= 2 && p.Pointer() && p.flags == V
    requires ForkEffect(m, used, c, m1, used1, c1, p.ppn, l - 1, h)
    requires Nodes(m, p.ppn, l - 1) == EntryNodes(m0, p, l) && Users(m, p.ppn, l - 1) == EntryUsers(m0, p, l)
    requires forall v :: Walk(m, p.ppn, l - 1, v) == WalkEntry(m0, p, l, v)
    requires Agree(m1, m', EntryNodes(m0, p, l)) && Agree(m1, m', used1 - used)
    ensures EntryForked(m0, p, m', p, p.(ppn := h), l)
    ensures EntryNodes(m', p.(ppn := h), l) == used1 - used
  {
    hide Tree, Nodes, Users, Walk;
    TreeFrame(m1, m', p.ppn, l - 1);
    TreeFrame(m1, m', h, l - 1);
  }

  /** A pointer: the copy names the duplicate of the table below. */
  lemma PointerStep(m0: Mem, used0: set<Frame>, m: Mem, used: set<Frame>, c: map<Frame, U16>,
                    m1: Mem, used1: set<Frame>, c1: map<Frame, U16>, f: Frame, l: nat, g: Frame, i: nat, h: Frame)
    requires 1 <= l <= 2 && i < 512 && LoopFrame(m0, used0, m, used, f, l, g) && LoopTodo(m0, m, f, l, g, i)
    requires var p := m0[f].ptes[i]; p.Pointer() && ForkEffect(m, used, c, m1, used1, c1, p.ppn, l - 1, h)
    ensures
      var p := m0[f].ptes[i];
      && IsTable(m1, g) && c1 == Bumped(c, EntryUsers(m0, p, l))
      && EntryStep(m0, used0, m, used, m1[g := Table(m1[g].ptes[i := p.(ppn := h)])], used1, f, l, g, i, p, p.(ppn := h))
  {
    var p := m0[f].ptes[i];
    PointerReady(m0, used0, m, used, f, l, g, i);
    EntryWithin(m0, f, l, i);
    assert f in Nodes(m0, f, l) && f !in EntryNodes(m0, p, l);
    assert m1[f] == m[f] && m1[g] == m[g];
    assert EntryTree(m0, p, l);
    var m' := m1[g := Table(m1[g].ptes[i := p.(ppn := h)])];
    PointerForked(m0, p, m, used, c, m1, used1, c1, m', g, l, h);
    assert m'[f].ptes == m[f].ptes[i := p];
  }

  /** Memory after a leaf or unused entry `i` has been visited. */
  function LeafForked(m: Mem, f: Frame, g: Frame, i: nat): Mem
    requires IsTable(m, f) && IsTable(m, g) && i < 512
  {
    var p := m[f].ptes[i];
    if p.UserLeaf() && p.flags.w then
      m[f := Table(m[f].ptes[i := p.UnsetFlags(W)])][g := Table(m[g].ptes[i := p.UnsetFlags(W)])]
    else m
  }

  /** Memory after entry `i` of the copy has been pointed at the duplicate `h`. */
  function TableForked(m: Mem, g: Frame, i: nat, h: Frame): Mem
    requires IsTable(m, g) && i < 512
  {
    m[g := Table(m[g].ptes[i := m[g].ptes[i].(ppn := h)])]
  }

  lemma LeafAdvance(m0: Mem, used0: set<Frame>, c0: map<Frame, U16>, m: Mem, used: set<Frame>, c: map<Frame, U16>,
                    f: Frame, l: nat, g: Frame, i: nat)
    requires l <= 2 && i < 512 && ForkLoop(m0, used0, c0, m, used, c, f, l, g, i) && !m[f].ptes[i].Pointer()
    ensures m[g].ptes[i] == m[f].ptes[i] && f != g
    ensures ForkLoop(m0, used0, c0, LeafForked(m, f, g, i), used, Bumped(c, LeafUsers(m[f].ptes[i])), f, l, g, i + 1)
  {
    var p := m[f].ptes[i];
    var q := SharedPte(p);
    var m' := m[f := Table(m[f].ptes[i := q])][g := Table(m[g].ptes[i := q])];
    assert f in Nodes(m0, f, l);
    LeafStep(m0, used0, m, used, f, l, g, i);
    ForkStep(m0, used0, c0, m, used, c, m', used, f, l, g, i, q, q);
    if !(p.UserLeaf() && p.flags.w) {
      assert q == p;
      assert m[f].ptes[i := p] == m[f].ptes && m[g].ptes[i := p] == m[g].ptes;
      assert m' == m;
    }
  }

  lemma PointerAdvance(m0: Mem, used0: set<Frame>, c0: map<Frame, U16>, m: Mem, used: set<Frame>, c: map<Frame, U16>,
                       m1: Mem, used1: set<Frame>, c1: map<Frame, U16>, f: Frame, l: nat, g: Frame, i: nat, h: Frame)
    requires l <= 2 && i < 512 && ForkLoop(m0, used0, c0, m, used, c, f, l, g, i)
    requires var p := m[f].ptes[i];
             p.Pointer() && l > 0 && ForkEffect(m, used, c, m1, used1, c1, p.ppn, l - 1, h)
    ensures IsTable(m1, g) && m1[g].ptes[i] == m[f].ptes[i]
    ensures ForkLoop(m0, used0, c0, TableForked(m1, g, i, h), used1, c1, f, l, g, i + 1)
  {
    var p := m[f].ptes[i];
    PointerStep(m0, used0, m, used, c, m1, used1, c1, f, l, g, i, h);
    PointerReady(m0, used0, m, used, f, l, g, i);
    assert g in used && g !in Nodes(m, p.ppn, l - 1) by { EntryWithin(m0, f, l, i); }
    assert m1[g] == m[g];
    var m' := m1[g := Table(m1[g].ptes[i := p.(ppn := h)])];
    ForkStep(m0, used0, c0, m, used, c, m', used1, f, l, g, i, p, p.(ppn := h));
  }
}
