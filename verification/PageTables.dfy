/**
 Page tables in physical memory: the Sv39 walk, the frames a table tree is built from, and the
 effect of writing one entry.  A memory maps each frame to its content, which is either a table
 of 512 entries or 4096 bytes of data.
 */
module PageTables {
  import opened Basics
  import opened Sv39
  import opened FrameAllocator

  type Byte = bv8
  type Entries = s: seq<Pte> | |s| == 512 witness seq(512, _ => EMPTY)
  type Bytes = s: seq<Byte> | |s| == 4096 witness seq(4096, _ => 0)

  datatype Content = Table(ptes: Entries) | Data(bytes: Bytes)

  type Mem = map<Frame, Content>

  /** `PageTable::empty()`: a table whose entries are all zero. */
  function BlankTable(): (c: Content)
    ensures c.Table? && forall k | 0 <= k < 512 :: c.ptes[k] == EMPTY
  {
    Table(seq(512, _ => EMPTY))
  }

  /** What `zero_frame` writes. */
  function ZeroPage(): (c: Content)
    ensures c.Data? && forall i | 0 <= i < 4096 :: c.bytes[i] == 0
  {
    Data(seq(4096, _ => 0))
  }

  /** What a walk finds: the leaf entry and the level (0, 1, 2 for 4K, 2M, 1G) it was found at. */
  datatype Hit = Hit(pte: Pte, level: nat)

  predicate IsTable(m: Mem, f: Frame) {
    f in m && m[f].Table?
  }

  /** The walk of section 4.3.2 from the level-`l` table in frame `f` for page `v`. */
  function Walk(m: Mem, f: Frame, l: nat, v: nat): Option<Hit>
    requires l <= 2
    decreases l, 1
  {
    if IsTable(m, f) then WalkEntry(m, m[f].ptes[Index(v, l)], l, v) else None
  }

  function WalkEntry(m: Mem, p: Pte, l: nat, v: nat): Option<Hit>
    requires l <= 2
    decreases l, 0
  {
    if p.Leaf() then Some(Hit(p, l))
    else if p.Pointer() && l > 0 then Walk(m, p.ppn, l - 1, v)
    else None
  }

  /** The table frames below and including `f`. */
  ghost function Nodes(m: Mem, f: Frame, l: nat): set<Frame>
    decreases l, 1
  {
    if IsTable(m, f) then
      {f} + set k, x | 0 <= k < 512 && x in EntryNodes(m, m[f].ptes[k], l) :: x
    else {f}
  }

  ghost function EntryNodes(m: Mem, p: Pte, l: nat): set<Frame>
    decreases l, 0
  {
    if p.Pointer() && l > 0 then Nodes(m, p.ppn, l - 1) else {}
  }

  /** The frames named by user leaf entries below `f`. */
  ghost function Users(m: Mem, f: Frame, l: nat): set<Frame>
    decreases l, 1
  {
    if IsTable(m, f) then
      set k, x | 0 <= k < 512 && x in EntryUsers(m, m[f].ptes[k], l) :: x
    else {}
  }

  ghost function EntryUsers(m: Mem, p: Pte, l: nat): set<Frame>
    decreases l, 0
  {
    if p.UserLeaf() then {p.ppn}
    else if p.Pointer() && l > 0 then Users(m, p.ppn, l - 1)
    else {}
  }

  /**
   The tables below `f` form a tree: no table frame is reached twice, no user frame is mapped
   twice, level-0 tables have no pointers, unused entries are zero, and a user leaf is readable
   or executable, so that it stays a leaf when its write permission is taken away.
   */
  ghost predicate Tree(m: Mem, f: Frame, l: nat)
    decreases l, 1
  {
    && IsTable(m, f)
    && (forall k | 0 <= k < 512 :: EntryTree(m, m[f].ptes[k], l) && f !in EntryNodes(m, m[f].ptes[k], l))
    && (forall j, k | 0 <= j < k < 512 :: Apart(m, m[f].ptes[j], m[f].ptes[k], l))
  }

  ghost predicate EntryTree(m: Mem, p: Pte, l: nat)
    decreases l, 0
  {
    && (!p.Valid() ==> p == EMPTY)
    && (p.UserLeaf() ==> p.flags.r || p.flags.x)
    && (p.Pointer() ==> l > 0 && p.flags == V && Tree(m, p.ppn, l - 1))
  }

  ghost predicate Apart(m: Mem, p: Pte, q: Pte, l: nat) {
    EntryNodes(m, p, l) !! EntryNodes(m, q, l) && EntryUsers(m, p, l) !! EntryUsers(m, q, l)
  }

  /** `m'` holds what `m` holds in every frame of `s`. */
  ghost predicate Agree(m: Mem, m': Mem, s: set<Frame>) {
    forall x | x in s :: (x in m <==> x in m') && (x in m ==> m'[x] == m[x])
  }

  // ---- framing: a tree only depends on its own table frames ----

  ghost predicate SameTree(m: Mem, m': Mem, f: Frame, l: nat)
    requires l <= 2
  {
    && (Tree(m, f, l) ==> Tree(m', f, l))
    && Nodes(m', f, l) == Nodes(m, f, l)
    && Users(m', f, l) == Users(m, f, l)
    && (forall v :: Walk(m', f, l, v) == Walk(m, f, l, v))
  }

  ghost predicate SameEntry(m: Mem, m': Mem, p: Pte, l: nat)
    requires l <= 2
  {
    && (EntryTree(m, p, l) ==> EntryTree(m', p, l))
    && EntryNodes(m', p, l) == EntryNodes(m, p, l)
    && EntryUsers(m', p, l) == EntryUsers(m, p, l)
    && (forall v :: WalkEntry(m', p, l, v) == WalkEntry(m, p, l, v))
  }

  lemma {:induction false} TreeFrame(m: Mem, m': Mem, f: Frame, l: nat)
    requires l <= 2 && Agree(m, m', Nodes(m, f, l))
    ensures SameTree(m, m', f, l)
    decreases l, 1
  {
    assert f in Nodes(m, f, l);
    if IsTable(m, f) {
      forall k | 0 <= k < 512
        ensures SameEntry(m, m', m[f].ptes[k], l)
      {
        assert EntryNodes(m, m[f].ptes[k], l) <= Nodes(m, f, l);
        EntryFrame(m, m', m[f].ptes[k], l);
      }
    }
  }

  lemma {:induction false} EntryFrame(m: Mem, m': Mem, p: Pte, l: nat)
    requires l <= 2 && Agree(m, m', EntryNodes(m, p, l))
    ensures SameEntry(m, m', p, l)
    decreases l, 0
  {
    if p.Pointer() && l > 0 {
      TreeFrame(m, m', p.ppn, l - 1);
    }
  }

  // ---- writing one entry ----

  lemma EntryWithin(m: Mem, f: Frame, l: nat, k: nat)
    requires IsTable(m, f) && k < 512
    ensures EntryNodes(m, m[f].ptes[k], l) <= Nodes(m, f, l)
    ensures EntryUsers(m, m[f].ptes[k], l) <= Users(m, f, l)
  {}

  /** The entries other than `k`, and all below them, are the same in `m'` and apart from entry `k`. */
  ghost predicate OthersKept(m: Mem, m': Mem, f: Frame, l: nat, k: nat)
    requires l <= 2 && k < 512 && IsTable(m, f)
  {
    forall j | 0 <= j < 512 && j != k ::
      && SameEntry(m, m', m[f].ptes[j], l)
      && EntryNodes(m, m[f].ptes[j], l) <= Nodes(m, f, l) - EntryNodes(m, m[f].ptes[k], l)
      && EntryUsers(m, m[f].ptes[j], l) <= Users(m, f, l) - EntryUsers(m, m[f].ptes[k], l)
  }

  lemma KeepOthers(m: Mem, m': Mem, f: Frame, l: nat, k: nat)
    requires l <= 2 && k < 512 && Tree(m, f, l)
    requires Agree(m, m', Nodes(m, f, l) - {f} - EntryNodes(m, m[f].ptes[k], l))
    ensures OthersKept(m, m', f, l, k)
  {
    var es := m[f].ptes;
    forall j | 0 <= j < 512 && j != k
      ensures SameEntry(m, m', es[j], l)
      ensures EntryNodes(m, es[j], l) <= Nodes(m, f, l) - EntryNodes(m, es[k], l)
      ensures EntryUsers(m, es[j], l) <= Users(m, f, l) - EntryUsers(m, es[k], l)
    {
      EntryWithin(m, f, l, j);
      assert f !in EntryNodes(m, es[j], l);
      assert if j < k then Apart(m, es[j], es[k], l) else Apart(m, es[k], es[j], l);
      EntryFrame(m, m', es[j], l);
    }
  }

  lemma ReplaceSets(m: Mem, m': Mem, f: Frame, l: nat, k: nat, q: Pte)
    requires l <= 2 && k < 512 && Tree(m, f, l) && OthersKept(m, m', f, l, k)
    requires IsTable(m', f) && m'[f].ptes == m[f].ptes[k := q]
    ensures Nodes(m', f, l) == Nodes(m, f, l) - EntryNodes(m, m[f].ptes[k], l) + EntryNodes(m', q, l)
    ensures Users(m', f, l) == Users(m, f, l) - EntryUsers(m, m[f].ptes[k], l) + EntryUsers(m', q, l)
  {
    var es, es' := m[f].ptes, m'[f].ptes;
    assert f !in EntryNodes(m, es[k], l);
    assert es'[k] == q;
    forall x
      ensures x in Nodes(m', f, l) <==>
              x in Nodes(m, f, l) - EntryNodes(m, es[k], l) + EntryNodes(m', q, l)
    {
      if x in Nodes(m', f, l) && x != f {
        var j :| 0 <= j < 512 && x in EntryNodes(m', es'[j], l);
        if j != k { assert es'[j] == es[j]; }
      }
      if x in Nodes(m, f, l) - EntryNodes(m, es[k], l) && x != f {
        var j :| 0 <= j < 512 && x in EntryNodes(m, es[j], l);
        assert es'[j] == es[j] && SameEntry(m, m', es[j], l);
      }
    }
    forall x
      ensures x in Users(m', f, l) <==>
              x in Users(m, f, l) - EntryUsers(m, es[k], l) + EntryUsers(m', q, l)
    {
      if x in Users(m', f, l) {
        var j :| 0 <= j < 512 && x in EntryUsers(m', es'[j], l);
        if j != k { assert es'[j] == es[j]; }
      }
      if x in Users(m, f, l) - EntryUsers(m, es[k], l) {
        var j :| 0 <= j < 512 && x in EntryUsers(m, es[j], l);
        assert es'[j] == es[j] && SameEntry(m, m', es[j], l);
      }
    }
  }

  lemma ReplaceTree(m: Mem, m': Mem, f: Frame, l: nat, k: nat, q: Pte)
    requires l <= 2 && k < 512 && Tree(m, f, l) && OthersKept(m, m', f, l, k)
    requires IsTable(m', f) && m'[f].ptes == m[f].ptes[k := q]
    requires EntryTree(m', q, l)
    requires EntryNodes(m', q, l) !! Nodes(m, f, l) - EntryNodes(m, m[f].ptes[k], l)
    requires EntryUsers(m', q, l) !! Users(m, f, l) - EntryUsers(m, m[f].ptes[k], l)
    ensures Tree(m', f, l)
  {}

  /** Replacing entry `k` of a table, together with the subtree below it. */
  lemma ReplaceEntry(m: Mem, m': Mem, f: Frame, l: nat, k: nat, q: Pte)
    requires l <= 2 && k < 512 && Tree(m, f, l)
    requires IsTable(m', f) && m'[f].ptes == m[f].ptes[k := q]
    requires Agree(m, m', Nodes(m, f, l) - {f} - EntryNodes(m, m[f].ptes[k], l))
    requires EntryTree(m', q, l)
    requires EntryNodes(m', q, l) !! Nodes(m, f, l) - EntryNodes(m, m[f].ptes[k], l)
    requires EntryUsers(m', q, l) !! Users(m, f, l) - EntryUsers(m, m[f].ptes[k], l)
    ensures Tree(m', f, l)
    ensures Nodes(m', f, l) == Nodes(m, f, l) - EntryNodes(m, m[f].ptes[k], l) + EntryNodes(m', q, l)
    ensures Users(m', f, l) == Users(m, f, l) - EntryUsers(m, m[f].ptes[k], l) + EntryUsers(m', q, l)
    ensures forall v :: Walk(m', f, l, v) ==
                        if Index(v, l) == k then WalkEntry(m', q, l, v) else Walk(m, f, l, v)
  {
    KeepOthers(m, m', f, l, k);
    ReplaceSets(m, m', f, l, k, q);
    ReplaceTree(m, m', f, l, k, q);
    forall v
      ensures Walk(m', f, l, v) ==
              if Index(v, l) == k then WalkEntry(m', q, l, v) else Walk(m, f, l, v)
    {
      var j := Index(v, l);
      if j != k {
        assert SameEntry(m, m', m[f].ptes[j], l);
      }
    }
  }

  /** The level-`t` table on the path of page `v` exists. */
  ghost predicate HasPath(m: Mem, f: Frame, l: nat, v: nat, t: nat)
    requires t <= l <= 2
    decreases l
  {
    IsTable(m, f)
    && (l > t ==> var p := m[f].ptes[Index(v, l)]; p.Pointer() && HasPath(m, p.ppn, l - 1, v, t))
  }

  /** The frame of the level-`t` table on the path of page `v`. */
  ghost function TableOn(m: Mem, f: Frame, l: nat, v: nat, t: nat): (tb: Frame)
    requires t <= l <= 2 && HasPath(m, f, l, v, t)
    ensures IsTable(m, tb)
    decreases l
  {
    if l == t then f else TableOn(m, m[f].ptes[Index(v, l)].ppn, l - 1, v, t)
  }

  /** Pages `u` and `v` share the entry at level `t`. */
  predicate SamePath(u: nat, v: nat, t: nat, l: nat)
    requires t <= l <= 2
    decreases l
  {
    Index(u, l) == Index(v, l) && (l > t ==> SamePath(u, v, t, l - 1))
  }

  /** What a write of entry `q` over the non-pointer entry of page `v` at level `t` does to the tree. */
  ghost predicate EntryWritten(m: Mem, m': Mem, f: Frame, l: nat, v: nat, t: nat, q: Pte)
    requires t <= l <= 2 && HasPath(m, f, l, v, t)
  {
    var p := m[TableOn(m, f, l, v, t)].ptes[Index(v, t)];
    && Tree(m', f, l)
    && Nodes(m', f, l) == Nodes(m, f, l) + EntryNodes(m', q, t)
    && Users(m', f, l) == Users(m, f, l) - EntryUsers(m, p, t) + EntryUsers(m', q, t)
    && (forall u :: Walk(m', f, l, u) ==
                    if SamePath(u, v, t, l) then WalkEntry(m', q, t, u) else Walk(m, f, l, u))
  }

  /** `m'` is `m` with entry `q` written there, and `q` shares nothing with the rest of the tree. */
  ghost predicate Writes(m: Mem, m': Mem, f: Frame, l: nat, v: nat, t: nat, q: Pte)
    requires t <= l <= 2 && HasPath(m, f, l, v, t)
  {
    var tb := TableOn(m, f, l, v, t);
    var p := m[tb].ptes[Index(v, t)];
    && IsTable(m', tb) && m'[tb].ptes == m[tb].ptes[Index(v, t) := q]
    && !p.Pointer()
    && Agree(m, m', Nodes(m, f, l) - {tb})
    && EntryTree(m', q, t)
    && EntryNodes(m', q, t) !! Nodes(m, f, l)
    && EntryUsers(m', q, t) !! Users(m, f, l) - EntryUsers(m, p, t)
  }

  lemma {:induction false} PathUsers(m: Mem, f: Frame, l: nat, v: nat, t: nat)
    requires t <= l <= 2 && HasPath(m, f, l, v, t)
    ensures TableOn(m, f, l, v, t) in Nodes(m, f, l)
    ensures EntryUsers(m, m[TableOn(m, f, l, v, t)].ptes[Index(v, t)], t) <= Users(m, f, l)
    decreases l
  {
    EntryWithin(m, f, l, Index(v, l));
    if l > t {
      PathUsers(m, m[f].ptes[Index(v, l)].ppn, l - 1, v, t);
    }
  }

  lemma UnionLift(whole: set<Frame>, part: set<Frame>, gone: set<Frame>, added: set<Frame>)
    requires gone <= part <= whole
    ensures whole - part + (part - gone + added) == whole - gone + added
    ensures part - {} == part && whole - {} == whole
  {}

  /** The entry on a path, and the tables below it. */
  lemma PathEntry(m: Mem, f: Frame, l: nat, v: nat, t: nat)
    requires t < l <= 2 && Tree(m, f, l) && HasPath(m, f, l, v, t)
    ensures var e := m[f].ptes[Index(v, l)];
            && e.Pointer() && e.flags == V && HasPath(m, e.ppn, l - 1, v, t) && TableOn(m, f, l, v, t) == TableOn(m, e.ppn, l - 1, v, t)
            && EntryNodes(m, e, l) == Nodes(m, e.ppn, l - 1) <= Nodes(m, f, l) && f in Nodes(m, f, l) && f !in EntryNodes(m, e, l)
            && EntryUsers(m, e, l) == Users(m, e.ppn, l - 1) <= Users(m, f, l)
            && TableOn(m, f, l, v, t) in EntryNodes(m, e, l)
            && EntryUsers(m, m[TableOn(m, f, l, v, t)].ptes[Index(v, t)], t) <= EntryUsers(m, e, l)
  {
    var e := m[f].ptes[Index(v, l)];
    PathUsers(m, e.ppn, l - 1, v, t);
    EntryWithin(m, f, l, Index(v, l));
    assert EntryTree(m, e, l) && f !in EntryNodes(m, e, l);
  }

  lemma EntryBelow(m: Mem, p: Pte, l: nat)
    requires 0 < l <= 2 && p.Pointer() && p.flags == V
    ensures EntryNodes(m, p, l) == Nodes(m, p.ppn, l - 1) && EntryUsers(m, p, l) == Users(m, p.ppn, l - 1)
    ensures EntryTree(m, p, l) <==> Tree(m, p.ppn, l - 1)
  {}

  /** One level up: the entry on the path is the same, and what hangs below it has changed. */
  lemma LiftReady(m: Mem, m': Mem, f: Frame, l: nat, v: nat, t: nat, q: Pte)
    requires t < l <= 2 && Tree(m, f, l) && HasPath(m, f, l, v, t) && Writes(m, m', f, l, v, t, q)
    requires var e := m[f].ptes[Index(v, l)]; EntryWritten(m, m', e.ppn, l - 1, v, t, q)
    ensures var k := Index(v, l);
            var e := m[f].ptes[k];
            && EntryNodes(m, e, l) <= Nodes(m, f, l) && EntryUsers(m, e, l) <= Users(m, f, l)
            && EntryUsers(m, m[TableOn(m, f, l, v, t)].ptes[Index(v, t)], t) <= EntryUsers(m, e, l)
            && IsTable(m', f) && m'[f].ptes == m[f].ptes[k := e] && EntryTree(m', e, l)
            && Agree(m, m', Nodes(m, f, l) - {f} - EntryNodes(m, e, l))
            && EntryNodes(m', e, l) !! Nodes(m, f, l) - EntryNodes(m, e, l)
            && EntryUsers(m', e, l) !! Users(m, f, l) - EntryUsers(m, e, l)
  {
    var tb := TableOn(m, f, l, v, t);
    var k := Index(v, l);
    var e := m[f].ptes[k];
    PathEntry(m, f, l, v, t);
    EntryBelow(m', e, l);
    hide Tree, Nodes, Users, Walk, WalkEntry, EntryNodes, EntryUsers, EntryTree, Index, TableOn, HasPath;
    assert m'[f] == m[f];
    assert m[f].ptes == m[f].ptes[k := e];
  }

  lemma LiftEntry(m: Mem, m': Mem, f: Frame, l: nat, v: nat, t: nat, q: Pte)
    requires t < l <= 2 && Tree(m, f, l) && HasPath(m, f, l, v, t) && Writes(m, m', f, l, v, t, q)
    requires var e := m[f].ptes[Index(v, l)]; EntryWritten(m, m', e.ppn, l - 1, v, t, q)
    ensures var k := Index(v, l);
            var e := m[f].ptes[k];
            && EntryNodes(m, e, l) <= Nodes(m, f, l) && EntryUsers(m, e, l) <= Users(m, f, l)
            && EntryUsers(m, m[TableOn(m, f, l, v, t)].ptes[Index(v, t)], t) <= EntryUsers(m, e, l)
            && Tree(m', f, l)
            && Nodes(m', f, l) == Nodes(m, f, l) - EntryNodes(m, e, l) + EntryNodes(m', e, l)
            && Users(m', f, l) == Users(m, f, l) - EntryUsers(m, e, l) + EntryUsers(m', e, l)
            && forall u :: Walk(m', f, l, u) == if Index(u, l) == k then WalkEntry(m', e, l, u) else Walk(m, f, l, u)
  {
    hide Tree, Nodes, Users, Walk, WalkEntry, EntryNodes, EntryUsers, EntryTree, Agree, Index, EntryWritten, Writes;
    LiftReady(m, m', f, l, v, t, q);
    ReplaceEntry(m, m', f, l, Index(v, l), m[f].ptes[Index(v, l)]);
  }

  lemma LiftWrite(m: Mem, m': Mem, f: Frame, l: nat, v: nat, t: nat, q: Pte)
    requires t < l <= 2 && Tree(m, f, l) && HasPath(m, f, l, v, t) && Writes(m, m', f, l, v, t, q)
    requires var e := m[f].ptes[Index(v, l)]; EntryWritten(m, m', e.ppn, l - 1, v, t, q)
    ensures EntryWritten(m, m', f, l, v, t, q)
  {
    LiftEntry(m, m', f, l, v, t, q);
    var e := m[f].ptes[Index(v, l)];
    var p := m[TableOn(m, f, l, v, t)].ptes[Index(v, t)];
    UnionLift(Nodes(m, f, l), EntryNodes(m, e, l), {}, EntryNodes(m', q, t));
    UnionLift(Users(m, f, l), EntryUsers(m, e, l), EntryUsers(m, p, t), EntryUsers(m', q, t));
    hide Tree, Nodes, Users, Walk, Index;
    forall u
      ensures Walk(m', f, l, u) ==
              if SamePath(u, v, t, l) then WalkEntry(m', q, t, u) else Walk(m, f, l, u)
    {
      LiftWalk(m, m', f, l, v, t, q, u);
    }
  }

  /** The walk from a table above, once the entry on the path leads to the table that was written. */
  lemma LiftWalk(m: Mem, m': Mem, f: Frame, l: nat, v: nat, t: nat, q: Pte, u: nat)
    requires t < l <= 2 && IsTable(m, f) && m[f].ptes[Index(v, l)].Pointer()
    requires var e := m[f].ptes[Index(v, l)];
             && Walk(m', f, l, u) == (if Index(u, l) == Index(v, l) then WalkEntry(m', e, l, u) else Walk(m, f, l, u))
             && Walk(m', e.ppn, l - 1, u) == (if SamePath(u, v, t, l - 1) then WalkEntry(m', q, t, u) else Walk(m, e.ppn, l - 1, u))
    ensures Walk(m', f, l, u) == if SamePath(u, v, t, l) then WalkEntry(m', q, t, u) else Walk(m, f, l, u)
  {
    assert SamePath(u, v, t, l) <==> Index(u, l) == Index(v, l) && SamePath(u, v, t, l - 1);
  }

  lemma {:induction false} WriteEntry(m: Mem, m': Mem, f: Frame, l: nat, v: nat, t: nat, q: Pte)
    requires t <= l <= 2 && Tree(m, f, l) && HasPath(m, f, l, v, t) && Writes(m, m', f, l, v, t, q)
    ensures EntryWritten(m, m', f, l, v, t, q)
    decreases l
  {
    if l == t {
      ReplaceEntry(m, m', f, l, Index(v, l), q);
    } else {
      var e := m[f].ptes[Index(v, l)];
      PathUsers(m, e.ppn, l - 1, v, t);
      EntryWithin(m, f, l, Index(v, l));
      assert EntryTree(m, e, l);
      WriteEntry(m, m', e.ppn, l - 1, v, t, q);
      LiftWrite(m, m', f, l, v, t, q);
    }
  }

  // ---- growing the tree ----

  /** The walk of any page that shares the level-`t` entry of `v` goes through that entry. */
  lemma {:induction false} PathWalk(m: Mem, f: Frame, l: nat, v: nat, t: nat, u: nat)
    requires t <= l <= 2 && HasPath(m, f, l, v, t) && SamePath(u, v, t, l)
    ensures Index(u, t) == Index(v, t)
    ensures Walk(m, f, l, u) == WalkEntry(m, m[TableOn(m, f, l, v, t)].ptes[Index(v, t)], t, u)
    decreases l
  {}

  lemma EmptyTable(m: Mem, g: Frame, l: nat)
    requires l <= 2 && g in m && m[g] == BlankTable()
    ensures Tree(m, g, l) && Nodes(m, g, l) == {g} && Users(m, g, l) == {}
    ensures forall u :: Walk(m, g, l, u) == None
  {}

  /** `m'` is `m` with a fresh empty table `g` hung under the unused level-`l` entry of page `v`. */
  ghost predicate TableHung(m: Mem, m': Mem, root: Frame, n: nat, v: nat, l: nat, g: Frame)
    requires 1 <= l <= n <= 2 && HasPath(m, root, n, v, l)
  {
    var tb := TableOn(m, root, n, v, l);
    && g !in Nodes(m, root, n)
    && !m[tb].ptes[Index(v, l)].Valid()
    && m' == m[g := BlankTable()][tb := Table(m[tb].ptes[Index(v, l) := Pte(V, g)])]
  }

  lemma HangWrites(m: Mem, m': Mem, root: Frame, n: nat, v: nat, l: nat, g: Frame)
    requires 1 <= l <= n <= 2 && Tree(m, root, n) && HasPath(m, root, n, v, l)
    requires TableHung(m, m', root, n, v, l, g)
    ensures Writes(m, m', root, n, v, l, Pte(V, g))
    ensures EntryNodes(m', Pte(V, g), l) == {g} && EntryUsers(m', Pte(V, g), l) == {}
    ensures forall u :: WalkEntry(m', Pte(V, g), l, u) == None
  {
    PathUsers(m, root, n, v, l);
    EmptyTable(m', g, l - 1);
  }

  lemma HangPath(m: Mem, m': Mem, root: Frame, n: nat, v: nat, l: nat, g: Frame)
    requires 1 <= l <= n <= 2 && Tree(m, root, n) && HasPath(m, root, n, v, l)
    requires TableHung(m, m', root, n, v, l, g)
    ensures HasPath(m', root, n, v, l - 1) && TableOn(m', root, n, v, l - 1) == g
  {}

  /** Hanging a fresh empty table under an unused entry grows the tree and changes no walk. */
  lemma AddTable(m: Mem, m': Mem, root: Frame, n: nat, v: nat, l: nat, g: Frame)
    requires 1 <= l <= n <= 2 && Tree(m, root, n) && HasPath(m, root, n, v, l)
    requires TableHung(m, m', root, n, v, l, g)
    ensures Tree(m', root, n)
    ensures Nodes(m', root, n) == Nodes(m, root, n) + {g}
    ensures Users(m', root, n) == Users(m, root, n)
    ensures forall u :: Walk(m', root, n, u) == Walk(m, root, n, u)
  {
    HangWrites(m, m', root, n, v, l, g);
    WriteEntry(m, m', root, n, v, l, Pte(V, g));
    assert EntryUsers(m, m[TableOn(m, root, n, v, l)].ptes[Index(v, l)], l) == {};
    forall u
      ensures Walk(m', root, n, u) == Walk(m, root, n, u)
    {
      if SamePath(u, v, l, n) {
        PathWalk(m, root, n, v, l, u);
      }
    }
  }

  // ---- writing a leaf ----

  /** The user frame a leaf entry names, if it is a user leaf. */
  ghost function LeafUsers(p: Pte): set<Frame> {
    if p.UserLeaf() then {p.ppn} else {}
  }

  /** `m'` is `m` with the leaf `q` written over the leaf or unused entry of page `v` at level `t`. */
  ghost predicate LeafPut(m: Mem, m': Mem, root: Frame, n: nat, v: nat, t: nat, q: Pte)
    requires t <= n <= 2 && HasPath(m, root, n, v, t)
  {
    var tb := TableOn(m, root, n, v, t);
    var p := m[tb].ptes[Index(v, t)];
    && !p.Pointer() && q.Leaf() && (q.flags.u ==> q.flags.r || q.flags.x)
    && LeafUsers(q) !! Users(m, root, n) - LeafUsers(p)
    && m' == m[tb := Table(m[tb].ptes[Index(v, t) := q])]
  }

  lemma LeafWrites(m: Mem, m': Mem, root: Frame, n: nat, v: nat, t: nat, q: Pte)
    requires t <= n <= 2 && Tree(m, root, n) && HasPath(m, root, n, v, t) && LeafPut(m, m', root, n, v, t, q)
    ensures Writes(m, m', root, n, v, t, q)
    ensures EntryNodes(m', q, t) == {} && EntryUsers(m', q, t) == LeafUsers(q)
    ensures forall u :: WalkEntry(m', q, t, u) == Some(Hit(q, t))
  {}

  /** Writing a leaf changes the walk on exactly the pages that leaf covers. */
  lemma PutLeaf(m: Mem, m': Mem, root: Frame, n: nat, v: nat, t: nat, q: Pte)
    requires t <= n <= 2 && Tree(m, root, n) && HasPath(m, root, n, v, t) && LeafPut(m, m', root, n, v, t, q)
    ensures var p := m[TableOn(m, root, n, v, t)].ptes[Index(v, t)];
            && Walk(m, root, n, v) == (if p.Leaf() then Some(Hit(p, t)) else None)
            && Users(m', root, n) == Users(m, root, n) - LeafUsers(p) + LeafUsers(q)
    ensures Tree(m', root, n)
    ensures Nodes(m', root, n) == Nodes(m, root, n)
    ensures forall u :: Walk(m', root, n, u) ==
                        if SamePath(u, v, t, n) then Some(Hit(q, t)) else Walk(m, root, n, u)
  {
    LeafWrites(m, m', root, n, v, t, q);
    WriteEntry(m, m', root, n, v, t, q);
    PathWalk(m, root, n, v, t, v);
  }
}
