/**
 The operations of the kernel on page tables in physical memory: mapping a page of any of the
 three sizes, changing the flags of a mapping, duplicating a table tree for a forked process,
 copying a shared page on a write, and releasing a table tree.

 A kernel panic (a mapping refused, no frame left) is the result `false` or `None`.
 */
module Paging {
  import opened Basics
  import opened Sv39
  import opened FrameAllocator
  import opened PageTables
  import opened Forking

  /** The tree of `root` may have grown by freshly allocated tables; no walk and nothing else changed. */
  ghost predicate Grown(m: Mem, used: set<Frame>, m': Mem, used': set<Frame>, root: Frame, n: nat)
    requires n <= 2
  {
    && used <= used'
    && Tree(m', root, n)
    && Nodes(m', root, n) == Nodes(m, root, n) + (used' - used)
    && Users(m', root, n) == Users(m, root, n)
    && (forall u :: Walk(m', root, n, u) == Walk(m, root, n, u))
    && Agree(m, m', used - Nodes(m, root, n))
  }

  /** Page `v` now maps through the leaf `q` at level `t`; no other walk and nothing else changed. */
  ghost predicate MapEffect(m: Mem, used: set<Frame>, m': Mem, used': set<Frame>, root: Frame, n: nat, v: nat, t: nat, q: Pte)
    requires t <= n <= 2
  {
    && used <= used'
    && Tree(m', root, n)
    && Nodes(m', root, n) == Nodes(m, root, n) + (used' - used)
    && Users(m', root, n) == Users(m, root, n) - HitUsers(Walk(m, root, n, v)) + LeafUsers(q)
    && (forall u :: Walk(m', root, n, u) ==
                    if SamePath(u, v, t, n) then Some(Hit(q, t)) else Walk(m, root, n, u))
    && Agree(m, m', used - Nodes(m, root, n))
  }

  ghost function HitUsers(h: Option<Hit>): set<Frame> {
    if h.Some? then LeafUsers(h.value.pte) else {}
  }

  /** The leaf `map_leaf` leaves behind: an existing leaf keeps its frame and gains the flags. */
  function MappedLeaf(h: Option<Hit>, ppn: Frame, flags: Flags): Pte {
    (if h.Some? then h.value.pte else EMPTY.(ppn := ppn)).SetFlags(flags.Or(VAD))
  }

  /** A leaf above level `t` already covers page `v`. */
  ghost predicate Covered(m: Mem, root: Frame, n: nat, v: nat, t: nat)
    requires t <= n <= 2
  {
    var h := Walk(m, root, n, v);
    h.Some? && h.value.level > t
  }

  class PhysicalMemory {
    const frames: Allocator
    var mem: Mem
    /** `PageMetadataTable`: the reference count of each mapped user frame. */
    var counts: map<Frame, U16>

    constructor (start: Frame)
      ensures frames.Valid() && frames.start == start && Used() == {} && mem == map[] && counts == map[]
      ensures fresh(frames) && fresh(frames.pages)
    {
      frames := new Allocator(start);
      mem, counts := map[], map[];
    }

    ghost function Used(): set<Frame>
      requires frames.Valid()
      reads this, frames, frames.pages
    {
      frames.Used()
    }

    /** The next-level table under entry `Index(v, l)` of `f`, created empty when the entry is unused. */
    method NextTable(ghost root: Frame, f: Frame, v: nat, l: nat) returns (r: Option<Frame>)
      requires frames.Valid() && 1 <= l <= 2 && AtTable(mem, Used(), root, 2, f, v, l)
      modifies this`mem, frames.pages
      ensures Grown(old(mem), old(Used()), mem, Used(), root, 2)
      ensures r.Some? ==> AtTable(mem, Used(), root, 2, r.value, v, l - 1)
      ensures r.Some? ==> mem == old(mem) || !EntryAt(mem, r.value, v, l - 1).Valid()
      ensures r.None? ==> old(EntryAt(mem, f, v, l).Leaf()) || frames.Full()
      ensures old(EntryAt(mem, f, v, l).Leaf()) ==> r.None?
    {
      hide Tree, Nodes, Users, Walk, HasPath, TableOn, SamePath, AtTable, Grown, BlankTable, Index, Allocator.Used, Allocator.Full;
      var p := EntryAt(mem, f, v, l);
      GrownRefl(mem, Used(), root, 2) by { AtTree(mem, Used(), root, 2, f, v, l); }
      if p.Valid() {
        if p.Leaf() {
          return None;
        }
        Descend(mem, Used(), root, 2, f, v, l);
        return Some(p.ppn);
      }
      r := frames.Alloc();
      if r.None? {
        return;
      }
      HangGrown(mem, old(Used()), root, 2, f, v, l, r.value);
      mem := mem[r.value := BlankTable()];
      mem := mem[f := Table(mem[f].ptes[Index(v, l) := Pte(V, r.value)])];
    }

    /** Writes the leaf for page `v` into the level-`t` table `f`; refuses to overwrite a table. */
    method MapLeaf(ghost root: Frame, f: Frame, v: nat, t: nat, ppn: Frame, flags: Flags) returns (ok: bool)
      requires frames.Valid() && t <= 2 && AtTable(mem, Used(), root, 2, f, v, t)
      requires MayMap(mem, root, 2, v, ppn, flags)
      modifies this`mem
      ensures ok <==> !old(EntryAt(mem, f, v, t).Pointer())
      ensures ok ==> MapEffect(old(mem), Used(), mem, Used(), root, 2, v, t, MappedLeaf(old(Walk(mem, root, 2, v)), ppn, flags))
    {
      var p := EntryAt(mem, f, v, t);
      if p.Pointer() {
        return false;
      }
      var q := NewLeaf(p, ppn, flags);
      LeafEffect(mem, Used(), root, 2, f, v, t, ppn, flags);
      mem := mem[f := Table(mem[f].ptes[Index(v, t) := q])];
      ok := true;
    }

    /**
     Maps page `v` to frame `ppn` with one leaf of the size of level `t`, creating the missing
     tables.  The walk changes on exactly the pages that leaf covers; the tables stay a tree, and
     nothing outside this tree is touched.  A leaf above level `t` makes it panic.
     */
    method MapVm(root: Frame, v: nat, ppn: Frame, flags: Flags, t: nat) returns (ok: bool)
      requires frames.Valid() && t <= 2 && Tree(mem, root, 2) && Nodes(mem, root, 2) <= Used()
      requires MayMap(mem, root, 2, v, ppn, flags)
      modifies this`mem, frames.pages
      ensures ok ==> MapEffect(old(mem), old(Used()), mem, Used(), root, 2, v, t, MappedLeaf(old(Walk(mem, root, 2, v)), ppn, flags))
      ensures ok ==> !old(Covered(mem, root, 2, v, t))
      ensures !ok ==> frames.Full() || old(Covered(mem, root, 2, v, t)) || (t > 0 && old(HasPath(mem, root, 2, v, t - 1)))
      ensures t == 2 ==> Used() == old(Used()) && (ok <==> !old(EntryAt(mem, root, v, 2).Pointer()))
    {
      hide Tree, Nodes, Users, Walk, HasPath, TableOn, SamePath, MapEffect, Allocator.Used, Allocator.Full;
      ghost var m0, used0 := mem, Used();
      RootTable(mem, Used(), root, 2, v);
      EntryWalk(mem, Used(), root, 2, root, v, 2);
      if EntryAt(mem, root, v, 2).Pointer() { Descend(mem, Used(), root, 2, root, v, 2); }
      if t == 2 {
        ok := MapLeaf(root, root, v, 2, ppn, flags);
        return;
      }
      var l1 := NextTable(root, root, v, 2);
      if l1.None? {
        return false;
      }
      ghost var m1, used1 := mem, Used();
      EntryWalk(mem, Used(), root, 2, l1.value, v, 1);
      if EntryAt(mem, l1.value, v, 1).Pointer() { Descend(mem, Used(), root, 2, l1.value, v, 1); }
      if t == 1 {
        ok := MapLeaf(root, l1.value, v, 1, ppn, flags);
        if ok {
          GrownMap(m0, used0, m1, used1, mem, Used(), root, 2, v, t, MappedLeaf(Walk(m0, root, 2, v), ppn, flags));
        }
        return;
      }
      var l0 := NextTable(root, l1.value, v, 1);
      GrownTrans(m0, used0, m1, used1, mem, Used(), root, 2);
      if l0.None? {
        return false;
      }
      ghost var m2, used2 := mem, Used();
      EntryWalk(mem, Used(), root, 2, l0.value, v, 0);
      ok := MapLeaf(root, l0.value, v, 0, ppn, flags);
      if ok {
        GrownMap(m0, used0, m2, used2, mem, Used(), root, 2, v, t, MappedLeaf(Walk(m0, root, 2, v), ppn, flags));
      }
    }

    /**
     Duplicates the level-`l` table `f` and everything below it into fresh frames.  Both trees
     then translate every page as `f` did, user leaves have lost write permission on both sides,
     and each user frame has gained one reference.
     */
    method Fork(f: Frame, ghost l: nat) returns (r: Option<Frame>)
      requires frames.Valid() && l <= 2 && Tree(mem, f, l) && Nodes(mem, f, l) <= Used()
      modifies this`mem, this`counts, frames.pages
      ensures r.Some? ==> ForkEffect(old(mem), old(Used()), old(counts), mem, Used(), counts, f, l, r.value)
      ensures r.None? ==> frames.Full()
      decreases l, 1
    {
      r := frames.Alloc();
      if r.None? {
        return;
      }
      var g := r.value;
      ForkStart(mem, old(Used()), counts, f, l, g);
      mem := mem[g := mem[f]];
      ghost var m0, used0, c0 := old(mem), old(Used()), old(counts);
      var i := 0;
      while i < 512
        invariant 0 <= i <= 512
        invariant ForkLoop(m0, used0, c0, mem, Used(), counts, f, l, g, i)
      {
        if mem[f].ptes[i].Pointer() {
          var ok := ForkTable(m0, used0, c0, f, l, g, i);
          if !ok {
            return None;
          }
        } else {
          ForkLeaf(m0, used0, c0, f, l, g, i);
        }
        i := i + 1;
      }
      ForkDone(m0, used0, c0, mem, Used(), counts, f, l, g);
    }

    /** The loop body of `Fork` for an unused entry or a leaf. */
    method ForkLeaf(ghost m0: Mem, ghost used0: set<Frame>, ghost c0: map<Frame, U16>,
                    f: Frame, ghost l: nat, g: Frame, i: nat)
      requires frames.Valid() && l <= 2 && i < 512
      requires ForkLoop(m0, used0, c0, mem, Used(), counts, f, l, g, i) && !mem[f].ptes[i].Pointer()
      modifies this`mem, this`counts
      ensures ForkLoop(m0, used0, c0, mem, Used(), counts, f, l, g, i + 1)
    {
      var p := mem[f].ptes[i];
      ghost var m, used, c := mem, Used(), counts;
      LeafAdvance(m0, used0, c0, m, used, c, f, l, g, i);
      if p.UserLeaf() {
        AddRef(p.ppn);
        if p.flags.w {
          mem := mem[f := Table(mem[f].ptes[i := p.UnsetFlags(W)])];
          mem := mem[g := Table(mem[g].ptes[i := mem[g].ptes[i].UnsetFlags(W)])];
        }
      }
      assert Used() == used;
      assert counts == Bumped(c, LeafUsers(p)) by { BumpedTwice(c, {}, {}); }
      assert mem == LeafForked(m, f, g, i);
    }

    /** The loop body of `Fork` for an entry that names a table. */
    method ForkTable(ghost m0: Mem, ghost used0: set<Frame>, ghost c0: map<Frame, U16>,
                     f: Frame, ghost l: nat, g: Frame, i: nat) returns (ok: bool)
      requires frames.Valid() && l <= 2 && i < 512
      requires ForkLoop(m0, used0, c0, mem, Used(), counts, f, l, g, i) && mem[f].ptes[i].Pointer()
      modifies this`mem, this`counts, frames.pages
      ensures ok ==> ForkLoop(m0, used0, c0, mem, Used(), counts, f, l, g, i + 1)
      ensures !ok ==> frames.Full()
      decreases l, 0
    {
      hide Tree, Nodes, Users, Walk, Allocator.Full, Bumped;
      var p := mem[f].ptes[i];
      ghost var m, used, c := mem, Used(), counts;
      assert l > 0 && Tree(m, p.ppn, l - 1) && Nodes(m, p.ppn, l - 1) <= used by {
        PointerReady(m0, used0, m, used, f, l, g, i);
      }
      var h := Fork(p.ppn, l - 1);
      if h.None? {
        return false;
      }
      ghost var m1, used1 := mem, Used();
      PointerAdvance(m0, used0, c0, m, used, c, mem, Used(), counts, f, l, g, i, h.value);
      mem := mem[g := Table(mem[g].ptes[i := mem[g].ptes[i].(ppn := h.value)])];
      assert Used() == used1;
      assert mem == TableForked(m1, g, i, h.value);
      ok := true;
    }

    /** The frame and level of the table holding the leaf of page `v`: `translate_to_pte_ptr`. */
    method FindLeaf(root: Frame, v: nat) returns (r: Option<(Frame, nat)>)
      requires Tree(mem, root, 2)
      ensures r.None? <==> Walk(mem, root, 2, v).None?
      ensures r.Some? ==>
                var (tb, l) := r.value;
                && l <= 2 && AtTable(mem, Nodes(mem, root, 2), root, 2, tb, v, l)
                && Walk(mem, root, 2, v) == Some(Hit(EntryAt(mem, tb, v, l), l))
    {
      var tb, l: nat := root, 2;
      ghost var nodes := Nodes(mem, root, 2);
      RootTable(mem, nodes, root, 2, v);
      while true
        invariant l <= 2 && AtTable(mem, nodes, root, 2, tb, v, l)
        decreases l
      {
        EntryWalk(mem, nodes, root, 2, tb, v, l);
        var p := EntryAt(mem, tb, v, l);
        if !p.Valid() {
          return None;
        }
        if p.Leaf() {
          return Some((tb, l));
        }
        Descend(mem, nodes, root, 2, tb, v, l);
        tb, l := p.ppn, l - 1;
      }
    }

    /** Adds flags to the leaf of page `v`; a page that is not mapped makes it panic. */
    method RemapVm(root: Frame, v: nat, flags: Flags) returns (ok: bool)
      requires frames.Valid() && Tree(mem, root, 2) && Nodes(mem, root, 2) <= Used()
      requires Walk(mem, root, 2, v).Some? ==> MayMap(mem, root, 2, v, 0, flags)
      modifies this`mem
      ensures ok <==> old(Walk(mem, root, 2, v)).Some?
      ensures ok ==>
                var h := old(Walk(mem, root, 2, v)).value;
                && h.level <= 2
                && MapEffect(old(mem), Used(), mem, Used(), root, 2, v, h.level, h.pte.SetFlags(flags.Or(VAD)))
    {
      var at := FindLeaf(root, v);
      if at.None? {
        return false;
      }
      var (tb, l) := at.value;
      ok := MapLeaf(root, tb, v, l, 0, flags);
    }

    /**
     Gives page `v` a private writable copy of its frame, drops the reference to the old frame
     and frees it when that was the last one.
     */
    method CopyOnWrite(root: Frame, v: nat) returns (r: Option<Frame>)
      requires frames.Valid() && Tree(mem, root, 2) && Nodes(mem, root, 2) <= Used() && Users(mem, root, 2) <= Used()
      requires Walk(mem, root, 2, v).Some?
      requires var h := Walk(mem, root, 2, v).value; h.level == 0 ==> Shareable(mem, root, 2, counts, h.pte)
      requires counts.Keys <= Used()
      modifies this`mem, this`counts, frames.pages
      ensures r.Some? ==> CowEffect(old(mem), old(Used()), old(counts), mem, Used(), counts, root, 2, v, old(Walk(mem, root, 2, v)).value.pte, r.value)
      ensures r.None? ==> old(Walk(mem, root, 2, v)).value.level != 0 || frames.Full()
    {
      var at := FindLeaf(root, v);
      var (tb, l) := at.value;
      if l != 0 {
        return None;
      }
      var p := EntryAt(mem, tb, v, 0);
      r := frames.Alloc();
      if r.None? {
        return;
      }
      InstallCopy(root, 2, old(Used()), tb, v, p, r.value);
    }

    /** Copies the data, swings the entry in table `tb` to the copy and drops the old reference. */
    method InstallCopy(ghost root: Frame, ghost n: nat, ghost used: set<Frame>, tb: Frame, v: nat, p: Pte, g: Frame)
      requires frames.Valid() && n <= 2 && AtTable(mem, Nodes(mem, root, n), root, n, tb, v, 0) && EntryAt(mem, tb, v, 0) == p
      requires Nodes(mem, root, n) <= used && Users(mem, root, n) <= used && counts.Keys <= used
      requires Shareable(mem, root, n, counts, p) && g !in used && Used() == used + {g}
      modifies this`mem, this`counts, frames.pages
      ensures CowEffect(old(mem), used, old(counts), mem, Used(), counts, root, n, v, p, g)
    {
      CowMemory(mem, used, root, n, tb, v, p, g);
      CowCounts(counts, p.ppn, g);
      ghost var m := mem;
      mem := mem[g := mem[p.ppn]];
      mem := mem[tb := Table(mem[tb].ptes[Index(v, 0) := p.(ppn := g).SetFlags(W)])];
      assert CowTree(m, mem, used, root, n, v, p, g);
      AddRef(g);
      DropRef(p.ppn);
    }

    /** Drops one reference to a user frame and frees the frame with the last one. */
    method DropRef(x: Frame)
      requires frames.Valid() && x in Used() && x in counts && counts[x] > 0
      modifies this`counts, frames.pages
      ensures counts == Dropped(old(counts), x)
      ensures Used() == if old(counts)[x] == 1 then old(Used()) - {x} else old(Used())
    {
      var left := RemoveRef(x);
      if left == Some(0) {
        FreeFrame(x);
      }
    }

    /** `page::remove`: one reference fewer; the entry goes away with the last one. */
    method RemoveRef(x: Frame) returns (left: Option<U16>)
      modifies this`counts
      ensures left.None? <==> x !in old(counts)
      ensures left.None? ==> counts == old(counts)
      ensures left.Some? && old(counts)[x] > 0 ==> left.value == old(counts)[x] - 1 && counts == Dropped(old(counts), x)
    {
      if x !in counts {
        return None;
      }
      var now := (counts[x] as int - 1) % 0x1_0000;
      if now == 0 {
        counts := counts - {x};
      } else {
        counts := counts[x := now];
      }
      left := Some(now);
    }

    /** Releases a frame that is in use; releasing a free frame would be a double free. */
    method FreeFrame(x: Frame)
      requires frames.Valid() && x in Used()
      modifies frames.pages
      ensures Used() == old(Used()) - {x}
    {
      frames.Free(x);
    }

    /** Releases every table frame of the tree, each exactly once. */
    method TraverseFree(f: Frame, ghost l: nat)
      requires frames.Valid() && Tree(mem, f, l) && Nodes(mem, f, l) <= Used()
      modifies frames.pages
      ensures Used() == old(Used()) - Nodes(mem, f, l)
      decreases l
    {
      var i := 0;
      while i < 512
        invariant 0 <= i <= 512
        invariant Used() == old(Used()) - NodesBelow(mem, f, l, i)
      {
        var p := mem[f].ptes[i];
        NextNodes(mem, f, l, i);
        if p.Pointer() {
          TraverseFree(p.ppn, l - 1);
        }
        i := i + 1;
      }
      AllNodes(mem, f, l);
      FreeFrame(f);
    }

    /** `page::add`: one more reference to frame `x`. */
    method AddRef(x: Frame)
      modifies this`counts
      ensures counts == Bumped(old(counts), {x})
    {
      if x !in counts {
        counts := counts[x := 1];
      } else {
        counts := counts[x := (counts[x] as int + 1) % 0x1_0000];
      }
    }
  }

  /** Table frames below the first `i` entries of `f`. */
  ghost function NodesBelow(m: Mem, f: Frame, l: nat, i: nat): set<Frame>
    requires IsTable(m, f) && i <= 512
  {
    set k, x | 0 <= k < i && x in EntryNodes(m, m[f].ptes[k], l) :: x
  }

  lemma NextNodes(m: Mem, f: Frame, l: nat, i: nat)
    requires Tree(m, f, l) && i < 512
    ensures var p := m[f].ptes[i];
            && (p.Pointer() ==> l > 0 && Tree(m, p.ppn, l - 1) && Nodes(m, p.ppn, l - 1) == EntryNodes(m, p, l))
            && (!p.Pointer() ==> EntryNodes(m, p, l) == {})
            && NodesBelow(m, f, l, i + 1) == NodesBelow(m, f, l, i) + EntryNodes(m, p, l)
            && NodesBelow(m, f, l, i) !! EntryNodes(m, p, l)
            && EntryNodes(m, p, l) <= Nodes(m, f, l)
  {}

  lemma AllNodes(m: Mem, f: Frame, l: nat)
    requires Tree(m, f, l)
    ensures Nodes(m, f, l) == NodesBelow(m, f, l, 512) + {f} && f !in NodesBelow(m, f, l, 512)
  {}

  /** Reference counts after one reference to `x` is dropped. */
  function Dropped(c: map<Frame, U16>, x: Frame): map<Frame, U16>
    requires x in c && c[x] > 0
  {
    if c[x] == 1 then c - {x} else c[x := c[x] - 1]
  }

  lemma CowCounts(c: map<Frame, U16>, x: Frame, g: Frame)
    requires x in c && c[x] > 0 && g !in c
    ensures x in Bumped(c, {g}) && Bumped(c, {g})[x] == c[x]
    ensures Dropped(Bumped(c, {g}), x) == Dropped(c, x)[g := 1]
  {}

  /** The mapped page of a user leaf is counted data that no table of this tree lives in. */
  ghost predicate Shareable(m: Mem, root: Frame, n: nat, c: map<Frame, U16>, p: Pte) {
    && p.UserLeaf() && p.ppn in m && m[p.ppn].Data?
    && p.ppn !in Nodes(m, root, n)
    && p.ppn in c && 0 < c[p.ppn]
  }

  /** Page `v` now maps the fresh copy `g` of the frame of `p`, writable; the old frame lost one reference. */
  ghost predicate CowEffect(m: Mem, used: set<Frame>, c: map<Frame, U16>, m': Mem, used': set<Frame>, c': map<Frame, U16>,
                            root: Frame, n: nat, v: nat, p: Pte, g: Frame)
    requires n <= 2
  {
    && g !in used && p.ppn in c && c[p.ppn] > 0
    && used' == (if c[p.ppn] == 1 then used + {g} - {p.ppn} else used + {g})
    && c' == Dropped(c, p.ppn)[g := 1]
    && CowTree(m, m', used, root, n, v, p, g)
  }

  ghost predicate CowTree(m: Mem, m': Mem, used: set<Frame>, root: Frame, n: nat, v: nat, p: Pte, g: Frame)
    requires n <= 2
  {
    && Tree(m', root, n)
    && Nodes(m', root, n) == Nodes(m, root, n)
    && Users(m', root, n) == Users(m, root, n) - {p.ppn} + {g}
    && (forall u :: Walk(m', root, n, u) ==
                    if SamePath(u, v, 0, n) then Some(Hit(p.(ppn := g).SetFlags(W), 0)) else Walk(m, root, n, u))
    && p.ppn in m && g in m' && m'[g] == m[p.ppn]
    && Agree(m, m', used - Nodes(m, root, n))
  }

  /** Copying data into the free frame `g` leaves the tree alone. */
  lemma CowCopy(m: Mem, used: set<Frame>, root: Frame, n: nat, tb: Frame, v: nat, p: Pte, g: Frame)
    requires n <= 2 && AtTable(m, Nodes(m, root, n), root, n, tb, v, 0) && EntryAt(m, tb, v, 0) == p
    requires Nodes(m, root, n) <= used && g !in used && p.ppn in m
    ensures var m1 := m[g := m[p.ppn]];
            && SameTree(m, m1, root, n) && Tree(m1, root, n)
            && AtTable(m1, Nodes(m, root, n), root, n, tb, v, 0) && EntryAt(m1, tb, v, 0) == p
            && tb in Nodes(m, root, n)
  {
    PathUsers(m, root, n, v, 0);
    TreeFrame(m, m[g := m[p.ppn]], root, n);
    PathFrame(m, m[g := m[p.ppn]], root, n, v, 0);
  }

  lemma CowLeaf(m: Mem, used: set<Frame>, root: Frame, n: nat, tb: Frame, v: nat, p: Pte, g: Frame)
    requires n <= 2 && AtTable(m, Nodes(m, root, n), root, n, tb, v, 0) && EntryAt(m, tb, v, 0) == p
    requires Users(m, root, n) <= used && g !in used && p.UserLeaf()
    ensures p.ppn in used
    ensures var q := p.(ppn := g).SetFlags(W);
            LeafPut(m, m[tb := Table(m[tb].ptes[Index(v, 0) := q])], root, n, v, 0, q)
  {
    PathUsers(m, root, n, v, 0);
    PathEntryTree(m, root, n, v, 0);
  }

  lemma CowMemory(m: Mem, used: set<Frame>, root: Frame, n: nat, tb: Frame, v: nat, p: Pte, g: Frame)
    requires n <= 2 && AtTable(m, Nodes(m, root, n), root, n, tb, v, 0) && EntryAt(m, tb, v, 0) == p
    requires Nodes(m, root, n) <= used && Users(m, root, n) <= used && g !in used
    requires p.UserLeaf() && p.ppn in m && p.ppn !in Nodes(m, root, n)
    ensures tb != g && tb != p.ppn && p.ppn in used
    ensures CowTree(m, m[g := m[p.ppn]][tb := Table(m[tb].ptes[Index(v, 0) := p.(ppn := g).SetFlags(W)])], used, root, n, v, p, g)
  {
    hide Tree, Nodes, Users, Walk, TableOn, HasPath, SamePath, Index, LeafPut;
    var m1 := m[g := m[p.ppn]];
    var q := p.(ppn := g).SetFlags(W);
    CowCopy(m, used, root, n, tb, v, p, g);
    CowLeaf(m1, used, root, n, tb, v, p, g);
    var m2 := m1[tb := Table(m1[tb].ptes[Index(v, 0) := q])];
    PutLeaf(m1, m2, root, n, v, 0, q);
  }

  lemma {:induction false} PathFrame(m: Mem, m': Mem, f: Frame, l: nat, v: nat, t: nat)
    requires t <= l <= 2 && HasPath(m, f, l, v, t) && Agree(m, m', Nodes(m, f, l))
    ensures HasPath(m', f, l, v, t) && TableOn(m', f, l, v, t) == TableOn(m, f, l, v, t)
    decreases l
  {
    EntryWithin(m, f, l, Index(v, l));
    assert f in Nodes(m, f, l);
    if l > t {
      PathFrame(m, m', m[f].ptes[Index(v, l)].ppn, l - 1, v, t);
    }
  }

  lemma RootTable(m: Mem, used: set<Frame>, root: Frame, n: nat, v: nat)
    requires n <= 2 && Tree(m, root, n) && Nodes(m, root, n) <= used
    ensures AtTable(m, used, root, n, root, v, n)
  {}

  lemma EntryWalk(m: Mem, used: set<Frame>, root: Frame, n: nat, f: Frame, v: nat, t: nat)
    requires t <= n <= 2 && AtTable(m, used, root, n, f, v, t)
    ensures Walk(m, root, n, v) == WalkEntry(m, EntryAt(m, f, v, t), t, v)
    ensures EntryTree(m, EntryAt(m, f, v, t), t)
  {}

  lemma GrownTrans(m: Mem, used: set<Frame>, m1: Mem, used1: set<Frame>, m2: Mem, used2: set<Frame>, root: Frame, n: nat)
    requires n <= 2 && Nodes(m, root, n) <= used
    requires Grown(m, used, m1, used1, root, n) && Grown(m1, used1, m2, used2, root, n)
    ensures Grown(m, used, m2, used2, root, n)
  {}

  lemma GrownMap(m: Mem, used: set<Frame>, m1: Mem, used1: set<Frame>, m2: Mem, used2: set<Frame>,
                 root: Frame, n: nat, v: nat, t: nat, q: Pte)
    requires t <= n <= 2 && Nodes(m, root, n) <= used
    requires Grown(m, used, m1, used1, root, n) && MapEffect(m1, used1, m2, used2, root, n, v, t, q)
    ensures MapEffect(m, used, m2, used2, root, n, v, t, q)
  {}

  /** `f` is the level-`l` table on the path of page `v` in the tree of `root`. */
  ghost predicate AtTable(m: Mem, used: set<Frame>, root: Frame, n: nat, f: Frame, v: nat, l: nat)
    requires l <= n <= 2
    ensures AtTable(m, used, root, n, f, v, l) ==> IsTable(m, f)
  {
    && Tree(m, root, n) && Nodes(m, root, n) <= used
    && HasPath(m, root, n, v, l) && f == TableOn(m, root, n, v, l)
  }

  function EntryAt(m: Mem, f: Frame, v: nat, l: nat): Pte
    requires l <= 2 && IsTable(m, f)
  {
    m[f].ptes[Index(v, l)]
  }

  /** A new leaf is readable or executable, and a user leaf names a frame this tree does not map. */
  ghost predicate MayMap(m: Mem, root: Frame, n: nat, v: nat, ppn: Frame, flags: Flags)
    requires n <= 2
  {
    && (Walk(m, root, n, v).None? ==> flags.r || flags.x)
    && (flags.u ==> match Walk(m, root, n, v)
                    case None => ppn !in Users(m, root, n)
                    case Some(h) => h.pte.flags.u)
  }

  lemma GrownRefl(m: Mem, used: set<Frame>, root: Frame, n: nat)
    requires n <= 2 && Tree(m, root, n)
    ensures Grown(m, used, m, used, root, n)
  {}

  lemma Descend(m: Mem, used: set<Frame>, root: Frame, n: nat, f: Frame, v: nat, l: nat)
    requires 1 <= l <= n <= 2 && AtTable(m, used, root, n, f, v, l) && EntryAt(m, f, v, l).Pointer()
    ensures AtTable(m, used, root, n, EntryAt(m, f, v, l).ppn, v, l - 1)
  {}

  lemma AtTree(m: Mem, used: set<Frame>, root: Frame, n: nat, f: Frame, v: nat, l: nat)
    requires l <= n <= 2 && AtTable(m, used, root, n, f, v, l)
    ensures Tree(m, root, n) && Nodes(m, root, n) <= used
  {}

  lemma HangGrown(m: Mem, used: set<Frame>, root: Frame, n: nat, f: Frame, v: nat, l: nat, g: Frame)
    requires 1 <= l <= n <= 2 && AtTable(m, used, root, n, f, v, l) && !EntryAt(m, f, v, l).Valid() && g !in used
    ensures f != g
    ensures var m' := m[g := BlankTable()][f := Table(m[f].ptes[Index(v, l) := Pte(V, g)])];
            Grown(m, used, m', used + {g}, root, n) && AtTable(m', used + {g}, root, n, g, v, l - 1) && !EntryAt(m', g, v, l - 1).Valid()
  {
    hide Tree, Nodes, Users, Walk, SamePath, HasPath, TableOn, Index, BlankTable;
    var m' := m[g := BlankTable()][f := Table(m[f].ptes[Index(v, l) := Pte(V, g)])];
    PathUsers(m, root, n, v, l);
    AddTable(m, m', root, n, v, l, g);
    HangPath(m, m', root, n, v, l, g);
    assert used + {g} - used == {g};
  }

  /** The leaf `MapLeaf` writes into entry `p`. */
  function NewLeaf(p: Pte, ppn: Frame, flags: Flags): Pte {
    (if p.Valid() then p else p.(ppn := ppn)).SetFlags(flags.Or(VAD))
  }

  lemma LeafFits(m: Mem, used: set<Frame>, root: Frame, n: nat, f: Frame, v: nat, t: nat, ppn: Frame, flags: Flags)
    requires t <= n <= 2 && AtTable(m, used, root, n, f, v, t) && !EntryAt(m, f, v, t).Pointer()
    requires MayMap(m, root, n, v, ppn, flags)
    ensures var p := EntryAt(m, f, v, t);
            && Walk(m, root, n, v) == (if p.Valid() then Some(Hit(p, t)) else None)
            && (!p.Valid() ==> p == EMPTY)
    ensures var q := NewLeaf(EntryAt(m, f, v, t), ppn, flags);
            LeafPut(m, m[f := Table(m[f].ptes[Index(v, t) := q])], root, n, v, t, q)
  {}

  lemma LeafEffect(m: Mem, used: set<Frame>, root: Frame, n: nat, f: Frame, v: nat, t: nat, ppn: Frame, flags: Flags)
    requires t <= n <= 2 && AtTable(m, used, root, n, f, v, t) && !EntryAt(m, f, v, t).Pointer()
    requires MayMap(m, root, n, v, ppn, flags)
    ensures
      var q := NewLeaf(EntryAt(m, f, v, t), ppn, flags);
      var m' := m[f := Table(m[f].ptes[Index(v, t) := q])];
      q == MappedLeaf(Walk(m, root, n, v), ppn, flags) && MapEffect(m, used, m', used, root, n, v, t, q)
  {
    hide Tree, Nodes, Users, Walk, Index, HasPath, TableOn, SamePath, LeafPut;
    var q := NewLeaf(EntryAt(m, f, v, t), ppn, flags);
    var m' := m[f := Table(m[f].ptes[Index(v, t) := q])];
    LeafFits(m, used, root, n, f, v, t, ppn, flags);
    PutLeaf(m, m', root, n, v, t, q);
    PathUsers(m, root, n, v, t);
  }

  lemma {:induction false} PathEntryTree(m: Mem, f: Frame, l: nat, v: nat, t: nat)
    requires t <= l <= 2 && HasPath(m, f, l, v, t) && Tree(m, f, l)
    ensures EntryTree(m, m[TableOn(m, f, l, v, t)].ptes[Index(v, t)], t)
    decreases l
  {}
}
