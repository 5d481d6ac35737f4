/**
 The inode cache under interleaved lookups, changes and creations.  A lookup checks the cache under
 its lock, reads the disk without the lock, then publishes under the lock again; any number of
 threads may be anywhere in this.  A thread that holds an inode's write lock changes its record on
 disk first and in memory afterwards, unless the device reports an error in between.  A creation marks a number in the bitmap, writes its record,
 caches its inode, and only then lets go of the parent directory, so that lookups can name it.
 */
module InodeCache {
  import opened VsfsDisk

  type Thread = nat
  /** Identity of an in-memory inode. */
  type Handle = nat

  datatype Pc =
    | Idle
      /** The cache was checked and had nothing. */
    | Missed(inum: nat)
      /** The record was read from disk. */
    | Loaded(inum: nat, copy: INode)
      /** The lookup returned this in-memory inode. */
    | Got(inum: nat, handle: Handle)
      /** Under the inode's write lock: the disk has the new record, memory has the old one. */
    | Writing(inum: nat, handle: Handle, ino: INode)
      /** Creating: the number is marked and nothing names it. */
    | Reserved(inum: nat)
      /** Creating: the record is on disk. */
    | Recorded(inum: nat, ino: INode)
      /** Creating: the inode is in the cache, the parent directory is still locked. */
    | Cached(inum: nat, handle: Handle)

  datatype State = State(
    disk: map<nat, INode>,
    /** Inode numbers marked in the bitmap. */
    marked: set<nat>,
    /** Inode numbers that an entry of a directory names, as lookups see it. */
    linked: set<nat>,
    cache: map<nat, Handle>,
    /** The in-memory inodes that exist. */
    inodes: map<Handle, INode>,
    threads: map<Thread, Pc>,
    /** Inodes whose last change on disk was reported as failed. */
    failed: set<nat>
  )

  ghost function Moved(s: State, t: Thread, pc: Pc): State {
    s.(threads := s.threads[t := pc])
  }

  // ---- steps ----

  ghost predicate Check(s: State, s': State, t: Thread, inum: nat) {
    && t in s.threads && s.threads[t] == Idle && inum in s.linked
    && s' == Moved(s, t, if inum in s.cache then Got(inum, s.cache[inum]) else Missed(inum))
  }

  ghost predicate Load(s: State, s': State, t: Thread) {
    && t in s.threads && s.threads[t].Missed? && s.threads[t].inum in s.disk
    && s' == Moved(s, t, Loaded(s.threads[t].inum, s.disk[s.threads[t].inum]))
  }

  /** The disk read failed. */
  ghost predicate Fail(s: State, s': State, t: Thread) {
    t in s.threads && s.threads[t].Missed? && s' == Moved(s, t, Idle)
  }

  /** Inserts the copy just read, under a fresh handle, unless another thread was first. */
  ghost predicate Publish(s: State, s': State, t: Thread, h: Handle) {
    && t in s.threads && s.threads[t].Loaded? && h !in s.inodes
    && var inum := s.threads[t].inum;
    if inum in s.cache then s' == Moved(s, t, Got(inum, s.cache[inum]))
    else s' == Moved(s, t, Got(inum, h)).(cache := s.cache[inum := h], inodes := s.inodes[h := s.threads[t].copy])
  }

  /** Some thread is between the disk and the memory half of a change of this inode. */
  ghost predicate BeingWritten(s: State, inum: nat) {
    exists t :: t in s.threads && s.threads[t].Writing? && s.threads[t].inum == inum
  }

  /** A thread that holds an inode takes its write lock and writes the new record to disk. */
  ghost predicate ChangeDisk(s: State, s': State, t: Thread, ino: INode) {
    && t in s.threads && s.threads[t].Got? && !BeingWritten(s, s.threads[t].inum)
    && s' == Moved(s, t, Writing(s.threads[t].inum, s.threads[t].handle, ino)).(disk := s.disk[s.threads[t].inum := ino])
  }

  /** It updates the inode in memory and lets go of the lock. */
  ghost predicate ChangeMemory(s: State, s': State, t: Thread) {
    && t in s.threads && s.threads[t].Writing?
    && s' == Moved(s, t, Got(s.threads[t].inum, s.threads[t].handle))
             .(inodes := s.inodes[s.threads[t].handle := s.threads[t].ino], failed := s.failed - {s.threads[t].inum})
  }

  /** The device reported an error: the inode in memory stays as it was, and on disk is what the writes left. */
  ghost predicate ChangeFails(s: State, s': State, t: Thread, left: INode) {
    && t in s.threads && s.threads[t].Writing?
    && s' == Moved(s, t, Got(s.threads[t].inum, s.threads[t].handle))
             .(disk := s.disk[s.threads[t].inum := left], failed := s.failed + {s.threads[t].inum})
  }

  /** A creation takes a number that is clear in the bitmap. */
  ghost predicate Reserve(s: State, s': State, t: Thread, inum: nat) {
    && t in s.threads && s.threads[t] == Idle && inum !in s.marked
    && s' == Moved(s, t, Reserved(inum)).(marked := s.marked + {inum})
  }

  ghost predicate Record(s: State, s': State, t: Thread, ino: INode) {
    && t in s.threads && s.threads[t].Reserved?
    && s' == Moved(s, t, Recorded(s.threads[t].inum, ino)).(disk := s.disk[s.threads[t].inum := ino])
  }

  /** A creation fails: the number is given back or leaked. */
  ghost predicate Abandon(s: State, s': State, t: Thread, freed: bool) {
    && t in s.threads && (s.threads[t].Reserved? || s.threads[t].Recorded?)
    && s' == Moved(s, t, Idle).(marked := if freed then s.marked - {s.threads[t].inum} else s.marked)
  }

  ghost predicate Insert(s: State, s': State, t: Thread, h: Handle) {
    && t in s.threads && s.threads[t].Recorded? && h !in s.inodes
    && s' == Moved(s, t, Cached(s.threads[t].inum, h)).(cache := s.cache[s.threads[t].inum := h], inodes := s.inodes[h := s.threads[t].ino])
  }

  /** The parent directory is unlocked: lookups see the new entry. */
  ghost predicate Link(s: State, s': State, t: Thread) {
    && t in s.threads && s.threads[t].Cached?
    && s' == Moved(s, t, Got(s.threads[t].inum, s.threads[t].handle)).(linked := s.linked + {s.threads[t].inum})
  }

  ghost predicate Release(s: State, s': State, t: Thread) {
    t in s.threads && s.threads[t].Got? && s' == Moved(s, t, Idle)
  }

  ghost predicate Spawn(s: State, s': State, t: Thread) {
    t !in s.threads && s' == Moved(s, t, Idle)
  }

  datatype Action =
    | Checks(t: Thread, inum: nat) | Loads(t: Thread) | Fails(t: Thread) | Publishes(t: Thread, h: Handle)
    | ChangesDisk(t: Thread, ino: INode) | ChangesMemory(t: Thread) | FailsToChange(t: Thread, left: INode)
    | Reserves(t: Thread, inum: nat) | Records(t: Thread, ino: INode) | Abandons(t: Thread, freed: bool) | Inserts(t: Thread, h: Handle) | Links(t: Thread)
    | Releases(t: Thread) | Spawns(t: Thread)

  ghost predicate By(s: State, s': State, a: Action) {
    match a
    case Checks(t, inum) => Check(s, s', t, inum)
    case Loads(t) => Load(s, s', t)
    case Fails(t) => Fail(s, s', t)
    case Publishes(t, h) => Publish(s, s', t, h)
    case ChangesDisk(t, ino) => ChangeDisk(s, s', t, ino)
    case ChangesMemory(t) => ChangeMemory(s, s', t)
    case FailsToChange(t, left) => ChangeFails(s, s', t, left)
    case Reserves(t, inum) => Reserve(s, s', t, inum)
    case Records(t, ino) => Record(s, s', t, ino)
    case Abandons(t, freed) => Abandon(s, s', t, freed)
    case Inserts(t, h) => Insert(s, s', t, h)
    case Links(t) => Link(s, s', t)
    case Releases(t) => Release(s, s', t)
    case Spawns(t) => Spawn(s, s', t)
  }

  ghost predicate Next(s: State, s': State) {
    exists a :: By(s, s', a)
  }

  // ---- the invariant ----

  predicate Creating(pc: Pc) {
    pc.Reserved? || pc.Recorded? || pc.Cached?
  }

  /** What a thread knows fits the cache and the disk. */
  ghost predicate PcOk(s: State, pc: Pc) {
    match pc
    case Idle => true
    case Missed(inum) => inum in s.linked
    case Loaded(inum, copy) => inum in s.linked && (inum !in s.cache ==> inum in s.disk && copy == s.disk[inum])
    case Got(inum, h) => inum in s.linked && inum in s.cache && s.cache[inum] == h
    case Writing(inum, h, ino) => inum in s.linked && inum in s.cache && s.cache[inum] == h && inum in s.disk && s.disk[inum] == ino
    case Reserved(inum) => inum in s.marked && inum !in s.linked && inum !in s.cache
    case Recorded(inum, ino) => inum in s.marked && inum !in s.linked && inum !in s.cache && inum in s.disk && s.disk[inum] == ino
    case Cached(inum, h) => inum in s.marked && inum !in s.linked && inum in s.cache && s.cache[inum] == h
  }

  /** No two threads create the same number, or write the same inode. */
  ghost predicate Exclusive(pc: Pc, other: Pc) {
    && (Creating(pc) && Creating(other) ==> pc.inum != other.inum)
    && (pc.Writing? && other.Writing? ==> pc.inum != other.inum)
  }

  /** The inode in memory is the record on disk, except while it is being written and after a change that failed. */
  ghost predicate Agrees(s: State, inum: nat)
    requires inum in s.cache
  {
    && s.cache[inum] in s.inodes && inum in s.disk
    && (s.inodes[s.cache[inum]] == s.disk[inum] || BeingWritten(s, inum) || inum in s.failed)
  }

  ghost predicate Inv(s: State) {
    && s.cache.Keys <= s.marked && s.linked <= s.marked && s.linked <= s.disk.Keys && s.failed <= s.cache.Keys
    && (forall i | i in s.cache :: Agrees(s, i))
    && (forall i, j | i in s.cache && j in s.cache && i != j :: s.cache[i] != s.cache[j])
    && (forall t | t in s.threads :: PcOk(s, s.threads[t]))
    && (forall t, u | t in s.threads && u in s.threads && t != u :: Exclusive(s.threads[t], s.threads[u]))
  }

  /** A move of one thread that is not creating or writing, before or after. */
  lemma MoveKeeps(s: State, s': State, t: Thread, pc: Pc)
    requires Inv(s) && s' == Moved(s, t, pc) && PcOk(s, pc) && !Creating(pc) && !pc.Writing?
    requires t in s.threads ==> !s.threads[t].Writing?
    ensures Inv(s')
  {
    StillWritten(s, s', t);
  }

  /** A move of one thread does not end the writing of another. */
  lemma StillWritten(s: State, s': State, t: Thread)
    requires s'.threads.Keys == s.threads.Keys + {t} && forall u | u in s.threads && u != t :: s'.threads[u] == s.threads[u]
    ensures forall i | BeingWritten(s, i) && !(t in s.threads && s.threads[t].Writing? && s.threads[t].inum == i) :: BeingWritten(s', i)
  {
    forall i | BeingWritten(s, i) && !(t in s.threads && s.threads[t].Writing? && s.threads[t].inum == i) ensures BeingWritten(s', i) {
      var u :| u in s.threads && s.threads[u].Writing? && s.threads[u].inum == i;
      assert u in s'.threads && s'.threads[u].Writing? && s'.threads[u].inum == i;
    }
  }

  lemma PublishKeeps(s: State, s': State, t: Thread, h: Handle)
    requires Inv(s) && Publish(s, s', t, h)
    ensures Inv(s')
  {
    hide BeingWritten;
    var inum := s.threads[t].inum;
    assert PcOk(s, s.threads[t]);
    if inum in s.cache {
      MoveKeeps(s, s', t, Got(inum, s.cache[inum]));
    } else {
      StillWritten(s, s', t);
      forall i | i in s'.cache ensures Agrees(s', i) { if i != inum { assert Agrees(s, i); } }
      forall u | u in s'.threads ensures PcOk(s', s'.threads[u]) { if u != t { assert PcOk(s, s.threads[u]); } }
      forall u, w | u in s'.threads && w in s'.threads && u != w ensures Exclusive(s'.threads[u], s'.threads[w]) {
        assert Exclusive(s.threads[u], s.threads[w]);
      }
    }
  }

  lemma ChangeDiskKeeps(s: State, s': State, t: Thread, ino: INode)
    requires Inv(s) && ChangeDisk(s, s', t, ino)
    ensures Inv(s')
  {
    assert PcOk(s, s.threads[t]);
    StillWritten(s, s', t);
    assert s'.threads[t].Writing? && BeingWritten(s', s'.threads[t].inum);
    NotWritten(s, s.threads[t].inum);
    hide BeingWritten;
    forall i | i in s'.cache ensures Agrees(s', i) { assert Agrees(s, i); }
    forall u | u in s'.threads ensures PcOk(s', s'.threads[u]) { if u != t { assert PcOk(s, s.threads[u]); } }
    forall u, w | u in s'.threads && w in s'.threads && u != w ensures Exclusive(s'.threads[u], s'.threads[w]) {
      assert Exclusive(s.threads[u], s.threads[w]);
    }
  }

  lemma NotWritten(s: State, inum: nat)
    requires !BeingWritten(s, inum)
    ensures forall u | u in s.threads && s.threads[u].Writing? :: s.threads[u].inum != inum
  {}

  lemma ChangeMemoryKeeps(s: State, s': State, t: Thread)
    requires Inv(s) && ChangeMemory(s, s', t)
    ensures Inv(s')
  {
    hide BeingWritten;
    var inum := s.threads[t].inum;
    assert PcOk(s, s.threads[t]) && Agrees(s, inum);
    StillWritten(s, s', t);
    forall i | i in s'.cache ensures Agrees(s', i) { assert Agrees(s, i); }
    forall u | u in s'.threads ensures PcOk(s', s'.threads[u]) { if u != t { assert PcOk(s, s.threads[u]); } }
    forall u, w | u in s'.threads && w in s'.threads && u != w ensures Exclusive(s'.threads[u], s'.threads[w]) {
      assert Exclusive(s.threads[u], s.threads[w]);
    }
  }

  lemma ChangeFailsKeeps(s: State, s': State, t: Thread, left: INode)
    requires Inv(s) && ChangeFails(s, s', t, left)
    ensures Inv(s')
  {
    hide BeingWritten;
    var inum := s.threads[t].inum;
    assert PcOk(s, s.threads[t]) && Agrees(s, inum);
    StillWritten(s, s', t);
    forall i | i in s'.cache ensures Agrees(s', i) { assert Agrees(s, i); }
    forall u | u in s'.threads ensures PcOk(s', s'.threads[u]) {
      if u != t { assert PcOk(s, s.threads[u]) && Exclusive(s.threads[t], s.threads[u]); }
    }
    forall u, w | u in s'.threads && w in s'.threads && u != w ensures Exclusive(s'.threads[u], s'.threads[w]) {
      assert Exclusive(s.threads[u], s.threads[w]);
    }
  }

  /** After a change that failed, memory and disk agree if and only if the old record is on disk again. */
  lemma FailureExact(s: State, s': State, t: Thread, left: INode)
    requires Inv(s) && ChangeFails(s, s', t, left)
    ensures var inum, h := s.threads[t].inum, s.threads[t].handle;
            && inum in s'.cache && s'.cache[inum] == h && h in s'.inodes && h in s.inodes && inum in s'.disk
            && (s'.inodes[h] == s'.disk[inum] <==> left == s.inodes[h])
  {
    assert PcOk(s, s.threads[t]) && Agrees(s, s.threads[t].inum);
  }

  lemma ReserveKeeps(s: State, s': State, t: Thread, inum: nat)
    requires Inv(s) && Reserve(s, s', t, inum)
    ensures Inv(s')
  {
    hide BeingWritten;
    StillWritten(s, s', t);
    forall u | u in s.threads ensures Creating(s.threads[u]) ==> s.threads[u].inum != inum { assert PcOk(s, s.threads[u]); }
    forall i | i in s'.cache ensures Agrees(s', i) { assert Agrees(s, i); }
  }

  lemma RecordKeeps(s: State, s': State, t: Thread, ino: INode)
    requires Inv(s) && Record(s, s', t, ino)
    ensures Inv(s')
  {
    hide BeingWritten;
    assert PcOk(s, s.threads[t]);
    StillWritten(s, s', t);
    forall i | i in s'.cache ensures Agrees(s', i) { assert Agrees(s, i); }
    forall u | u in s'.threads ensures PcOk(s', s'.threads[u]) {
      if u != t { assert PcOk(s, s.threads[u]) && Exclusive(s.threads[t], s.threads[u]); }
    }
  }

  lemma AbandonKeeps(s: State, s': State, t: Thread, freed: bool)
    requires Inv(s) && Abandon(s, s', t, freed)
    ensures Inv(s')
  {
    hide BeingWritten;
    assert PcOk(s, s.threads[t]);
    StillWritten(s, s', t);
    forall i | i in s'.cache ensures Agrees(s', i) { assert Agrees(s, i); }
    forall u | u in s'.threads ensures PcOk(s', s'.threads[u]) {
      if u != t { assert PcOk(s, s.threads[u]) && Exclusive(s.threads[t], s.threads[u]); }
    }
  }

  lemma InsertKeeps(s: State, s': State, t: Thread, h: Handle)
    requires Inv(s) && Insert(s, s', t, h)
    ensures Inv(s')
  {
    hide BeingWritten;
    assert PcOk(s, s.threads[t]);
    StillWritten(s, s', t);
    forall i | i in s'.cache ensures Agrees(s', i) { if i != s.threads[t].inum { assert Agrees(s, i); } }
    forall u | u in s'.threads ensures PcOk(s', s'.threads[u]) {
      if u != t { assert PcOk(s, s.threads[u]) && Exclusive(s.threads[t], s.threads[u]); }
    }
    forall u, w | u in s'.threads && w in s'.threads && u != w ensures Exclusive(s'.threads[u], s'.threads[w]) {
      assert Exclusive(s.threads[u], s.threads[w]);
    }
  }

  lemma LinkKeeps(s: State, s': State, t: Thread)
    requires Inv(s) && Link(s, s', t)
    ensures Inv(s')
  {
    hide BeingWritten;
    assert PcOk(s, s.threads[t]) && Agrees(s, s.threads[t].inum);
    StillWritten(s, s', t);
    forall i | i in s'.cache ensures Agrees(s', i) { assert Agrees(s, i); }
    forall u | u in s'.threads ensures PcOk(s', s'.threads[u]) {
      if u != t { assert PcOk(s, s.threads[u]) && Exclusive(s.threads[t], s.threads[u]); }
    }
  }

  /** Every step of every thread keeps the invariant. */
  lemma NextKeeps(s: State, s': State)
    requires Inv(s) && Next(s, s')
    ensures Inv(s')
  {
    hide Inv;
    var a :| By(s, s', a);
    match a
    case Checks(t, inum) => CheckKeeps(s, s', t, inum);
    case Loads(t) => LoadKeeps(s, s', t);
    case Fails(t) => MoveKeeps(s, s', t, Idle);
    case Publishes(t, h) => PublishKeeps(s, s', t, h);
    case ChangesDisk(t, ino) => ChangeDiskKeeps(s, s', t, ino);
    case ChangesMemory(t) => ChangeMemoryKeeps(s, s', t);
    case FailsToChange(t, left) => ChangeFailsKeeps(s, s', t, left);
    case Reserves(t, inum) => ReserveKeeps(s, s', t, inum);
    case Records(t, ino) => RecordKeeps(s, s', t, ino);
    case Abandons(t, freed) => AbandonKeeps(s, s', t, freed);
    case Inserts(t, h) => InsertKeeps(s, s', t, h);
    case Links(t) => LinkKeeps(s, s', t);
    case Releases(t) => MoveKeeps(s, s', t, Idle);
    case Spawns(t) => MoveKeeps(s, s', t, Idle);
  }

  lemma CheckKeeps(s: State, s': State, t: Thread, inum: nat)
    requires Inv(s) && Check(s, s', t, inum)
    ensures Inv(s')
  {
    MoveKeeps(s, s', t, if inum in s.cache then Got(inum, s.cache[inum]) else Missed(inum));
  }

  lemma LoadKeeps(s: State, s': State, t: Thread)
    requires Inv(s) && Load(s, s', t)
    ensures Inv(s')
  {
    assert PcOk(s, s.threads[t]);
    MoveKeeps(s, s', t, s'.threads[t]);
  }

  // ---- runs ----

  ghost predicate Run(ss: seq<State>) {
    ss != [] && forall k | 0 <= k < |ss| - 1 :: Next(ss[k], ss[k + 1])
  }

  lemma {:induction false} RunKeeps(ss: seq<State>, k: nat)
    requires Run(ss) && Inv(ss[0]) && k < |ss|
    ensures Inv(ss[k])
    decreases k
  {
    hide Next, Inv;
    if k > 0 {
      RunKeeps(ss, k - 1);
      assert Next(ss[k - 1], ss[k - 1 + 1]);
      NextKeeps(ss[k - 1], ss[k]);
    }
  }

  /** What never leaves the cache: an entry stays with its handle. */
  lemma NextKeepsEntries(s: State, s': State, inum: nat)
    requires Inv(s) && Next(s, s') && inum in s.cache
    ensures inum in s'.cache && s'.cache[inum] == s.cache[inum]
  {
    var a :| By(s, s', a);
    if a.Inserts? { assert PcOk(s, s.threads[a.t]); }
  }

  lemma {:induction false} RunKeepsEntries(ss: seq<State>, k: nat, l: nat, inum: nat)
    requires Run(ss) && Inv(ss[0]) && k <= l < |ss| && inum in ss[k].cache
    ensures inum in ss[l].cache && ss[l].cache[inum] == ss[k].cache[inum]
    decreases l
  {
    hide Next, Inv;
    if k < l {
      RunKeepsEntries(ss, k, l - 1, inum);
      RunKeeps(ss, l - 1);
      assert Next(ss[l - 1], ss[l - 1 + 1]);
      NextKeepsEntries(ss[l - 1], ss[l], inum);
    }
  }

  /** The thread holds an in-memory inode. */
  predicate Holds(pc: Pc) {
    pc.Got? || pc.Writing? || pc.Cached?
  }

  /** At any two moments of a run, any two threads that hold an inode of the same number hold the same one. */
  lemma OneHandle(ss: seq<State>, k: nat, l: nat, t: Thread, u: Thread)
    requires Run(ss) && Inv(ss[0]) && k <= l < |ss|
    requires t in ss[k].threads && Holds(ss[k].threads[t]) && u in ss[l].threads && Holds(ss[l].threads[u])
    requires ss[k].threads[t].inum == ss[l].threads[u].inum
    ensures ss[k].threads[t].handle == ss[l].threads[u].handle
  {
    RunKeeps(ss, k);
    RunKeeps(ss, l);
    assert PcOk(ss[k], ss[k].threads[t]) && PcOk(ss[l], ss[l].threads[u]);
    hide Run, Next, Inv;
    RunKeepsEntries(ss, k, l, ss[k].threads[t].inum);
  }

  /** An inode that nobody is writing and whose last change did not fail is in memory what it is on disk. */
  lemma MemoryIsDisk(ss: seq<State>, k: nat, t: Thread)
    requires Run(ss) && Inv(ss[0]) && k < |ss| && t in ss[k].threads && Holds(ss[k].threads[t])
    requires !BeingWritten(ss[k], ss[k].threads[t].inum) && ss[k].threads[t].inum !in ss[k].failed
    ensures var s, pc := ss[k], ss[k].threads[t];
            pc.handle in s.inodes && pc.inum in s.disk && s.inodes[pc.handle] == s.disk[pc.inum]
  {
    RunKeeps(ss, k);
    assert PcOk(ss[k], ss[k].threads[t]) && Agrees(ss[k], ss[k].threads[t].inum);
  }

  /** A copy that gets inserted is what the disk holds at that moment: a stale one never is. */
  lemma NoStaleInsert(ss: seq<State>, k: nat, t: Thread, h: Handle)
    requires Run(ss) && Inv(ss[0]) && k + 1 < |ss| && Publish(ss[k], ss[k + 1], t, h)
    requires ss[k].threads[t].inum !in ss[k].cache
    ensures var inum := ss[k].threads[t].inum;
            inum in ss[k].disk && inum in ss[k + 1].cache && ss[k + 1].cache[inum] in ss[k + 1].inodes
            && ss[k + 1].inodes[ss[k + 1].cache[inum]] == ss[k].disk[inum]
  {
    RunKeeps(ss, k);
    assert PcOk(ss[k], ss[k].threads[t]);
  }
}
