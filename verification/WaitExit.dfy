/**
 The wait/exit protocol: parents, children, zombies and the reaper.
 */
module WaitExit {
  import opened Basics
  import opened Scheduler
  import opened SchedulerPlaces

  predicate Living(st: TaskState) {
    st != Zombie && st != Exited
  }

  ghost predicate ChildOf(s: Sched, p: Pid, c: Pid) {
    p in s.tasks && c in s.tasks[p].children
  }

  ghost predicate ZombieChild(s: Sched, p: Pid, c: Pid) {
    ChildOf(s, p, c) && c in s.tasks && s.tasks[c].state == Zombie
  }

  /** The parent named by a task. */
  ghost predicate ParentOf(s: Sched, c: Pid, p: Pid) {
    c in s.tasks && s.tasks[c].parent == Some(p)
  }

  /** Process ids are not reused, and a parent is older than its children. */
  ghost predicate PidsOk(s: Sched) {
    && (forall p | p in s.tasks :: p < s.nextPid)
    && (forall c: Pid, p: Pid | ParentOf(s, c, p) :: p < c)
    && (forall p | p in s.queued :: p < s.nextPid)
    && (forall p | p in s.reported :: p < s.nextPid)
  }

  /** The children a task lists are the tasks that name it as their parent and are not reaped. */
  ghost predicate KinOk(s: Sched) {
    && (forall p: Pid, c: Pid | ChildOf(s, p, c) :: ParentOf(s, c, p) && s.tasks[c].state != Exited)
    && (forall p: Pid, c: Pid | ParentOf(s, c, p) && p in s.tasks && Living(s.tasks[p].state) && s.tasks[c].state != Exited :: ChildOf(s, p, c))
    && (forall p | p in s.tasks :: NoDup(s.tasks[p].children))
    && (forall p | p in s.tasks && !Living(s.tasks[p].state) :: s.tasks[p].children == [])
  }

  /** Nobody waits who has a zombie child, and whoever has been woken has one. */
  ghost predicate WaitOk(s: Sched) {
    && s.waiting <= s.inWait <= s.tasks.Keys && s.idle !in s.inWait
    && (forall p: Pid, c: Pid | p in s.waiting :: !ZombieChild(s, p, c))
    && (forall p | p in s.inWait && p !in s.waiting :: exists c: Pid :: ZombieChild(s, p, c))
  }

  /** A task in the reaper's queue is dead, and no living parent can still report it. */
  ghost predicate ReaperOk(s: Sched) {
    && s.idle in s.tasks && Living(s.tasks[s.idle].state)
    && NoDup(s.cleanup) && NoDup(s.queued) && NoDup(s.reported)
    && (forall q | q in s.cleanup :: q in s.queued && q in s.tasks && !Living(s.tasks[q].state))
    && (forall q: Pid, p: Pid | q in s.cleanup && ParentOf(s, q, p) && s.tasks[q].state == Zombie :: p !in s.tasks)
    && (forall q | q in s.queued && q in s.tasks :: q in s.cleanup)
    && (forall q | q in s.reported && q in s.tasks :: s.tasks[q].state == Exited)
  }

  ghost predicate FamilyOk(s: Sched) {
    PidsOk(s) && KinOk(s) && WaitOk(s) && ReaperOk(s)
  }

  /** Nothing the protocol depends on changes: only who runs, sleeps or is blocked. */
  ghost predicate SameFamily(s: Sched, s': Sched) {
    && s'.idle == s.idle && s'.waiting == s.waiting && s'.inWait == s.inWait && s'.cleanup == s.cleanup
    && s'.nextPid == s.nextPid && s'.reported == s.reported && s'.queued == s.queued
    && s'.tasks.Keys == s.tasks.Keys
    && forall p | p in s.tasks ::
         && s'.tasks[p].parent == s.tasks[p].parent && s'.tasks[p].children == s.tasks[p].children
         && s'.tasks[p].exitCode == s.tasks[p].exitCode
         && (s'.tasks[p].state == s.tasks[p].state || (Living(s'.tasks[p].state) && Living(s.tasks[p].state)))
  }

  lemma SameFamilyTransitive(a: Sched, b: Sched, c: Sched)
    requires SameFamily(a, b) && SameFamily(b, c)
    ensures SameFamily(a, c)
  {}

  lemma SameFamilyOk(s: Sched, s': Sched)
    requires SameFamily(s, s') && FamilyOk(s)
    ensures FamilyOk(s')
  {
    forall p: Pid, c: Pid ensures (ChildOf(s', p, c) <==> ChildOf(s, p, c)) && (ParentOf(s', p, c) <==> ParentOf(s, p, c)) && (ZombieChild(s', p, c) <==> ZombieChild(s, p, c)) {}
    assert PidsOk(s');
    assert KinOk(s');
    forall p | p in s'.inWait && p !in s'.waiting ensures exists c: Pid :: ZombieChild(s', p, c) {
      var c :| ZombieChild(s, p, c);
      assert ZombieChild(s', p, c);
    }
  }

  /** `reap_zombie_child` finds a child exactly when there is a zombie one. */
  lemma ZombieFound(s: Sched, p: Pid)
    requires p in s.tasks
    ensures HasZombie(s, p) <==> exists c: Pid :: ZombieChild(s, p, c)
    ensures HasZombie(s, p) ==> ZombieChild(s, p, ReapedChild(s, p))
  {
    if HasZombie(s, p) {
      assert ZombieChild(s, p, ReapedChild(s, p));
    }
  }

  // ---- steps that leave the protocol alone ----

  lemma ScheduleFamily(s: Sched, now: nat)
    requires PlacedMid(s) && ReaperOk(s)
    ensures SameFamily(s, Scheduled(s, now))
  {
    hide ReaperOk, InPlace, QueuesOk, QueuedLive;
    NoStaleEntry(s);
    IdleLives(s);
    if s.runqueue != [] {
      FrontReady(s);
      SwitchFamily(s, now);
      assert Scheduled(s, now) == Switched(s, now);
    }
  }

  lemma IdleLives(s: Sched)
    requires ReaperOk(s)
    ensures s.idle in s.tasks && Living(s.tasks[s.idle].state)
  {}

  lemma FrontReady(s: Sched)
    requires PlacedMid(s) && s.runqueue != []
    ensures s.runqueue[0] in s.tasks && s.tasks[s.runqueue[0]].state == Ready
  {}

  lemma SwitchFamily(s: Sched, now: nat)
    requires s.current in s.tasks && s.runqueue != [] && s.runqueue[0] in s.tasks && s.tasks[s.runqueue[0]].state == Ready
    ensures SameFamily(s, Switched(s, now))
  {
    var m := SetState(s.(runqueue := s.runqueue[1..]), s.runqueue[0], Running);
    RequeueFamily(m);
    SameFamilyTransitive(s, m, Switched(s, now));
  }

  lemma RequeueFamily(m: Sched)
    requires m.current in m.tasks
    ensures SameFamily(m, Requeued(m))
  {}

  lemma SleepFamily(s: Sched, until: nat)
    requires Placed(s) && s.current != s.idle
    ensures SameFamily(s, PutToSleep(s, until))
  {}

  lemma IrqBlockFamily(s: Sched, irq: nat)
    requires Placed(s) && s.current != s.idle
    ensures SameFamily(s, PutOnIrq(s, irq))
  {}

  lemma IrqFamily(s: Sched, irq: nat)
    requires Placed(s)
    ensures SameFamily(s, IrqArrived(s, irq))
  {}

  lemma {:induction false} WakeFamily(s: Sched, now: nat)
    requires Placed(s)
    ensures SameFamily(s, WokenUp(s, now))
    decreases |s.sleeping|
  {
    if s.sleeping != [] && now >= s.sleeping[0].until {
      assert SameFamily(s, WokenOne(s)) by {
        assert Asleep(s, s.sleeping[0].pid);
        assert InPlace(s, s.sleeping[0].pid);
      }
      WakeOneKeeps(s);
      WakeFamily(WokenOne(s), now);
    }
  }

  // ---- fork and spawn ----

  lemma SpawnFamily(s: Sched, orphan: bool)
    requires FamilyOk(s) && s.current in s.tasks && Living(s.tasks[s.current].state)
    ensures FamilyOk(Spawned(s, orphan))
  {
    hide PidsOk, KinOk, WaitOk, ReaperOk;
    NewPid(s);
    SpawnKin(s, orphan);
    SpawnPids(s, orphan);
    SpawnWait(s, orphan);
    SpawnReaper(s, orphan);
  }

  /** A new process id is nobody's child or parent, and has no history. */
  lemma NewPid(s: Sched)
    requires FamilyOk(s)
    ensures var n := s.nextPid; n !in s.tasks && n !in s.cleanup && n !in s.queued && n !in s.reported
    ensures forall p: Pid :: !ChildOf(s, p, s.nextPid) && !ParentOf(s, p, s.nextPid)
  {}

  lemma SpawnPids(s: Sched, orphan: bool)
    requires PidsOk(s) && s.current in s.tasks
    ensures PidsOk(Spawned(s, orphan))
  {
    var s' := Spawned(s, orphan);
    forall p: Pid, c: Pid | ParentOf(s', c, p) ensures p < c {
      assert c != s.nextPid ==> ParentOf(s, c, p);
    }
  }

  lemma SpawnKin(s: Sched, orphan: bool)
    requires KinOk(s) && s.current in s.tasks && Living(s.tasks[s.current].state) && s.nextPid !in s.tasks
    requires forall p: Pid :: !ChildOf(s, p, s.nextPid) && !ParentOf(s, p, s.nextPid)
    ensures KinOk(Spawned(s, orphan))
  {
    var s' := Spawned(s, orphan);
    assert forall p: Pid :: ChildOf(s', p, s.nextPid) ==> p == s.current && !orphan by {
      assert forall p: Pid | p in s.tasks && s.nextPid in s.tasks[p].children :: ChildOf(s, p, s.nextPid);
    }
    forall p: Pid, c: Pid | ChildOf(s', p, c) ensures ParentOf(s', c, p) && s'.tasks[c].state != Exited {
      assert c != s.nextPid ==> ChildOf(s, p, c);
    }
    forall p: Pid, c: Pid | ParentOf(s', c, p) && p in s'.tasks && Living(s'.tasks[p].state) && s'.tasks[c].state != Exited ensures ChildOf(s', p, c) {
      assert c != s.nextPid ==> ParentOf(s, c, p);
    }
    assert !ChildOf(s, s.current, s.nextPid);
  }

  lemma SpawnWait(s: Sched, orphan: bool)
    requires WaitOk(s) && s.current in s.tasks && s.nextPid !in s.tasks
    ensures WaitOk(Spawned(s, orphan))
  {
    var s' := Spawned(s, orphan);
    forall p: Pid | p in s'.inWait && p !in s'.waiting ensures exists c: Pid :: ZombieChild(s', p, c) {
      var c: Pid :| ZombieChild(s, p, c);
      assert ZombieChild(s', p, c);
    }
    forall p: Pid, c: Pid | p in s'.waiting ensures !ZombieChild(s', p, c) {
      assert !ZombieChild(s, p, c);
    }
  }

  lemma SpawnReaper(s: Sched, orphan: bool)
    requires ReaperOk(s) && s.current in s.tasks && s.nextPid !in s.tasks
    requires s.nextPid !in s.cleanup && s.nextPid !in s.queued && s.nextPid !in s.reported
    requires forall p: Pid :: !ParentOf(s, p, s.nextPid)
    ensures ReaperOk(Spawned(s, orphan))
  {
    var s' := Spawned(s, orphan);
    forall q: Pid, p: Pid | q in s'.cleanup && ParentOf(s', q, p) && s'.tasks[q].state == Zombie ensures p !in s'.tasks {
      assert ParentOf(s, q, p);
    }
  }

  // ---- wait ----

  lemma WaitFamily(s: Sched)
    requires Placed(s) && FamilyOk(s) && s.current != s.idle && !HasZombie(s, s.current)
    ensures FamilyOk(PutOnWait(s))
  {
    hide PidsOk, KinOk, ReaperOk, WaitOk, HasZombie;
    var s' := PutOnWait(s);
    ZombieFound(s, s.current);
    var m := s.(tasks := s'.tasks);
    assert SameFamily(s, m) by { assert Living(s.tasks[s.current].state); }
    SameFamilyOk(s, m);
    forall c: Pid ensures !ZombieChild(m, m.current, c) { assert !ZombieChild(s, s.current, c); }
    BlockedWait(m, s');
    SameTables(m, s');
  }

  lemma SameTables(m: Sched, s': Sched)
    requires s'.tasks == m.tasks && s'.idle == m.idle && s'.nextPid == m.nextPid && s'.cleanup == m.cleanup && s'.queued == m.queued && s'.reported == m.reported
    ensures (PidsOk(m) ==> PidsOk(s')) && (KinOk(m) ==> KinOk(s')) && (ReaperOk(m) ==> ReaperOk(s'))
  {
    forall p: Pid, c: Pid ensures (ChildOf(s', p, c) <==> ChildOf(m, p, c)) && (ParentOf(s', p, c) <==> ParentOf(m, p, c)) {}
  }

  lemma BlockedWait(m: Sched, s': Sched)
    requires WaitOk(m) && m.current in m.tasks && m.current != m.idle && forall c: Pid :: !ZombieChild(m, m.current, c)
    requires s' == m.(waiting := m.waiting + {m.current}, inWait := m.inWait + {m.current})
    ensures WaitOk(s')
  {
    forall p: Pid, c: Pid ensures ZombieChild(s', p, c) <==> ZombieChild(m, p, c) {}
    forall p: Pid | p in s'.inWait && p !in s'.waiting ensures exists c: Pid :: ZombieChild(s', p, c) {
      var c: Pid :| ZombieChild(m, p, c);
      assert ZombieChild(s', p, c);
    }
  }

  // ---- reaping ----

  lemma ReapFamily(s: Sched, p: Pid)
    requires FamilyOk(s) && p in s.tasks && p !in s.inWait && HasZombie(s, p)
    ensures FamilyOk(Reaped(s, p))
  {
    hide PidsOk, KinOk, ReaperOk, WaitOk, HasZombie;
    ReapedIs(s, p);
    ReapPids(s, p);
    ReapKin(s, p);
    ReapWait(s, p);
    ReapReaper(s, p);
  }

  /** What reaping changes, task by task. */
  ghost predicate ReapsTo(s: Sched, p: Pid, c: Pid, s': Sched) {
    && p in s.tasks && c in s.tasks && c != p && s'.tasks.Keys == s.tasks.Keys
    && s'.idle == s.idle && s'.waiting == s.waiting && s'.inWait == s.inWait && s'.nextPid == s.nextPid
    && s'.cleanup == s.cleanup + [c] && s'.queued == s.queued + [c] && s'.reported == s.reported + [c]
    && s'.tasks[c] == s.tasks[c].(state := Exited)
    && s'.tasks[p] == s.tasks[p].(children := s'.tasks[p].children)
    && (forall d: Pid :: d in s'.tasks[p].children <==> d in s.tasks[p].children && d != c)
    && NoDup(s'.tasks[p].children)
    && (forall q | q in s.tasks && q != p && q != c :: s'.tasks[q] == s.tasks[q])
  }

  lemma ReapedIs(s: Sched, p: Pid)
    requires FamilyOk(s) && p in s.tasks && HasZombie(s, p)
    ensures var c := ReapedChild(s, p); ReapsTo(s, p, c, Reaped(s, p)) && ZombieChild(s, p, c) && ParentOf(s, c, p) && Living(s.tasks[p].state)
  {}

  lemma ReapPids(s: Sched, p: Pid)
    requires PidsOk(s) && p in s.tasks && HasZombie(s, p)
    requires ReapsTo(s, p, ReapedChild(s, p), Reaped(s, p))
    ensures PidsOk(Reaped(s, p))
  {
    hide HasZombie, Reaped, ReapedChild;
    var s' := Reaped(s, p);
    forall c: Pid, q: Pid | ParentOf(s', c, q) ensures q < c { assert ParentOf(s, c, q); }
  }

  /** Reaping in terms of parents and children. */
  lemma ReapView(s: Sched, p: Pid, k: Pid, s': Sched)
    requires ReapsTo(s, p, k, s')
    ensures forall q: Pid, c: Pid :: ParentOf(s', c, q) <==> ParentOf(s, c, q)
    ensures forall q: Pid, c: Pid :: ChildOf(s', q, c) <==> ChildOf(s, q, c) && !(q == p && c == k)
    ensures forall q | q in s.tasks :: s'.tasks[q].state == if q == k then Exited else s.tasks[q].state
    ensures forall q | q in s.tasks && q != p :: s'.tasks[q].children == s.tasks[q].children
  {}

  lemma ReapKin(s: Sched, p: Pid)
    requires KinOk(s) && p in s.tasks && HasZombie(s, p) && Living(s.tasks[p].state)
    requires ReapsTo(s, p, ReapedChild(s, p), Reaped(s, p)) && ParentOf(s, ReapedChild(s, p), p) && ZombieChild(s, p, ReapedChild(s, p))
    ensures KinOk(Reaped(s, p))
  {
    hide HasZombie, Reaped, ReapedChild, ReapsTo, ParentOf, ChildOf;
    var s', k := Reaped(s, p), ReapedChild(s, p);
    ReapView(s, p, k, s');
    ReapKeys(s, p, k, s');
    OneParent(s);
    forall q: Pid, c: Pid | ChildOf(s', q, c) ensures ParentOf(s', c, q) && s'.tasks[c].state != Exited {
      assert ChildOf(s, q, c);
    }
  }

  lemma ReapKeys(s: Sched, p: Pid, k: Pid, s': Sched)
    requires ReapsTo(s, p, k, s')
    ensures s'.tasks.Keys == s.tasks.Keys && NoDup(s'.tasks[p].children)
  {}

  lemma OneParent(s: Sched)
    ensures forall q: Pid, r: Pid, c: Pid | ParentOf(s, c, q) && ParentOf(s, c, r) :: q == r
    ensures forall q: Pid, c: Pid | ParentOf(s, c, q) :: c in s.tasks
    ensures forall q: Pid, c: Pid | ChildOf(s, q, c) :: q in s.tasks
  {}

  lemma ReapWait(s: Sched, p: Pid)
    requires WaitOk(s) && p in s.tasks && p !in s.inWait && HasZombie(s, p) && KinOk(s)
    requires ReapsTo(s, p, ReapedChild(s, p), Reaped(s, p)) && ParentOf(s, ReapedChild(s, p), p)
    ensures WaitOk(Reaped(s, p))
  {
    hide HasZombie, Reaped, ReapedChild;
    var s', k := Reaped(s, p), ReapedChild(s, p);
    forall q: Pid, c: Pid | q in s'.waiting ensures !ZombieChild(s', q, c) { assert !ZombieChild(s, q, c); }
    forall q: Pid | q in s'.inWait && q !in s'.waiting ensures exists c: Pid :: ZombieChild(s', q, c) {
      var c: Pid :| ZombieChild(s, q, c);
      assert ChildOf(s, q, c);
      assert ParentOf(s, c, q);
      assert ZombieChild(s', q, c);
    }
  }

  lemma ReapReaper(s: Sched, p: Pid)
    requires ReaperOk(s) && p in s.tasks && HasZombie(s, p) && Living(s.tasks[p].state)
    requires ReapsTo(s, p, ReapedChild(s, p), Reaped(s, p)) && ParentOf(s, ReapedChild(s, p), p) && ZombieChild(s, p, ReapedChild(s, p))
    ensures ReaperOk(Reaped(s, p))
  {
    hide HasZombie, Reaped, ReapedChild;
    var s', k := Reaped(s, p), ReapedChild(s, p);
    assert k !in s.cleanup && k !in s.queued && k !in s.reported;
    forall q: Pid, r: Pid | q in s'.cleanup && ParentOf(s', q, r) && s'.tasks[q].state == Zombie ensures r !in s'.tasks {
      assert ParentOf(s, q, r);
    }
  }

  // ---- exit ----

  /** The current task dies: it is a zombie without children. */
  lemma GoneFamily(s: Sched, code: int)
    requires FamilyOk(s) && s.current in s.tasks && Living(s.tasks[s.current].state) && s.current != s.idle && s.current !in s.inWait
    ensures var s' := Gone(s, code); PidsOk(s') && KinOk(s') && ReaperOk(s')
  {
    var s', me := Gone(s, code), s.current;
    assert me !in s.cleanup && me !in s.queued && me !in s.reported;
    forall p: Pid, c: Pid ensures ParentOf(s', c, p) <==> ParentOf(s, c, p) {}
    forall p: Pid, c: Pid ensures ChildOf(s', p, c) <==> ChildOf(s, p, c) && p != me {}
  }

  lemma DiedWait(s: Sched, code: int)
    requires FamilyOk(s) && Placed(s) && s.current != s.idle && s.current !in s.inWait
    ensures WaitOk(Died(s, code))
  {
    var s', me := Died(s, code), s.current;
    DiedChildren(s, code);
    forall q: Pid, c: Pid | q in s'.waiting ensures !ZombieChild(s', q, c) {
      assert !ZombieChild(s, q, c);
      assert c == me && ChildOf(s, q, c) ==> ParentOf(s, me, q);
    }
    forall q: Pid | q in s'.inWait && q !in s'.waiting ensures exists c: Pid :: ZombieChild(s', q, c) {
      if q in s.waiting {
        assert InPlace(s, q);
        assert ParentOf(s, me, q);
        assert ChildOf(s, q, me);
        assert ZombieChild(s', q, me);
      } else {
        var c: Pid :| ZombieChild(s, q, c);
        assert ZombieChild(s', q, c);
      }
    }
  }

  lemma DiedChildren(s: Sched, code: int)
    requires Placed(s) && s.current != s.idle
    ensures var s' := Died(s, code); s'.tasks.Keys == s.tasks.Keys && s'.inWait == s.inWait && s'.idle == s.idle
    ensures forall p: Pid, c: Pid :: ChildOf(Died(s, code), p, c) <==> ChildOf(s, p, c) && p != s.current
    ensures forall c: Pid | c in s.tasks :: Died(s, code).tasks[c].state == Zombie <==> s.tasks[c].state == Zombie || c == s.current
    ensures forall q: Pid | q in s.waiting && q !in Died(s, code).waiting :: ParentOf(s, s.current, q)
    ensures Died(s, code).waiting <= s.waiting
  {
    var me := s.tasks[s.current];
    assert InPlace(s, s.current);
    if me.parent.Some? && me.parent.value in s.waiting {
      assert InPlace(s, me.parent.value);
    }
  }

  lemma DiedFamily(s: Sched, code: int)
    requires FamilyOk(s) && Placed(s) && s.current != s.idle && s.current !in s.inWait
    ensures FamilyOk(Died(s, code))
  {
    hide PidsOk, KinOk, WaitOk, ReaperOk;
    assert Living(s.tasks[s.current].state);
    GoneFamily(s, code);
    DiedWait(s, code);
    DiedTables(s, code);
  }

  lemma DiedTables(s: Sched, code: int)
    requires Placed(s) && s.current != s.idle && FamilyOk(s)
    requires var g := Gone(s, code); PidsOk(g) && KinOk(g) && ReaperOk(g)
    ensures var s' := Died(s, code); PidsOk(s') && KinOk(s') && ReaperOk(s')
  {
    var g, s', me := Gone(s, code), Died(s, code), s.current;
    assert InPlace(s, me);
    var parent := s.tasks[me].parent;
    if parent.Some? && parent.value in s.tasks {
      if parent.value in s.waiting {
        assert InPlace(s, parent.value);
        RestatedTables(g, s', parent.value);
      }
    } else {
      QueuedTables(g, s', me, s);
    }
  }

  /** The woken parent's state changes from blocked to ready. */
  lemma RestatedTables(g: Sched, s': Sched, p: Pid)
    requires PidsOk(g) && KinOk(g) && ReaperOk(g) && p in g.tasks && g.tasks[p].state == Blocked
    requires s' == Enqueued(g.(waiting := g.waiting - {p}), p)
    ensures PidsOk(s') && KinOk(s') && ReaperOk(s')
  {
    forall q: Pid, c: Pid ensures (ParentOf(s', c, q) <==> ParentOf(g, c, q)) && (ChildOf(s', q, c) <==> ChildOf(g, q, c)) {}
  }

  /** A zombie with no parent in the table goes to the reaper. */
  lemma QueuedTables(g: Sched, s': Sched, me: Pid, s: Sched)
    requires PidsOk(g) && KinOk(g) && ReaperOk(g) && me in g.tasks && g.tasks[me].state == Zombie
    requires g.tasks[me].parent.None? || g.tasks[me].parent.value !in g.tasks
    requires ReaperOk(s) && me in s.tasks && Living(s.tasks[me].state) && g.cleanup == s.cleanup && g.queued == s.queued
    requires s' == g.(cleanup := g.cleanup + [me], queued := g.queued + [me])
    ensures PidsOk(s') && KinOk(s') && ReaperOk(s')
  {
    assert me !in g.queued;
    forall q: Pid, c: Pid ensures (ParentOf(s', c, q) <==> ParentOf(g, c, q)) && (ChildOf(s', q, c) <==> ChildOf(g, q, c)) {}
  }

  // ---- the reaper ----

  lemma CleanFamily(s: Sched)
    requires FamilyOk(s) && Placed(s) && s.cleanup != [] && s.current != s.idle
    ensures FamilyOk(Cleaned(s)) && s.cleanup[0] != s.current && s.cleanup[0] != s.idle
  {
    var s', z := Cleaned(s), s.cleanup[0];
    assert z in s.cleanup && z in s.tasks && !Living(s.tasks[z].state);
    CleanNobody(s);
    forall q: Pid, c: Pid ensures ParentOf(s', c, q) <==> ParentOf(s, c, q) && c != z {}
    forall q: Pid, c: Pid ensures ChildOf(s', q, c) <==> ChildOf(s, q, c) && q != z {}
    CleanWait(s);
    CleanKin(s);
    CleanReaper(s);
  }

  lemma CleanNobody(s: Sched)
    requires FamilyOk(s) && Placed(s) && s.cleanup != []
    ensures var z := s.cleanup[0]; z !in s.inWait && forall q: Pid :: !ChildOf(s, q, z)
  {}

  lemma CleanWait(s: Sched)
    requires WaitOk(s) && s.cleanup != [] && s.cleanup[0] !in s.inWait && forall q: Pid :: !ChildOf(s, q, s.cleanup[0])
    ensures WaitOk(Cleaned(s))
  {
    var s' := Cleaned(s);
    forall q: Pid, c: Pid | q in s'.waiting ensures !ZombieChild(s', q, c) { assert !ZombieChild(s, q, c); }
    forall q: Pid | q in s'.inWait && q !in s'.waiting ensures exists c: Pid :: ZombieChild(s', q, c) {
      var c: Pid :| ZombieChild(s, q, c);
      assert ChildOf(s, q, c);
      assert ZombieChild(s', q, c);
    }
  }

  lemma CleanKin(s: Sched)
    requires PidsOk(s) && KinOk(s) && s.cleanup != [] && forall q: Pid :: !ChildOf(s, q, s.cleanup[0])
    ensures PidsOk(Cleaned(s)) && KinOk(Cleaned(s))
  {
    var s', z := Cleaned(s), s.cleanup[0];
    forall q: Pid, c: Pid ensures ParentOf(s', c, q) <==> ParentOf(s, c, q) && c != z {}
    forall q: Pid, c: Pid ensures ChildOf(s', q, c) <==> ChildOf(s, q, c) && q != z {}
  }

  lemma CleanReaper(s: Sched)
    requires ReaperOk(s) && s.cleanup != [] && s.cleanup[0] != s.idle
    ensures ReaperOk(Cleaned(s))
  {}
}
