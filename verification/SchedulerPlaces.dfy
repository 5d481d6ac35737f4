/**
 Every step of the scheduler keeps every task in the one place its state names, and the runqueue is
 first in, first out.
 */
module SchedulerPlaces {
  import opened Scheduler

  /** Task `q` is in the same places. */
  ghost predicate SamePlaces(s: Sched, s': Sched, q: Pid) {
    && (q in s'.runqueue <==> q in s.runqueue)
    && (Asleep(s', q) <==> Asleep(s, q))
    && (OnIrq(s', q) <==> OnIrq(s, q))
    && (q in s'.waiting <==> q in s.waiting)
  }

  /** If only task `p` moves, and to its proper place, everything stays in place. */
  lemma OneMoves(s: Sched, s': Sched, p: Pid)
    requires PlacedMid(s) && QueuesOk(s') && QueuedLive(s')
    requires s'.idle == s.idle && s'.current == s.current && s'.current !in s'.runqueue
    requires s'.tasks.Keys == s.tasks.Keys && p in s.tasks && InPlace(s', p)
    requires forall q | q in s.tasks && q != p :: s'.tasks[q].state == s.tasks[q].state && SamePlaces(s, s', q)
    ensures PlacedMid(s')
  {}

  lemma Inserted(q: seq<SleepNode>, n: SleepNode) returns (k: nat)
    requires forall i, j | 0 <= i < j < |q| :: q[i].until <= q[j].until
    ensures k <= |q| && InsertNode(q, n) == q[..k] + [n] + q[k..]
    ensures forall i | 0 <= i < k :: q[i].until <= n.until
    ensures forall i | k <= i < |q| :: n.until <= q[i].until
  {
    if q != [] && q[0].until <= n.until {
      k := Inserted(q[1..], n);
      k := k + 1;
      assert q[..k] == [q[0]] + q[1..][..k - 1];
      assert q[k..] == q[1..][k - 1..];
      forall i | 0 <= i < k ensures q[i].until <= n.until {
        assert i > 0 ==> q[i] == q[1..][i - 1];
      }
      forall i | k <= i < |q| ensures n.until <= q[i].until {
        assert q[i] == q[1..][i - 1];
      }
    } else {
      k := 0;
    }
  }

  // ---- schedule ----

  /** The state after `schedule` took the first task off the runqueue. */
  function Switched(s: Sched, now: nat): Sched
    requires s.runqueue != [] && s.runqueue[0] in s.tasks && s.current in s.tasks
  {
    var n := s.runqueue[0];
    Requeued(SetState(s.(runqueue := s.runqueue[1..]), n, Running)).(current := n, lastEntrance := now)
  }

  lemma SwitchQueues(s: Sched, now: nat)
    requires PlacedMid(s) && s.runqueue != [] && s.runqueue[0] in s.tasks
    ensures var s' := Switched(s, now); QueuesOk(s') && QueuedLive(s') && s'.current !in s'.runqueue
  {}

  lemma SwitchPlace(s: Sched, now: nat, q: Pid)
    requires PlacedMid(s) && s.runqueue != [] && s.runqueue[0] in s.tasks && q in s.tasks && q != s.idle
    ensures InPlace(Switched(s, now), q)
  {}

  /** `schedule` leaves every task in place, and the task at the front of the queue running. */
  lemma ScheduleKeeps(s: Sched, now: nat)
    requires PlacedMid(s)
    ensures Placed(Scheduled(s, now))
    ensures s.runqueue != [] ==> Scheduled(s, now).current == s.runqueue[0]
  {
    hide QueuesOk, QueuedLive, InPlace, Requeued;
    NoStaleEntry(s);
    if s.runqueue != [] {
      assert s.runqueue[0] in s.tasks by { FrontLive(s); }
      SwitchQueues(s, now);
      var s' := Switched(s, now);
      assert Scheduled(s, now) == s';
      forall q | q in s'.tasks && q != s'.idle ensures InPlace(s', q) { SwitchKeys(s, now); SwitchPlace(s, now, q); }
      SwitchKeys(s, now);
    } else {
      IdleKeeps(s, now);
    }
  }

  lemma FrontLive(s: Sched)
    requires PlacedMid(s) && s.runqueue != []
    ensures s.runqueue[0] in s.tasks && s.runqueue[0] != s.idle
  {}

  lemma SwitchKeys(s: Sched, now: nat)
    requires s.runqueue != [] && s.runqueue[0] in s.tasks && s.current in s.tasks && s.current != s.runqueue[0]
    ensures var s' := Switched(s, now); s'.tasks.Keys == s.tasks.Keys && s'.idle == s.idle
    ensures Switched(s, now).tasks[s.runqueue[0]].state == Running
  {}

  lemma IdleKeeps(s: Sched, now: nat)
    requires PlacedMid(s) && s.runqueue == []
    ensures Placed(Scheduled(s, now))
  {
    var s' := Scheduled(s, now);
    forall q | q in s'.tasks && q != s'.idle ensures InPlace(s', q) {
      assert InPlace(s, q);
      assert Asleep(s', q) <==> Asleep(s, q);
      assert OnIrq(s', q) <==> OnIrq(s, q);
    }
  }

  // ---- what a step does before `schedule` ----

  /** A running or woken task goes to sleep: the node goes in sleep order. */
  lemma SleepKeeps(s: Sched, until: nat)
    requires Placed(s) && s.current != s.idle
    ensures PlacedMid(PutToSleep(s, until))
  {
    var s' := PutToSleep(s, until);
    var p := s.current;
    assert InPlace(s, p);
    var k := Inserted(s.sleeping, SleepNode(until, p));
    SleepQueues(s, s', until, k);
    assert s'.sleeping[k].pid == p;
    assert OnIrq(s', p) <==> OnIrq(s, p);
    forall q | q in s.tasks && q != p ensures SamePlaces(s, s', q) { SleepSame(s, s', until, k, q); }
    OneMoves(s, s', p);
  }

  lemma SleepQueues(s: Sched, s': Sched, until: nat, k: nat)
    requires Placed(s) && s.current != s.idle && !Asleep(s, s.current) && s' == PutToSleep(s, until)
    requires k <= |s.sleeping| && s'.sleeping == s.sleeping[..k] + [SleepNode(until, s.current)] + s.sleeping[k..]
    requires forall i | 0 <= i < k :: s.sleeping[i].until <= until
    requires forall i | k <= i < |s.sleeping| :: until <= s.sleeping[i].until
    ensures QueuesOk(s') && QueuedLive(s')
  {
    hide InPlace;
    assert s'.runqueue == s.runqueue && s'.irqWait == s.irqWait && s'.waiting == s.waiting && s'.tasks.Keys == s.tasks.Keys;
    SleepOrder(s.sleeping, s'.sleeping, SleepNode(until, s.current), k);
    SleepLive(s, s', SleepNode(until, s.current), k);
    hide QueuedLive;
  }

  lemma SleepLive(s: Sched, s': Sched, n: SleepNode, k: nat)
    requires QueuedLive(s) && n.pid in s.tasks && n.pid != s.idle && k <= |s.sleeping| && s'.sleeping == s.sleeping[..k] + [n] + s.sleeping[k..]
    requires s'.runqueue == s.runqueue && s'.irqWait == s.irqWait && s'.waiting == s.waiting && s'.tasks.Keys == s.tasks.Keys && s'.idle == s.idle
    ensures QueuedLive(s')
  {
    forall i | 0 <= i < |s'.sleeping|
      ensures s'.sleeping[i] == if i < k then s.sleeping[i] else if i == k then n else s.sleeping[i - 1]
    {}
  }

  lemma SleepOrder(q: seq<SleepNode>, q': seq<SleepNode>, n: SleepNode, k: nat)
    requires k <= |q| && q' == q[..k] + [n] + q[k..]
    requires forall i, j | 0 <= i < j < |q| :: q[i].until <= q[j].until && q[i].pid != q[j].pid
    requires forall i | 0 <= i < |q| :: q[i].pid != n.pid
    requires forall i | 0 <= i < k :: q[i].until <= n.until
    requires forall i | k <= i < |q| :: n.until <= q[i].until
    ensures forall i, j | 0 <= i < j < |q'| :: q'[i].until <= q'[j].until && q'[i].pid != q'[j].pid
  {}

  lemma SleepSame(s: Sched, s': Sched, until: nat, k: nat, q: Pid)
    requires s.current in s.tasks && s' == PutToSleep(s, until) && q != s.current
    requires k <= |s.sleeping| && s'.sleeping == s.sleeping[..k] + [SleepNode(until, s.current)] + s.sleeping[k..]
    ensures SamePlaces(s, s', q)
  {
    if Asleep(s, q) {
      var i: nat :| i < |s.sleeping| && s.sleeping[i].pid == q;
      assert s'.sleeping[if i < k then i else i + 1].pid == q;
    }
    if Asleep(s', q) {
      var i: nat :| i < |s'.sleeping| && s'.sleeping[i].pid == q;
      assert s.sleeping[if i < k then i else i - 1].pid == q;
    }
    assert OnIrq(s', q) <==> OnIrq(s, q);
  }

  lemma IrqBlockKeeps(s: Sched, irq: nat)
    requires Placed(s) && s.current != s.idle
    ensures PlacedMid(PutOnIrq(s, irq))
  {
    var s' := PutOnIrq(s, irq);
    var p := s.current;
    assert InPlace(s, p);
    var n := |s'.irqWait[irq]| - 1;
    assert s'.irqWait[irq][n] == p;
    assert OnIrq(s', p);
    assert Asleep(s', p) <==> Asleep(s, p);
    IrqBlockQueues(s, irq);
    forall q | q in s.tasks && q != p ensures SamePlaces(s, s', q) { IrqBlockSame(s, irq, q); }
    OneMoves(s, s', p);
  }

  lemma IrqBlockQueues(s: Sched, irq: nat)
    requires Placed(s) && s.current != s.idle && !OnIrq(s, s.current)
    ensures QueuesOk(PutOnIrq(s, irq)) && QueuedLive(PutOnIrq(s, irq))
  {}

  lemma IrqBlockSame(s: Sched, irq: nat, q: Pid)
    requires s.current in s.tasks && q != s.current
    ensures SamePlaces(s, PutOnIrq(s, irq), q)
  {
    var s' := PutOnIrq(s, irq);
    if OnIrq(s, q) {
      var a: nat, i: nat :| a in s.irqWait && i < |s.irqWait[a]| && s.irqWait[a][i] == q;
      assert s'.irqWait[a][i] == q;
    }
    assert Asleep(s', q) <==> Asleep(s, q);
  }

  /** An interrupt wakes the task that waited for it longest. */
  lemma IrqKeeps(s: Sched, irq: nat)
    requires Placed(s)
    ensures Placed(IrqArrived(s, irq))
  {
    var s' := IrqArrived(s, irq);
    if irq in s.irqWait && s.irqWait[irq] != [] {
      var p := s.irqWait[irq][0];
      assert OnIrq(s, p);
      assert InPlace(s, p);
      assert s.current != s.idle ==> InPlace(s, s.current);
      IrqQueues(s, irq);
      assert Asleep(s', p) <==> Asleep(s, p);
      assert !OnIrq(s', p) by { IrqGone(s, irq); }
      forall q | q in s.tasks && q != p ensures SamePlaces(s, s', q) { IrqSame(s, irq, q); }
      OneMoves(s, s', p);
    }
  }

  lemma IrqGone(s: Sched, irq: nat)
    requires PlacedMid(s) && irq in s.irqWait && s.irqWait[irq] != []
    ensures !OnIrq(IrqArrived(s, irq), s.irqWait[irq][0])
  {}

  lemma IrqQueues(s: Sched, irq: nat)
    requires PlacedMid(s) && irq in s.irqWait && s.irqWait[irq] != [] && s.irqWait[irq][0] !in s.runqueue
    ensures QueuesOk(IrqArrived(s, irq)) && QueuedLive(IrqArrived(s, irq))
  {}

  lemma IrqSame(s: Sched, irq: nat, q: Pid)
    requires irq in s.irqWait && s.irqWait[irq] != [] && q != s.irqWait[irq][0]
    ensures SamePlaces(s, IrqArrived(s, irq), q)
  {
    var s' := IrqArrived(s, irq);
    if OnIrq(s, q) {
      var a: nat, i: nat :| a in s.irqWait && i < |s.irqWait[a]| && s.irqWait[a][i] == q;
      assert s'.irqWait[a][if a == irq then i - 1 else i] == q;
    }
    if OnIrq(s', q) {
      var a: nat, i: nat :| a in s'.irqWait && i < |s'.irqWait[a]| && s'.irqWait[a][i] == q;
      assert s.irqWait[a][if a == irq then i + 1 else i] == q;
    }
    assert Asleep(s', q) <==> Asleep(s, q);
  }

  /** The first sleeper wakes. */
  function WokenOne(s: Sched): Sched
    requires s.sleeping != [] && s.sleeping[0].pid in s.tasks
  {
    Enqueued(s.(sleeping := s.sleeping[1..]), s.sleeping[0].pid)
  }

  lemma WakeOneKeeps(s: Sched)
    requires Placed(s) && s.sleeping != []
    ensures s.sleeping[0].pid in s.tasks && Placed(WokenOne(s))
  {
    var p := s.sleeping[0].pid;
    assert p in s.tasks && p != s.idle;
    assert Asleep(s, p);
    assert InPlace(s, p);
    assert s.current != s.idle ==> InPlace(s, s.current);
    var s' := WokenOne(s);
    assert OnIrq(s', p) <==> OnIrq(s, p);
    WakeOneQueues(s);
    forall q | q in s.tasks && q != p ensures SamePlaces(s, s', q) { WakeOneSame(s, q); }
    OneMoves(s, s', p);
  }

  lemma WakeOneQueues(s: Sched)
    requires PlacedMid(s) && s.sleeping != [] && s.sleeping[0].pid in s.tasks && s.sleeping[0].pid !in s.runqueue
    ensures QueuesOk(WokenOne(s)) && QueuedLive(WokenOne(s)) && !Asleep(WokenOne(s), s.sleeping[0].pid)
  {}

  lemma WakeOneSame(s: Sched, q: Pid)
    requires s.sleeping != [] && s.sleeping[0].pid in s.tasks && s.sleeping[0].pid != q
    ensures SamePlaces(s, WokenOne(s), q)
  {}

  lemma {:induction false} WakeKeeps(s: Sched, now: nat)
    requires Placed(s)
    ensures Placed(WokenUp(s, now))
    decreases |s.sleeping|
  {
    hide PlacedMid;
    if s.sleeping != [] && now >= s.sleeping[0].until {
      WakeOneKeeps(s);
      WakeKeeps(WokenOne(s), now);
    }
  }

  lemma SpawnKeeps(s: Sched, orphan: bool)
    requires Placed(s) && (forall p | p in s.tasks :: p < s.nextPid)
    ensures Placed(Spawned(s, orphan))
  {
    var s' := Spawned(s, orphan);
    var p := s.nextPid;
    assert p !in s.runqueue && !Asleep(s, p) && !OnIrq(s, p) && p !in s.waiting;
    forall q | q in s'.tasks && q != s'.idle ensures InPlace(s', q) {
      assert Asleep(s', q) <==> Asleep(s, q);
      assert OnIrq(s', q) <==> OnIrq(s, q);
      assert q != p ==> InPlace(s, q);
    }
  }

  lemma WaitKeeps(s: Sched)
    requires Placed(s) && s.current != s.idle
    ensures PlacedMid(PutOnWait(s))
  {}

  /** Only tasks that are nowhere change: zombies are reaped, reaped tasks leave the table. */
  lemma NowhereKeeps(s: Sched, s': Sched)
    requires Placed(s) && s'.idle == s.idle && s'.current == s.current && s'.current in s'.tasks && s'.idle in s'.tasks
    requires s'.runqueue == s.runqueue && s'.sleeping == s.sleeping && s'.irqWait == s.irqWait && s'.waiting == s.waiting
    requires s'.tasks.Keys <= s.tasks.Keys
    requires forall q | q in s.tasks && q !in s'.tasks :: q != s.idle && (s.tasks[q].state == Zombie || s.tasks[q].state == Exited)
    requires forall q | q in s'.tasks && s'.tasks[q].state != s.tasks[q].state :: q != s.current && q != s.idle && s.tasks[q].state == Zombie && s'.tasks[q].state == Exited
    ensures Placed(s')
  {
    forall q | q in s.tasks ensures (OnIrq(s', q) <==> OnIrq(s, q)) && (Asleep(s', q) <==> Asleep(s, q)) {}
    forall q | q in s.tasks && q != s.idle && q !in s'.tasks ensures q !in s.runqueue && q !in s.waiting && !Asleep(s, q) && !OnIrq(s, q) {
      assert InPlace(s, q);
    }
    forall q | q in s'.tasks && q != s'.idle ensures InPlace(s', q) {
      assert InPlace(s, q);
    }
  }

  /** The part of `Died` before the parent is woken. */
  function Gone(s: Sched, code: int): Sched
    requires s.current in s.tasks
  {
    s.(tasks := s.tasks[s.current := s.tasks[s.current].(state := Zombie, exitCode := code, children := [])])
  }

  lemma GoneKeeps(s: Sched, code: int)
    requires Placed(s) && s.current != s.idle
    ensures PlacedMid(Gone(s, code))
  {}

  lemma RouseKeeps(s: Sched, p: Pid)
    requires PlacedMid(s) && p in s.waiting && p in s.tasks && p != s.current
    ensures PlacedMid(Enqueued(s.(waiting := s.waiting - {p}), p))
  {}

  lemma DiedKeeps(s: Sched, code: int)
    requires Placed(s) && s.current != s.idle
    ensures PlacedMid(Died(s, code))
  {
    GoneKeeps(s, code);
    assert InPlace(s, s.current);
    var me := s.tasks[s.current];
    if me.parent.Some? && me.parent.value in s.waiting {
      RouseKeeps(Gone(s, code), me.parent.value);
    }
    var s1, s' := Gone(s, code), Died(s, code);
    if s'.tasks == s1.tasks && s'.runqueue == s1.runqueue {
      forall q | q in s1.tasks && q != s1.idle ensures InPlace(s', q) {
        assert InPlace(s1, q);
        assert OnIrq(s', q) <==> OnIrq(s1, q);
        assert Asleep(s', q) <==> Asleep(s1, q);
      }
    }
  }
}
