/**
 What the calls of the scheduler mean over whole runs: exit codes, sleeps, external interrupts and
 time slices.
 */
module SchedulerEffects {
  import opened Basics
  import opened Scheduler
  import opened SchedulerPlaces
  import opened WaitExit
  import opened SchedulerRuns

  /** A run is a shorter run and one more step. */
  lemma LastOp(s: Sched, ops: seq<Op>)
    requires Inv(s) && CanRun(s, ops) && ops != []
    ensures var n := |ops| - 1; var m := Run(s, ops[..n]);
                                && CanRun(s, ops[..n]) && Inv(m) && m.current in m.tasks && Enabled(m, ops[n])
                                && Run(s, ops) == Next(m, ops[n])
  {
    hide Inv, Enabled, Next;
    CanRunPrefix(s, ops, |ops| - 1);
    RunKeeps(s, ops[..|ops| - 1]);
    CurrentLives(Run(s, ops[..|ops| - 1]));
  }

  // ---- exit codes ----

  /** The task is dead and has this exit code for as long as it is in the table; its id is used up. */
  ghost predicate DeadWith(s: Sched, c: Pid, code: int) {
    c < s.nextPid && (c in s.tasks ==> !Living(s.tasks[c].state) && s.tasks[c].exitCode == code)
  }

  lemma SameDead(s: Sched, s': Sched, c: Pid, code: int)
    requires SameFamily(s, s') && DeadWith(s, c, code)
    ensures DeadWith(s', c, code)
  {}

  lemma SpawnDead(s: Sched, orphan: bool, c: Pid, code: int)
    requires Inv(s) && DeadWith(s, c, code)
    ensures DeadWith(Spawned(s, orphan), c, code)
  {
    hide Placed;
    CurrentLives(s);
  }

  lemma ReapDead(s: Sched, p: Pid, c: Pid, code: int)
    requires Inv(s) && p in s.tasks && HasZombie(s, p) && DeadWith(s, c, code)
    ensures DeadWith(Reaped(s, p), c, code)
  {
    hide Placed, HasZombie, Reaped, ReapedChild;
    ReapedIs(s, p);
  }

  lemma WaiterLives(s: Sched, p: Pid)
    requires Placed(s) && p in s.waiting
    ensures p in s.tasks && Living(s.tasks[p].state)
  {
    assert InPlace(s, p);
  }

  lemma DiedDead(s: Sched, code': int, c: Pid, code: int)
    requires Inv(s) && s.current in s.tasks && DeadWith(s, c, code)
    ensures DeadWith(Died(s, code'), c, code)
  {
    hide PlacedMid, FamilyOk;
    CurrentLives(s);
    var parent := s.tasks[s.current].parent;
    if parent.Some? && parent.value in s.waiting { WaiterLives(s, parent.value); }
  }

  lemma FinishDead(s: Sched, c: Pid, code: int)
    requires Inv(s) && s.current in s.tasks && HasZombie(s, s.current) && DeadWith(s, c, code)
    ensures DeadWith(Before(s, FinishWait), c, code)
  {
    hide Inv, FirstZombie, Reaped;
    LeaveWait(s);
    ReapDead(s.(inWait := s.inWait - {s.current}), s.current, c, code);
  }

  lemma BeforeDead(s: Sched, op: Op, c: Pid, code: int)
    requires Inv(s) && s.current in s.tasks && Enabled(s, op) && DeadWith(s, c, code)
    ensures DeadWith(Before(s, op), c, code)
  {
    hide Placed, FamilyOk, HasZombie, Spawned, Reaped, Died, WokenUp, IrqArrived;
    CurrentLives(s);
    match op
    case Timer(now) => TimerFamily(s, now); SameDead(s, WokenUp(s, now), c, code);
    case Irq(irq) => InvIrq(s, irq); SameDead(s, IrqArrived(s, irq), c, code);
    case BlockOnIrq(irq, now) =>
    case Sleep(ms, now) =>
    case Spawn(orphan) => SpawnDead(s, orphan, c, code);
    case Wait(now) => if HasZombie(s, s.current) { ReapDead(s, s.current, c, code); }
    case FinishWait =>
      WokenFindsZombie(s);
      FinishDead(s, c, code);
    case Exit(code', now) => DiedDead(s, code', c, code);
    case Cleanup =>
  }

  lemma TimerFamily(s: Sched, now: nat)
    requires Inv(s)
    ensures SameFamily(s, WokenUp(s, now))
  {
    WakeFamily(s, now);
  }

  lemma InvIrq(s: Sched, irq: nat)
    requires Inv(s)
    ensures SameFamily(s, IrqArrived(s, irq))
  {
    IrqFamily(s, irq);
  }

  /** What `schedule` leaves alone. */
  lemma ScheduleKin(s: Sched, now: nat)
    requires InvMid(s)
    ensures s.current in s.tasks && s.idle in s.tasks && SameFamily(s, Scheduled(s, now))
  {
    MidFields(s);
    MidPlaced(s);
    FamilyReaper(s);
    ScheduleFamily(s, now);
  }

  /** No step changes the exit code of a dead task or brings it back. */
  lemma StepDead(s: Sched, op: Op, c: Pid, code: int)
    requires Inv(s) && s.current in s.tasks && Enabled(s, op) && DeadWith(s, c, code)
    ensures DeadWith(Next(s, op), c, code)
  {
    hide Inv, InvMid, Enabled, Schedules, Before, Scheduled, DeadWith, SameFamily;
    BeforeDead(s, op, c, code);
    BeforeKeeps(s, op);
    if Schedules(s, op) {
      ScheduleKin(Before(s, op), Clock(op));
      SameDead(Before(s, op), Scheduled(Before(s, op), Clock(op)), c, code);
    }
  }

  lemma DiedWith(s: Sched, code: int)
    requires Inv(s) && s.current in s.tasks
    ensures DeadWith(Died(s, code), s.current, code) && s.current in Died(s, code).tasks
  {
    hide PlacedMid, FamilyOk;
    CurrentLives(s);
    var parent := s.tasks[s.current].parent;
    if parent.Some? && parent.value in s.waiting { WaiterLives(s, parent.value); }
  }

  /** After `exit` the task table holds the exit code of the task that called it. */
  lemma ExitLeavesCode(s: Sched, code: int, now: nat)
    requires Inv(s) && s.current in s.tasks && Enabled(s, Exit(code, now))
    ensures DeadWith(Next(s, Exit(code, now)), s.current, code) && s.current in Next(s, Exit(code, now)).tasks
  {
    hide Inv, InvMid, Died, Scheduled, DeadWith;
    BeforeKeeps(s, Exit(code, now));
    DiedWith(s, code);
    ScheduleKin(Died(s, code), now);
    SameDead(Died(s, code), Scheduled(Died(s, code), now), s.current, code);
  }

  /** Over every run, the code a task has exited with is the code in the table until the reaper removes it. */
  lemma {:induction false} CodeKept(s: Sched, ops: seq<Op>, k: nat, code: int, now: nat)
    requires Inv(s) && CanRun(s, ops) && k < |ops| && ops[k] == Exit(code, now)
    ensures DeadWith(Run(s, ops), Run(s, ops[..k]).current, code)
    decreases |ops|
  {
    hide Inv, CanRun, Run, Enabled, Next, DeadWith;
    var n := |ops| - 1;
    LastOp(s, ops);
    if k == n {
      ExitLeavesCode(Run(s, ops[..n]), code, now);
    } else {
      assert ops[..n][..k] == ops[..k];
      CodeKept(s, ops[..n], k, code, now);
      StepDead(Run(s, ops[..n]), ops[n], Run(s, ops[..k]).current, code);
    }
  }

  // ---- new tasks ----

  /** A new task has an id nobody has had; with a parent it is the youngest child of the caller, without one nobody's. */
  lemma SpawnedKin(s: Sched, orphan: bool)
    requires Inv(s) && s.current in s.tasks
    ensures var t, p := Next(s, Spawn(orphan)), s.nextPid;
            && p !in s.tasks && p in t.tasks && t.tasks[p].state == Ready && t.runqueue == s.runqueue + [p]
            && t.tasks[p].parent == (if orphan then None else Some(s.current))
            && t.tasks[s.current].children == s.tasks[s.current].children + (if orphan then [] else [p])
            && p !in s.reported && p !in s.queued && p < t.nextPid
            && forall q: Pid | q in s.tasks && q != s.current :: q in t.tasks && t.tasks[q] == s.tasks[q]
  {
    hide Placed;
    CurrentLives(s);
  }

  // ---- sleeping ----

  /** No product or sum in the wake-up time leaves 64 bits. */
  predicate Fits(now: nat, ms: nat) {
    ms * 10_000_000_000_000 < U64_LIMIT && now + 10_000 * ms < U64_LIMIT
  }

  /** A sleep of `ms` milliseconds is 10_000 ticks for each, if and only if nothing overflows. */
  lemma WakeTimeExact(now: nat, ms: nat)
    requires now < U64_LIMIT
    ensures WakeTime(now, ms) == now + 10_000 * ms <==> Fits(now, ms)
  {
    if ms * 1_000_000 < U64_LIMIT {
      if ms * 10_000_000_000_000 < U64_LIMIT {
        assert ms * 1_000_000 * 10_000_000 / 1_000_000_000 == 10_000 * ms;
      } else {
        Wrapped(ms * 1_000_000 * 10_000_000, ms);
      }
    }
  }

  /** A sleep of half an hour and 45 seconds, called at time zero, ends after 5926 ticks. */
  lemma SleepCutShort()
    ensures !Fits(0, 1_844_675) && WakeTime(0, 1_844_675) == 5926
  {}

  lemma Wrapped(x: nat, ms: nat)
    requires x == ms * 10_000_000_000_000 && x >= U64_LIMIT
    ensures x % U64_LIMIT / 1_000_000_000 < 10_000 * ms
  {
    var q, r := x / U64_LIMIT, x % U64_LIMIT;
    assert x == U64_LIMIT * q + r && q >= 1;
    assert r <= x - U64_LIMIT;
  }

  lemma {:induction false} LaterSleepsOn(s: Sched, now: nat, node: SleepNode)
    requires node in s.sleeping && now < node.until
    ensures node in WokenUp(s, now).sleeping
    decreases |s.sleeping|
  {
    if now >= s.sleeping[0].until {
      var p := s.sleeping[0].pid;
      var s1 := s.(sleeping := s.sleeping[1..]);
      LaterSleepsOn(if p in s.tasks then Enqueued(s1, p) else s1, now, node);
    }
  }

  lemma {:induction false} DueIsQueued(s: Sched, now: nat, node: SleepNode)
    requires Placed(s) && node in s.sleeping && node.until <= now
    ensures node.pid in WokenUp(s, now).runqueue
    decreases |s.sleeping|
  {
    hide PlacedMid;
    assert s.sleeping[0].until <= node.until by { Soonest(s, node); }
    WakeOneKeeps(s);
    var m := WokenOne(s);
    if s.sleeping[0] == node {
      WakeAppends(m, now);
      assert m.runqueue[|s.runqueue|] == node.pid;
    } else {
      DueIsQueued(m, now, node);
    }
  }

  lemma Soonest(s: Sched, node: SleepNode)
    requires Placed(s) && node in s.sleeping
    ensures s.sleeping[0].until <= node.until
  {
    var i :| 0 <= i < |s.sleeping| && s.sleeping[i] == node;
  }

  lemma ScheduleSleeping(s: Sched, now: nat)
    requires s.current in s.tasks && s.idle in s.tasks
    ensures Scheduled(s, now).sleeping == s.sleeping && Scheduled(s, now).irqWait == s.irqWait && Scheduled(s, now).idle == s.idle
  {}

  lemma StaysInserted(q: seq<SleepNode>, n: SleepNode, node: SleepNode)
    requires node in q || node == n
    ensures node in InsertNode(q, n)
  {}

  lemma BeforeSleepsOn(s: Sched, op: Op, node: SleepNode)
    requires s.current in s.tasks && node in s.sleeping && (op.Timer? ==> op.now < node.until)
    ensures node in Before(s, op).sleeping
  {
    hide HasZombie, FirstZombie;
    match op
    case Timer(now) => LaterSleepsOn(s, now, node);
    case Sleep(ms, now) => StaysInserted(s.sleeping, SleepNode(WakeTime(now, ms), s.current), node);
    case _ =>
  }

  /** Only a timer interrupt at or after the wake-up time ends a sleep. */
  lemma StepSleepsOn(s: Sched, op: Op, node: SleepNode)
    requires Inv(s) && s.current in s.tasks && Enabled(s, op) && node in s.sleeping && (op.Timer? ==> op.now < node.until)
    ensures node in Next(s, op).sleeping
  {
    hide Inv, InvMid, Enabled, Schedules, Before, Scheduled;
    BeforeSleepsOn(s, op, node);
    BeforeKeeps(s, op);
    if Schedules(s, op) {
      MidFields(Before(s, op));
      ScheduleSleeping(Before(s, op), Clock(op));
    }
  }

  lemma FallsAsleep(s: Sched, ms: nat, now: nat)
    requires Inv(s) && s.current in s.tasks && Enabled(s, Sleep(ms, now))
    ensures SleepNode(WakeTime(now, ms), s.current) in Next(s, Sleep(ms, now)).sleeping
  {
    hide Inv, InvMid, Scheduled, WakeTime;
    BeforeKeeps(s, Sleep(ms, now));
    var m := Before(s, Sleep(ms, now));
    MidFields(m);
    ScheduleSleeping(m, now);
    StaysInserted(s.sleeping, SleepNode(WakeTime(now, ms), s.current), SleepNode(WakeTime(now, ms), s.current));
  }

  /** A timer interrupt wakes a sleeper if and only if its time has come; it is then queued or runs. */
  lemma TimerWakes(s: Sched, t: nat, node: SleepNode)
    requires Inv(s) && s.current in s.tasks && node in s.sleeping
    ensures var f := Next(s, Timer(t));
            && (Asleep(f, node.pid) <==> t < node.until)
            && (t >= node.until ==> node.pid in f.runqueue || node.pid == f.current)
  {
    hide Inv, InvMid, Schedules, WokenUp, Scheduled;
    var f := Next(s, Timer(t));
    assert Enabled(s, Timer(t));
    StepKeeps(s, Timer(t));
    if t < node.until {
      StepSleepsOn(s, Timer(t), node);
    } else {
      var m := WokenUp(s, t);
      assert m.idle == s.idle by { TimerFamily(s, t); }
      assert node.pid != s.idle by { SleeperKnown(s, node); }
      assert node.pid in m.runqueue by { InvPlaced(s); DueIsQueued(s, t, node); }
      BeforeKeeps(s, Timer(t));
      if Schedules(s, Timer(t)) {
        MidFields(m);
        MidPlaced(m);
        ScheduleAdvances(m, t);
        ScheduleSleeping(m, t);
        var i :| 0 <= i < |m.runqueue| && m.runqueue[i] == node.pid;
        assert i > 0 ==> m.runqueue[1..][i - 1] == node.pid;
      }
      NotAsleep(f, node.pid);
    }
  }

  lemma InvPlaced(s: Sched)
    requires Inv(s)
    ensures Placed(s)
  {}

  lemma SleeperKnown(s: Sched, node: SleepNode)
    requires Inv(s) && node in s.sleeping
    ensures node.pid in s.tasks && node.pid != s.idle
  {
    var i :| 0 <= i < |s.sleeping| && s.sleeping[i] == node;
  }

  lemma NotAsleep(s: Sched, p: Pid)
    requires Inv(s) && (p in s.runqueue || p == s.current) && p != s.idle
    ensures !Asleep(s, p)
  {
    assert InPlace(s, p);
  }

  lemma {:induction false} SleepLasts(s: Sched, ops: seq<Op>, k: nat, ms: nat, now: nat)
    requires Inv(s) && CanRun(s, ops) && k < |ops| && ops[k] == Sleep(ms, now)
    requires forall i | k < i < |ops| && ops[i].Timer? :: ops[i].now < WakeTime(now, ms)
    ensures SleepNode(WakeTime(now, ms), Run(s, ops[..k]).current) in Run(s, ops).sleeping
    decreases |ops|
  {
    hide Inv, CanRun, Run, Enabled, Next, WakeTime;
    var n := |ops| - 1;
    LastOp(s, ops);
    if k == n {
      FallsAsleep(Run(s, ops[..n]), ms, now);
    } else {
      assert ops[..n][..k] == ops[..k];
      SleepLasts(s, ops[..n], k, ms, now);
      StepSleepsOn(Run(s, ops[..n]), ops[n], SleepNode(WakeTime(now, ms), Run(s, ops[..k]).current));
    }
  }

  /** Over every run, the first timer interrupt to wake a task that sleeps is the first one 10_000 ticks a millisecond later. */
  lemma SleepExact(s: Sched, ops: seq<Op>, k: nat, ms: nat, now: nat, t: nat)
    requires Inv(s) && CanRun(s, ops) && k < |ops| && ops[k] == Sleep(ms, now) && Fits(now, ms)
    requires forall i | k < i < |ops| && ops[i].Timer? :: ops[i].now < now + 10_000 * ms
    ensures var p, f := Run(s, ops[..k]).current, Run(s, ops + [Timer(t)]);
            && (Asleep(f, p) <==> t < now + 10_000 * ms)
            && (t >= now + 10_000 * ms ==> p in f.runqueue || p == f.current)
  {
    hide Inv, CanRun, Run, Next, WakeTime;
    assert WakeTime(now, ms) == now + 10_000 * ms by { WakeTimeExact(now, ms); }
    SleepLasts(s, ops, k, ms, now);
    RunKeeps(s, ops);
    CurrentLives(Run(s, ops));
    Extend(s, ops, Timer(t));
    TimerWakes(Run(s, ops), t, SleepNode(WakeTime(now, ms), Run(s, ops[..k]).current));
  }

  // ---- external interrupts ----

  /** The task is at position `k` of the queue of an external interrupt. */
  ghost predicate WaitsAt(s: Sched, irq: nat, k: nat, p: Pid) {
    irq in s.irqWait && k < |s.irqWait[irq]| && s.irqWait[irq][k] == p
  }

  /** An external interrupt makes the task at the front of its queue ready, last in the runqueue, and nothing else. */
  lemma IrqWakesFront(s: Sched, irq: nat)
    requires Inv(s) && s.current in s.tasks && irq in s.irqWait && s.irqWait[irq] != []
    ensures var f, p := Next(s, Irq(irq)), s.irqWait[irq][0];
            && p in s.tasks && s.tasks[p].state == Blocked && f.runqueue == s.runqueue + [p] && f.current == s.current
            && f.irqWait.Keys == s.irqWait.Keys && s.irqWait[irq] == [p] + f.irqWait[irq]
            && (forall i: nat | i in s.irqWait && i != irq :: f.irqWait[i] == s.irqWait[i])
            && f.tasks.Keys == s.tasks.Keys && f.tasks[p] == s.tasks[p].(state := Ready)
            && (forall q: Pid | q in s.tasks && q != p :: f.tasks[q] == s.tasks[q])
            && f.sleeping == s.sleeping && f.waiting == s.waiting && f.cleanup == s.cleanup
  {
    hide FamilyOk;
    var p := s.irqWait[irq][0];
    assert p in s.tasks && p != s.idle;
    assert OnIrq(s, p);
    assert InPlace(s, p);
  }

  /** How many times the interrupt arrives after step `k`. */
  ghost function Arrivals(ops: seq<Op>, irq: nat, k: nat): nat {
    if |ops| <= k + 1 then 0
    else Arrivals(ops[..|ops| - 1], irq, k) + if ops[|ops| - 1] == Irq(irq) then 1 else 0
  }

  lemma BeforeWaits(s: Sched, op: Op, irq: nat, k: nat, p: Pid)
    requires s.current in s.tasks && WaitsAt(s, irq, k, p)
    ensures op != Irq(irq) ==> WaitsAt(Before(s, op), irq, k, p)
    ensures op == Irq(irq) && k > 0 ==> WaitsAt(Before(s, op), irq, k - 1, p)
  {
    hide HasZombie, FirstZombie;
    if op.Timer? { WakeIrqs(s, op.now); }
  }

  lemma {:induction false} WakeIrqs(s: Sched, now: nat)
    ensures WokenUp(s, now).irqWait == s.irqWait
    decreases |s.sleeping|
  {
    if s.sleeping != [] && now >= s.sleeping[0].until {
      var p := s.sleeping[0].pid;
      var s1 := s.(sleeping := s.sleeping[1..]);
      WakeIrqs(if p in s.tasks then Enqueued(s1, p) else s1, now);
    }
  }

  /** A step moves a waiting task up by one if it is an arrival of its interrupt, and leaves it otherwise. */
  lemma StepWaits(s: Sched, op: Op, irq: nat, k: nat, p: Pid)
    requires Inv(s) && s.current in s.tasks && Enabled(s, op) && WaitsAt(s, irq, k, p)
    ensures op != Irq(irq) ==> WaitsAt(Next(s, op), irq, k, p)
    ensures op == Irq(irq) && k > 0 ==> WaitsAt(Next(s, op), irq, k - 1, p)
  {
    hide Inv, InvMid, Enabled, Before, Scheduled;
    BeforeWaits(s, op, irq, k, p);
    BeforeKeeps(s, op);
    if Schedules(s, op) {
      MidFields(Before(s, op));
      ScheduleSleeping(Before(s, op), Clock(op));
    }
  }

  /** How many tasks wait for an interrupt. */
  ghost function Waiters(s: Sched, irq: nat): nat {
    if irq in s.irqWait then |s.irqWait[irq]| else 0
  }

  /** A task that blocks goes behind those that already wait. */
  lemma BlocksLast(s: Sched, irq: nat, now: nat)
    requires Inv(s) && s.current in s.tasks && Enabled(s, BlockOnIrq(irq, now))
    ensures WaitsAt(Next(s, BlockOnIrq(irq, now)), irq, Waiters(s, irq), s.current)
  {
    hide Inv, InvMid, Scheduled;
    BeforeKeeps(s, BlockOnIrq(irq, now));
    MidFields(Before(s, BlockOnIrq(irq, now)));
    ScheduleSleeping(Before(s, BlockOnIrq(irq, now)), now);
  }

  lemma {:induction false} WaiterAdvances(s: Sched, ops: seq<Op>, k: nat, irq: nat, now: nat)
    requires Inv(s) && CanRun(s, ops) && k < |ops| && ops[k] == BlockOnIrq(irq, now)
    requires Arrivals(ops, irq, k) <= Waiters(Run(s, ops[..k]), irq)
    ensures var m := Run(s, ops[..k]); WaitsAt(Run(s, ops), irq, Waiters(m, irq) - Arrivals(ops, irq, k), m.current)
    decreases |ops|
  {
    hide Inv, CanRun, Run, Enabled, Next, WaitsAt, Waiters;
    var n := |ops| - 1;
    LastOp(s, ops);
    var m := Run(s, ops[..k]);
    if k == n {
      BlocksLast(m, irq, now);
    } else {
      assert ops[..n][..k] == ops[..k];
      WaiterAdvances(s, ops[..n], k, irq, now);
      StepWaits(Run(s, ops[..n]), ops[n], irq, Waiters(m, irq) - Arrivals(ops[..n], irq, k), m.current);
    }
  }

  /** Over every run, a task that blocks behind `n` others is made ready by the (n+1)-th arrival of its interrupt. */
  lemma IrqTurnComes(s: Sched, ops: seq<Op>, k: nat, irq: nat, now: nat)
    requires Inv(s) && CanRun(s, ops) && k < |ops| && ops[k] == BlockOnIrq(irq, now)
    requires Arrivals(ops, irq, k) == Waiters(Run(s, ops[..k]), irq)
    ensures var p, m, f := Run(s, ops[..k]).current, Run(s, ops), Run(s, ops + [Irq(irq)]);
            && OnIrq(m, p) && f.runqueue == m.runqueue + [p] && p in f.tasks && f.tasks[p].state == Ready
  {
    hide Inv, CanRun, Run, Next, Waiters, Arrivals;
    var m := Run(s, ops);
    WaiterAdvances(s, ops, k, irq, now);
    RunKeeps(s, ops);
    CurrentLives(m);
    Extend(s, ops, Irq(irq));
    IrqWakesFront(m, irq);
  }

  // ---- time slices ----

  /** Some sleeper's time has come. */
  ghost predicate Due(s: Sched, t: nat) {
    exists node: SleepNode :: node in s.sleeping && node.until <= t
  }

  lemma NoneDue(s: Sched, t: nat)
    requires Placed(s)
    ensures Due(s, t) <==> WokenUp(s, t).runqueue != s.runqueue
    ensures !Due(s, t) ==> WokenUp(s, t) == s
  {
    hide PlacedMid;
    if Due(s, t) {
      var node :| node in s.sleeping && node.until <= t;
      Soonest(s, node);
      WakeOneKeeps(s);
      WakeAppends(WokenOne(s), t);
      assert |WokenOne(s).runqueue| == |s.runqueue| + 1;
    } else if s.sleeping != [] {
      assert s.sleeping[0] in s.sleeping;
    }
  }

  /**
   A timer interrupt takes the core from the current task if and only if another task is ready and the
   core is idle, a sleeper has just woken, or the task has run for more than 32 milliseconds of the 10 MHz clock.
   */
  lemma SliceExact(s: Sched, t: nat)
    requires Inv(s) && s.current in s.tasks
    ensures Next(s, Timer(t)).current != s.current <==>
            && (s.runqueue != [] || Due(s, t))
            && (s.current == s.idle || Due(s, t) || t > s.lastEntrance + 32 * 10_000)
  {
    hide Inv, InvMid, WokenUp, Scheduled;
    assert Enabled(s, Timer(t));
    InvPlaced(s);
    NoneDue(s, t);
    BeforeKeeps(s, Timer(t));
    var m := WokenUp(s, t);
    assert m.idle == s.idle && m.current == s.current by { TimerFamily(s, t); WakeCurrent(s, t); }
    TimerKeeps(s, t);
    if Schedules(s, Timer(t)) {
      MidFields(m);
      MidPlaced(m);
      WakeAppends(s, t);
      if m.runqueue != [] {
        ScheduleAdvances(m, t);
        assert m.current !in m.runqueue;
      } else {
        NobodyReady(m, t);
      }
    }
  }

  lemma {:induction false} WakeCurrent(s: Sched, now: nat)
    ensures WokenUp(s, now).current == s.current && WokenUp(s, now).lastEntrance == s.lastEntrance
    decreases |s.sleeping|
  {
    if s.sleeping != [] && now >= s.sleeping[0].until {
      var p := s.sleeping[0].pid;
      var s1 := s.(sleeping := s.sleeping[1..]);
      WakeCurrent(if p in s.tasks then Enqueued(s1, p) else s1, now);
    }
  }

  lemma NobodyReady(s: Sched, now: nat)
    requires Inv(s) && s.runqueue == []
    ensures s.current in s.tasks && s.idle in s.tasks && Scheduled(s, now).current == s.current
  {
    hide FamilyOk;
  }

  lemma BeforeEntrance(s: Sched, op: Op)
    requires s.current in s.tasks
    ensures var m := Before(s, op); m.current == s.current && m.lastEntrance == s.lastEntrance && m.idle == s.idle
  {
    hide HasZombie, FirstZombie;
    if op.Timer? { WakeCurrent(s, op.now); WakeIdle(s, op.now); }
  }

  lemma {:induction false} WakeIdle(s: Sched, now: nat)
    ensures WokenUp(s, now).idle == s.idle
    decreases |s.sleeping|
  {
    if s.sleeping != [] && now >= s.sleeping[0].until {
      var p := s.sleeping[0].pid;
      var s1 := s.(sleeping := s.sleeping[1..]);
      WakeIdle(if p in s.tasks then Enqueued(s1, p) else s1, now);
    }
  }

  lemma ScheduleEntrance(s: Sched, now: nat)
    requires PlacedMid(s)
    ensures var f := Scheduled(s, now);
            && f.idle == s.idle
            && (f.current != s.current ==> f.lastEntrance == now)
            && (f.current == s.current != s.idle ==> f.lastEntrance == s.lastEntrance)
  {
    NoStaleEntry(s);
  }

  /** The operations that read the clock. */
  predicate Timed(op: Op) {
    op.Timer? || op.BlockOnIrq? || op.Sleep? || op.Wait? || op.Exit?
  }

  /** A task's slice starts when it gets the core, and does not start again while it has it. */
  lemma StepEntrance(s: Sched, op: Op)
    requires Inv(s) && s.current in s.tasks && Enabled(s, op)
    ensures var f := Next(s, op);
            && f.idle == s.idle
            && (f.current != s.current ==> Timed(op) && f.lastEntrance == op.now)
            && (f.current == s.current != s.idle ==> f.lastEntrance == s.lastEntrance)
  {
    hide Inv, InvMid, Enabled, Before, Scheduled;
    BeforeEntrance(s, op);
    BeforeKeeps(s, op);
    if Schedules(s, op) {
      MidFields(Before(s, op));
      MidPlaced(Before(s, op));
      ScheduleEntrance(Before(s, op), Clock(op));
    }
  }

  /** Task `p` gets the core in step `k` of a run and has it from then on. */
  ghost predicate RunsFrom(s: Sched, ops: seq<Op>, k: nat, p: Pid) {
    && k < |ops| && p != s.idle && Run(s, ops[..k]).current != p
    && forall j | k < j <= |ops| :: Run(s, ops[..j]).current == p
  }

  lemma {:induction false} RunEntrance(s: Sched, ops: seq<Op>, k: nat, p: Pid)
    requires Inv(s) && CanRun(s, ops) && RunsFrom(s, ops, k, p)
    ensures Timed(ops[k]) && Run(s, ops).lastEntrance == ops[k].now && Run(s, ops).current == p
    decreases |ops|
  {
    hide Inv, CanRun, Run, Enabled, Next;
    var n := |ops| - 1;
    assert ops[..|ops|] == ops;
    LastOp(s, ops);
    SameIdle(s, ops[..n]);
    StepEntrance(Run(s, ops[..n]), ops[n]);
    if k < n {
      assert forall j | 0 <= j <= n :: ops[..n][..j] == ops[..j];
      RunEntrance(s, ops[..n], k, p);
    }
  }

  lemma {:induction false} SameIdle(s: Sched, ops: seq<Op>)
    requires Inv(s) && CanRun(s, ops)
    ensures Run(s, ops).idle == s.idle
    decreases |ops|
  {
    hide Inv, CanRun, Enabled, Next;
    if ops != [] {
      var n := |ops| - 1;
      LastOp(s, ops);
      SameIdle(s, ops[..n]);
      StepEntrance(Run(s, ops[..n]), ops[n]);
    }
  }

  /**
   Over every run, a timer interrupt at `t` takes the core from a task that got it at `t0` if and only if
   another task is ready and a sleeper has just woken or more than 32 milliseconds have passed since `t0`.
   */
  lemma SliceEnds(s: Sched, ops: seq<Op>, k: nat, p: Pid, t: nat)
    requires Inv(s) && CanRun(s, ops) && RunsFrom(s, ops, k, p)
    ensures var m, f := Run(s, ops), Run(s, ops + [Timer(t)]);
            Timed(ops[k]) && (f.current != p <==> (m.runqueue != [] || Due(m, t)) && (Due(m, t) || t > ops[k].now + 32 * 10_000))
  {
    hide Inv, CanRun, Run, Next, Due, RunsFrom;
    RunEntrance(s, ops, k, p);
    assert p != s.idle by { NotIdle(s, ops, k, p); }
    SameIdle(s, ops);
    RunKeeps(s, ops);
    CurrentLives(Run(s, ops));
    Extend(s, ops, Timer(t));
    SliceExact(Run(s, ops), t);
  }

  lemma NotIdle(s: Sched, ops: seq<Op>, k: nat, p: Pid)
    requires RunsFrom(s, ops, k, p)
    ensures p != s.idle
  {}
}
