/**
 What holds over every run of the scheduler: places, turns, and the wait/exit protocol.
 */
module SchedulerRuns {
  import opened Basics
  import opened Scheduler
  import opened SchedulerPlaces
  import opened WaitExit

  ghost predicate Inv(s: Sched) {
    Placed(s) && FamilyOk(s)
  }

  /** What holds when `schedule` is called. */
  ghost predicate InvMid(s: Sched) {
    PlacedMid(s) && FamilyOk(s)
  }

  lemma CurrentLives(s: Sched)
    requires Inv(s)
    ensures s.current in s.tasks && Living(s.tasks[s.current].state) && s.current !in s.waiting
    ensures forall p | p in s.tasks :: p < s.nextPid
  {}

  // ---- one step ----

  lemma TimerKeeps(s: Sched, now: nat)
    requires Inv(s)
    ensures Inv(WokenUp(s, now))
  {
    WakeKeeps(s, now);
    WakeFamily(s, now);
    SameFamilyOk(s, WokenUp(s, now));
  }

  lemma BlockKeeps(s: Sched, op: Op)
    requires Inv(s) && s.current != s.idle && (op.BlockOnIrq? || op.Sleep?)
    ensures InvMid(Before(s, op))
  {
    hide Placed, PlacedMid, FamilyOk, PutOnIrq, PutToSleep;
    CurrentLives(s);
    if op.BlockOnIrq? {
      IrqBlockKeeps(s, op.irq);
      IrqBlockFamily(s, op.irq);
    } else {
      SleepKeeps(s, WakeTime(op.now, op.ms));
      SleepFamily(s, WakeTime(op.now, op.ms));
    }
    SameFamilyOk(s, Before(s, op));
  }

  lemma SpawnStep(s: Sched, orphan: bool)
    requires Inv(s)
    ensures Inv(Spawned(s, orphan))
  {
    hide Placed, FamilyOk, Spawned;
    CurrentLives(s);
    SpawnKeeps(s, orphan);
    SpawnFamily(s, orphan);
  }

  lemma ReapStep(s: Sched, p: Pid)
    requires Inv(s) && p in s.tasks && p !in s.inWait && HasZombie(s, p)
    ensures Inv(Reaped(s, p)) && Reaped(s, p).current == s.current
  {
    ReapFamily(s, p);
    ReapedIs(s, p);
    ReapedPlaces(s, p);
  }

  lemma ReapedPlaces(s: Sched, p: Pid)
    requires Inv(s) && p in s.tasks && HasZombie(s, p)
    requires ReapsTo(s, p, ReapedChild(s, p), Reaped(s, p)) && ZombieChild(s, p, ReapedChild(s, p))
    ensures Placed(Reaped(s, p))
  {
    hide Placed, HasZombie, FamilyOk, ReapedChild;
    var s' := Reaped(s, p);
    CurrentLives(s);
    IdleAlive(s);
    NowhereKeeps(s, s');
  }

  lemma IdleAlive(s: Sched)
    requires Inv(s)
    ensures s.idle in s.tasks && Living(s.tasks[s.idle].state)
  {}

  lemma WaitStep(s: Sched)
    requires Inv(s) && s.current != s.idle && s.current !in s.inWait
    ensures s.tasks[s.current].children != [] && !HasZombie(s, s.current) ==> InvMid(PutOnWait(s))
    ensures HasZombie(s, s.current) ==> Inv(Reaped(s, s.current))
  {
    hide Placed, PlacedMid, FamilyOk, HasZombie, PutOnWait, Reaped;
    CurrentLives(s);
    if HasZombie(s, s.current) {
      ReapStep(s, s.current);
    } else {
      WaitKeeps(s);
      WaitFamily(s);
    }
  }

  /** A parent woken from `wait` always finds a zombie: the `expect` cannot fail. */
  lemma WokenFindsZombie(s: Sched)
    requires Inv(s) && s.current in s.inWait
    ensures HasZombie(s, s.current) && ZombieChild(s, s.current, ReapedChild(s, s.current))
  {}

  lemma FinishStep(s: Sched)
    requires Inv(s) && s.current in s.inWait
    ensures Inv(Before(s, FinishWait))
  {
    hide Placed, FamilyOk, FirstZombie, Reaped;
    WokenFindsZombie(s);
    LeaveWait(s);
    ReapStep(s.(inWait := s.inWait - {s.current}), s.current);
  }

  lemma LeaveWait(s: Sched)
    requires Inv(s)
    ensures s.current in s.tasks && s.current !in s.waiting && Inv(s.(inWait := s.inWait - {s.current}))
  {
    CurrentLives(s);
    var s' := s.(inWait := s.inWait - {s.current});
    assert FamilyOk(s') by {
      SameTables(s, s');
      forall p: Pid, c: Pid ensures ZombieChild(s', p, c) <==> ZombieChild(s, p, c) {}
      forall p: Pid | p in s'.inWait && p !in s'.waiting ensures exists c: Pid :: ZombieChild(s', p, c) {
        var c: Pid :| ZombieChild(s, p, c);
        assert ZombieChild(s', p, c);
      }
    }
    assert Placed(s') by { NowhereKeeps(s, s'); }
  }

  lemma CleanStep(s: Sched)
    requires Inv(s) && s.cleanup != [] && s.current != s.idle
    ensures Inv(Cleaned(s)) && Cleaned(s).current == s.current
  {
    hide Placed;
    CleanFamily(s);
    assert s.cleanup[0] in s.cleanup;
    CurrentLives(s);
    NowhereKeeps(s, Cleaned(s));
  }

  lemma ScheduleStep(s: Sched, now: nat)
    requires InvMid(s)
    ensures Inv(Scheduled(s, now))
  {
    hide Placed, PlacedMid, FamilyOk, Scheduled, ReaperOk;
    MidFields(s);
    ScheduleKeeps(s, now);
    assert ReaperOk(s) by { FamilyReaper(s); }
    ScheduleFamily(s, now);
    SameFamilyOk(s, Scheduled(s, now));
  }

  lemma FamilyReaper(s: Sched)
    requires FamilyOk(s)
    ensures ReaperOk(s)
  {}

  lemma MidFields(s: Sched)
    requires InvMid(s)
    ensures s.current in s.tasks && s.idle in s.tasks
  {}

  lemma InvIsMid(s: Sched)
    requires Inv(s)
    ensures InvMid(s)
  {}

  /** What a step does before it calls `schedule`. */
  lemma BeforeKeeps(s: Sched, op: Op)
    requires Inv(s) && s.current in s.tasks && Enabled(s, op)
    ensures if Schedules(s, op) then InvMid(Before(s, op)) else Inv(Before(s, op))
  {
    hide Placed, PlacedMid, FamilyOk, HasZombie, TimerSchedules, WokenUp, IrqArrived, PutOnIrq, PutToSleep, Spawned, Reaped, PutOnWait, Died, Cleaned;
    match op
    case Timer(now) => TimerKeeps(s, now); InvIsMid(WokenUp(s, now));
    case Irq(irq) => IrqKeeps(s, irq); IrqFamily(s, irq); SameFamilyOk(s, IrqArrived(s, irq));
    case BlockOnIrq(irq, now) => BlockKeeps(s, op);
    case Sleep(ms, now) => BlockKeeps(s, op);
    case Spawn(orphan) => SpawnStep(s, orphan);
    case Wait(now) => WaitStep(s);
    case FinishWait => FinishStep(s);
    case Exit(code, now) => DiedKeeps(s, code); DiedFamily(s, code);
    case Cleanup => CleanStep(s);
  }

  /** Every step keeps the invariant. */
  lemma StepKeeps(s: Sched, op: Op)
    requires Inv(s) && s.current in s.tasks && Enabled(s, op)
    ensures Inv(Next(s, op))
  {
    hide Inv, InvMid, Enabled, Schedules, Before, Scheduled;
    BeforeKeeps(s, op);
    if Schedules(s, op) {
      MidFields(Before(s, op));
      ScheduleStep(Before(s, op), Clock(op));
    }
  }

  // ---- runs ----

  /** The state after a sequence of steps. */
  ghost function Run(s: Sched, ops: seq<Op>): Sched {
    if ops == [] then s
    else
      var m := Run(s, ops[..|ops| - 1]);
      if m.current in m.tasks then Next(m, ops[|ops| - 1]) else m
  }

  ghost predicate CanRun(s: Sched, ops: seq<Op>) {
    forall i | 0 <= i < |ops| :: Enabled(Run(s, ops[..i]), ops[i])
  }

  lemma CanRunPrefix(s: Sched, ops: seq<Op>, n: nat)
    requires CanRun(s, ops) && n <= |ops|
    ensures CanRun(s, ops[..n])
  {
    forall i | 0 <= i < n ensures Enabled(Run(s, ops[..n][..i]), ops[..n][i]) {
      assert ops[..n][..i] == ops[..i];
    }
  }

  /** Over every run each task stays in place and the protocol's invariant holds. */
  lemma {:induction false} RunKeeps(s: Sched, ops: seq<Op>)
    requires Inv(s) && CanRun(s, ops)
    ensures Inv(Run(s, ops))
    decreases |ops|
  {
    hide Inv, Enabled, Next;
    if ops != [] {
      var n := |ops| - 1;
      CanRunPrefix(s, ops, n);
      RunKeeps(s, ops[..n]);
      CurrentLives(Run(s, ops[..n]));
      StepKeeps(Run(s, ops[..n]), ops[n]);
    }
  }

  /** The core at boot: the idle task is current and the reaper is queued. */
  function Boot(): Sched {
    var kernelTask := Task(Ready, None, [], -1);
    Sched(map[0 := kernelTask, 1 := kernelTask], 0, 0, [1], [], map[], {}, {}, [], 0, 2, [], [])
  }

  lemma BootInv()
    ensures Inv(Boot())
  {
    var s := Boot();
    forall p | p in s.tasks && p != s.idle ensures InPlace(s, p) { assert p == 1 && s.runqueue[0] == p; }
  }

  /** How many places a task is in. */
  ghost function Places(s: Sched, p: Pid): nat {
    (if p == s.current then 1 else 0) + multiset(s.runqueue)[p] + (if Asleep(s, p) then 1 else 0)
    + (if OnIrq(s, p) then 1 else 0) + (if p in s.waiting then 1 else 0)
  }

  lemma OnceInQueue(q: seq<Pid>, p: Pid)
    requires NoDup(q)
    ensures multiset(q)[p] == if p in q then 1 else 0
  {
    if q != [] {
      assert q == q[..|q| - 1] + [q[|q| - 1]];
      OnceInQueue(q[..|q| - 1], p);
    }
  }

  /** In every state of every run a living task is in exactly one place, and a dead one is in none. */
  lemma OnePlace(s: Sched, ops: seq<Op>, p: Pid)
    requires Inv(s) && CanRun(s, ops)
    ensures var t := Run(s, ops); p in t.tasks && p != t.idle ==> Places(t, p) == if Living(t.tasks[p].state) then 1 else 0
  {
    RunKeeps(s, ops);
    var t := Run(s, ops);
    if p in t.tasks && p != t.idle {
      assert InPlace(t, p);
      assert t.current != t.idle ==> InPlace(t, t.current);
      OnceInQueue(t.runqueue, p);
    }
  }

  // ---- turns ----

  /** How often a run calls `schedule`. */
  ghost function ScheduleCalls(s: Sched, ops: seq<Op>): nat {
    if ops == [] then 0
    else
      var n := |ops| - 1;
      ScheduleCalls(s, ops[..n]) + if Schedules(Run(s, ops[..n]), ops[n]) then 1 else 0
  }

  lemma {:induction false} WakeAppends(s: Sched, now: nat)
    ensures s.runqueue <= WokenUp(s, now).runqueue
    decreases |s.sleeping|
  {
    if s.sleeping != [] && now >= s.sleeping[0].until {
      var p := s.sleeping[0].pid;
      var s1 := s.(sleeping := s.sleeping[1..]);
      WakeAppends(if p in s.tasks then Enqueued(s1, p) else s1, now);
    }
  }

  /** Before it calls `schedule`, a step only appends to the runqueue. */
  lemma BeforeAppends(s: Sched, op: Op)
    requires s.current in s.tasks
    ensures s.runqueue <= Before(s, op).runqueue
  {
    hide HasZombie;
    if op.Timer? { WakeAppends(s, op.now); }
  }

  /** `schedule` takes the front task and moves the others up. */
  lemma ScheduleAdvances(s: Sched, now: nat)
    requires PlacedMid(s) && s.runqueue != []
    ensures Scheduled(s, now).current == s.runqueue[0]
    ensures s.runqueue[1..] <= Scheduled(s, now).runqueue
  {}

  /** One step moves a queued task up by one if it calls `schedule`, and leaves it otherwise. */
  lemma StepAdvances(s: Sched, op: Op, k: nat)
    requires Inv(s) && s.current in s.tasks && Enabled(s, op) && k < |s.runqueue|
    ensures !Schedules(s, op) ==> k < |Next(s, op).runqueue| && Next(s, op).runqueue[k] == s.runqueue[k]
    ensures Schedules(s, op) && k > 0 ==> k - 1 < |Next(s, op).runqueue| && Next(s, op).runqueue[k - 1] == s.runqueue[k]
    ensures Schedules(s, op) && k == 0 ==> Next(s, op).current == s.runqueue[0]
  {
    hide Inv, Enabled, Schedules, Before, Scheduled;
    BeforeAppends(s, op);
    BeforeKeeps(s, op);
    if Schedules(s, op) {
      var m := Before(s, op);
      MidFields(m);
      assert PlacedMid(m) by { MidPlaced(m); }
      ScheduleAdvances(m, Clock(op));
      assert k > 0 ==> m.runqueue[1..][k - 1] == s.runqueue[k];
    }
  }

  lemma MidPlaced(s: Sched)
    requires InvMid(s)
    ensures PlacedMid(s)
  {}

  lemma {:induction false} QueuedAdvances(s: Sched, ops: seq<Op>, k: nat)
    requires Inv(s) && CanRun(s, ops) && k < |s.runqueue| && ScheduleCalls(s, ops) <= k
    ensures var j := k - ScheduleCalls(s, ops); j < |Run(s, ops).runqueue| && Run(s, ops).runqueue[j] == s.runqueue[k]
    decreases |ops|
  {
    hide Inv, Enabled, Schedules, Next;
    if ops != [] {
      var n := |ops| - 1;
      CanRunPrefix(s, ops, n);
      QueuedAdvances(s, ops[..n], k);
      RunKeeps(s, ops[..n]);
      var m := Run(s, ops[..n]);
      CurrentLives(m);
      StepAdvances(m, ops[n], k - ScheduleCalls(s, ops[..n]));
    }
  }

  lemma LastStep(s: Sched, ops: seq<Op>)
    requires ops != []
    ensures var n := |ops| - 1; var m := Run(s, ops[..n]);
                                && (m.current in m.tasks ==> Run(s, ops) == Next(m, ops[n]))
                                && ScheduleCalls(s, ops) == ScheduleCalls(s, ops[..n]) + if Schedules(m, ops[n]) then 1 else 0
  {}

  /** The task at position `k` of the runqueue is current right after the (k+1)-th call of `schedule`. */
  lemma TurnComes(s: Sched, ops: seq<Op>, k: nat)
    requires Inv(s) && CanRun(s, ops) && k < |s.runqueue| && ops != []
    requires ScheduleCalls(s, ops) == k + 1 && Schedules(Run(s, ops[..|ops| - 1]), ops[|ops| - 1])
    ensures Run(s, ops).current == s.runqueue[k]
  {
    hide Inv, Enabled, Schedules, Next, Run, ScheduleCalls, CanRun;
    var n := |ops| - 1;
    CanRunPrefix(s, ops, n);
    LastStep(s, ops);
    QueuedAdvances(s, ops[..n], k);
    RunKeeps(s, ops[..n]);
    var m := Run(s, ops[..n]);
    CurrentLives(m);
    assert Enabled(m, ops[n]) by { CanRunLast(s, ops); }
    StepAdvances(m, ops[n], 0);
  }

  lemma CanRunLast(s: Sched, ops: seq<Op>)
    requires CanRun(s, ops) && ops != []
    ensures Enabled(Run(s, ops[..|ops| - 1]), ops[|ops| - 1])
  {}

  /** A timer interrupt wakes exactly the tasks whose time has come, soonest first. */
  lemma {:induction false} WakesExactly(s: Sched, now: nat, n: nat)
    requires Placed(s) && n <= |s.sleeping|
    requires forall i | 0 <= i < n :: s.sleeping[i].until <= now
    requires forall i | n <= i < |s.sleeping| :: now < s.sleeping[i].until
    ensures WokenUp(s, now).sleeping == s.sleeping[n..]
    ensures WokenUp(s, now).runqueue == s.runqueue + seq(n, i requires 0 <= i < n => s.sleeping[i].pid)
    decreases n
  {
    hide PlacedMid;
    if n > 0 {
      WakeOneKeeps(s);
      var m := WokenOne(s);
      assert forall i | 0 <= i < |m.sleeping| :: m.sleeping[i] == s.sleeping[i + 1];
      WakesExactly(m, now, n - 1);
      assert m.sleeping[n - 1..] == s.sleeping[n..];
      var a := seq(n - 1, i requires 0 <= i < n - 1 => m.sleeping[i].pid);
      assert [s.sleeping[0].pid] + a == seq(n, i requires 0 <= i < n => s.sleeping[i].pid);
      assert (s.runqueue + [s.sleeping[0].pid]) + a == s.runqueue + ([s.sleeping[0].pid] + a);
    }
  }

  // ---- the protocol over runs ----

  /** In every state of every run nobody waits who has a zombie child. */
  lemma NoWaiterHasZombie(s: Sched, ops: seq<Op>, p: Pid, c: Pid)
    requires Inv(s) && CanRun(s, ops)
    ensures var t := Run(s, ops); p in t.waiting ==> !ZombieChild(t, p, c)
  {
    RunKeeps(s, ops);
  }

  /** In every run a task that goes on with `wait` finds a zombie child. */
  lemma ExpectHolds(s: Sched, ops: seq<Op>)
    requires Inv(s) && CanRun(s, ops)
    ensures var t := Run(s, ops); t.current in t.inWait ==> t.current in t.tasks && HasZombie(t, t.current)
  {
    RunKeeps(s, ops);
    var t := Run(s, ops);
    if t.current in t.inWait { WokenFindsZombie(t); }
  }

  lemma {:induction false} WakeKeepsHistory(s: Sched, now: nat)
    ensures WokenUp(s, now).reported == s.reported && WokenUp(s, now).queued == s.queued
    decreases |s.sleeping|
  {
    if s.sleeping != [] && now >= s.sleeping[0].until {
      var p := s.sleeping[0].pid;
      var s1 := s.(sleeping := s.sleeping[1..]);
      WakeKeepsHistory(if p in s.tasks then Enqueued(s1, p) else s1, now);
    }
  }

  lemma ScheduleHistory(s: Sched, now: nat)
    requires s.current in s.tasks && s.idle in s.tasks
    ensures Scheduled(s, now).reported == s.reported && Scheduled(s, now).queued == s.queued
  {}

  /** The history only grows, so what it says of a state it says of the whole run before it. */
  lemma HistoryGrows(s: Sched, op: Op)
    requires s.current in s.tasks
    ensures s.reported <= Next(s, op).reported && s.queued <= Next(s, op).queued
  {
    hide Scheduled, HasZombie, Schedules;
    if op.Timer? { WakeKeepsHistory(s, op.now); }
    var m := Before(s, op);
    if m.current in m.tasks && m.idle in m.tasks { ScheduleHistory(m, Clock(op)); }
  }

  /** Over a whole run each child is reported by `wait` at most once and queued for the reaper at most once. */
  lemma AtMostOnce(s: Sched, ops: seq<Op>)
    requires Inv(s) && CanRun(s, ops)
    ensures var t := Run(s, ops); NoDup(t.reported) && NoDup(t.queued)
    ensures var t := Run(s, ops); s.reported <= t.reported && s.queued <= t.queued
    decreases |ops|
  {
    hide Inv, Enabled, Next;
    RunKeeps(s, ops);
    assert NoDup(Run(s, ops).reported) && NoDup(Run(s, ops).queued) by { HistoryOnce(Run(s, ops)); }
    if ops != [] {
      var n := |ops| - 1;
      CanRunPrefix(s, ops, n);
      AtMostOnce(s, ops[..n]);
      RunKeeps(s, ops[..n]);
      CurrentLives(Run(s, ops[..n]));
      HistoryGrows(Run(s, ops[..n]), ops[n]);
    }
  }

  lemma HistoryOnce(s: Sched)
    requires Inv(s)
    ensures NoDup(s.reported) && NoDup(s.queued)
  {}

  // ---- zombies nobody collects ----

  /** A zombie that no task lists as its child and that is not queued for the reaper. */
  ghost predicate Stranded(s: Sched, c: Pid) {
    c in s.tasks && s.tasks[c].state == Zombie && c !in s.cleanup && forall p: Pid :: !ChildOf(s, p, c)
  }

  /** Whether a step of `op` leaves a zombie with nobody to collect it. */
  ghost predicate Strands(s: Sched, op: Op, c: Pid)
    requires s.current in s.tasks
  {
    && op.Exit?
    && (ZombieChild(s, s.current, c) || (c == s.current && DeadParent(s, s.tasks[c].parent)))
  }

  /** The parent has died and is still in the task table. */
  predicate DeadParent(s: Sched, parent: Option<Pid>) {
    parent.Some? && parent.value in s.tasks && !Living(s.tasks[parent.value].state)
  }

  lemma SameStranded(s: Sched, s': Sched, c: Pid)
    requires s'.tasks.Keys == s.tasks.Keys && s'.cleanup == s.cleanup
    requires forall p | p in s.tasks :: s'.tasks[p].children == s.tasks[p].children && (s'.tasks[p].state == Zombie <==> s.tasks[p].state == Zombie)
    ensures Stranded(s', c) <==> Stranded(s, c)
  {
    forall p: Pid ensures ChildOf(s', p, c) <==> ChildOf(s, p, c) {}
  }

  lemma SpawnStranded(s: Sched, orphan: bool, c: Pid)
    requires Inv(s)
    ensures Stranded(Spawned(s, orphan), c) <==> Stranded(s, c)
  {
    hide Placed;
    NewPid(s);
    CurrentLives(s);
    var s' := Spawned(s, orphan);
    if c != s.nextPid {
      forall p: Pid ensures ChildOf(s', p, c) <==> ChildOf(s, p, c) {}
    }
  }

  lemma ReapStranded(s: Sched, p: Pid, c: Pid)
    requires Inv(s) && p in s.tasks && HasZombie(s, p)
    ensures Stranded(Reaped(s, p), c) <==> Stranded(s, c)
  {
    hide Placed, FamilyOk, HasZombie, Reaped, ReapedChild;
    var s', k := Reaped(s, p), ReapedChild(s, p);
    ReapedIs(s, p);
    ReapView(s, p, k, s');
    assert ChildOf(s, p, k);
    if c != k {
      forall q: Pid ensures ChildOf(s', q, c) <==> ChildOf(s, q, c) {}
    }
  }

  lemma CleanStranded(s: Sched, c: Pid)
    requires Inv(s) && s.cleanup != []
    ensures Stranded(Cleaned(s), c) <==> Stranded(s, c)
  {
    hide Placed;
    var s', z := Cleaned(s), s.cleanup[0];
    assert z in s.cleanup && z in s.tasks && !Living(s.tasks[z].state);
    assert s.cleanup == [z] + s'.cleanup;
    forall q: Pid ensures ChildOf(s', q, c) <==> ChildOf(s, q, c) {}
  }

  lemma ExitStranded(s: Sched, code: int, now: nat, c: Pid)
    requires Inv(s) && s.current in s.tasks && s.current != s.idle && s.current !in s.inWait
    ensures Stranded(Died(s, code), c) <==> Stranded(s, c) || Strands(s, Exit(code, now), c)
  {
    if c == s.current {
      SelfStranded(s, code);
    } else {
      var s', me := Died(s, code), s.current;
      DiedChildren(s, code);
      DiedCleanup(s, code, c);
      assert ZombieChild(s, me, c) ==> ChildOf(s, me, c);
      forall q: Pid ensures ChildOf(s', q, c) <==> ChildOf(s, q, c) && q != me {}
      ZombieChildOnly(s, me, c);
    }
  }

  lemma DiedCleanup(s: Sched, code: int, c: Pid)
    requires s.current in s.tasks && c != s.current
    ensures c in Died(s, code).cleanup <==> c in s.cleanup
  {}

  /** A zombie child of a task is not queued, and is nobody else's child. */
  lemma ZombieChildOnly(s: Sched, p: Pid, c: Pid)
    requires Inv(s) && p in s.tasks
    ensures ZombieChild(s, p, c) ==> c !in s.cleanup && forall q: Pid | q != p :: !ChildOf(s, q, c)
  {}

  /** A dying task is stranded if and only if its parent is dead and still in the table. */
  lemma SelfStranded(s: Sched, code: int)
    requires Inv(s) && s.current in s.tasks && s.current != s.idle && s.current !in s.inWait
    ensures !Stranded(s, s.current) && !ZombieChild(s, s.current, s.current)
    ensures Stranded(Died(s, code), s.current) <==> DeadParent(s, s.tasks[s.current].parent)
  {
    var s', me := Died(s, code), s.current;
    CurrentLives(s);
    DiedChildren(s, code);
    var parent := s.tasks[me].parent;
    assert me !in s.cleanup;
    forall q: Pid ensures ChildOf(s', q, me) ==> parent == Some(q) && Living(s.tasks[q].state) {
      assert ChildOf(s, q, me) ==> ParentOf(s, me, q);
    }
    if parent.Some? {
      var p := parent.value;
      assert ParentOf(s, me, p);
      assert p in s.tasks && Living(s.tasks[p].state) ==> ChildOf(s', p, me);
    }
  }

  lemma FinishStranded(s: Sched, c: Pid)
    requires Inv(s) && s.current in s.tasks && s.current in s.inWait && HasZombie(s, s.current)
    ensures Stranded(Before(s, FinishWait), c) <==> Stranded(s, c)
  {
    hide Placed, FamilyOk, FirstZombie, Reaped;
    LeaveWait(s);
    var m := s.(inWait := s.inWait - {s.current});
    SameStranded(s, m, c);
    ReapStranded(m, s.current, c);
  }

  lemma BeforeStranded(s: Sched, op: Op, c: Pid)
    requires Inv(s) && s.current in s.tasks && Enabled(s, op)
    ensures Stranded(Before(s, op), c) <==> Stranded(s, c) || Strands(s, op, c)
  {
    hide Placed, FamilyOk, HasZombie, Stranded, Spawned, Reaped, Died, Cleaned, WokenUp, IrqArrived;
    CurrentLives(s);
    match op
    case Timer(now) => TimerKeeps(s, now); WakeFamily(s, now); SameStranded(s, WokenUp(s, now), c);
    case Irq(irq) => IrqFamily(s, irq); SameStranded(s, IrqArrived(s, irq), c);
    case BlockOnIrq(irq, now) => SameStranded(s, Before(s, op), c);
    case Sleep(ms, now) => SameStranded(s, Before(s, op), c);
    case Spawn(orphan) => SpawnStranded(s, orphan, c);
    case Wait(now) =>
      if HasZombie(s, s.current) { ReapStranded(s, s.current, c); } else { SameStranded(s, Before(s, op), c); }
    case FinishWait =>
      WokenFindsZombie(s);
      FinishStranded(s, c);
    case Exit(code, now) => ExitStranded(s, code, now, c);
    case Cleanup => CleanStranded(s, c);
  }

  /** A step strands a zombie if and only if it is the exit of the zombie's parent, or of the zombie itself after its parent has died. */
  lemma StepStrands(s: Sched, op: Op, c: Pid)
    requires Inv(s) && s.current in s.tasks && Enabled(s, op)
    ensures Stranded(Next(s, op), c) <==> Stranded(s, c) || Strands(s, op, c)
  {
    hide Inv, Enabled, Schedules, Before, Scheduled, Stranded, Strands;
    BeforeStranded(s, op, c);
    BeforeKeeps(s, op);
    if Schedules(s, op) {
      var m := Before(s, op);
      MidFields(m);
      MidPlaced(m);
      FamilyReaper(m);
      ScheduleFamily(m, Clock(op));
      SameStranded(m, Scheduled(m, Clock(op)), c);
    }
  }

  /** A stranded zombie stays in the task table for ever: no later step reports it or frees it. */
  lemma {:induction false} StrandedForever(s: Sched, ops: seq<Op>, c: Pid)
    requires Inv(s) && CanRun(s, ops) && Stranded(s, c)
    ensures Stranded(Run(s, ops), c) && c !in Run(s, ops).queued && c !in Run(s, ops).reported
    decreases |ops|
  {
    hide Inv, Enabled, Next, Stranded;
    RunKeeps(s, ops);
    if ops != [] {
      var n := |ops| - 1;
      CanRunPrefix(s, ops, n);
      StrandedForever(s, ops[..n], c);
      RunKeeps(s, ops[..n]);
      CurrentLives(Run(s, ops[..n]));
      StepStrands(Run(s, ops[..n]), ops[n], c);
    }
    StrandedUnqueued(Run(s, ops), c);
  }

  lemma StrandedUnqueued(s: Sched, c: Pid)
    requires Inv(s) && Stranded(s, c)
    ensures c !in s.queued && c !in s.reported
  {}

  lemma Extend(s: Sched, ops: seq<Op>, op: Op)
    requires CanRun(s, ops) && Run(s, ops).current in Run(s, ops).tasks && Enabled(Run(s, ops), op)
    ensures CanRun(s, ops + [op]) && Run(s, ops + [op]) == Next(Run(s, ops), op)
  {
    var all := ops + [op];
    assert all[..|ops|] == ops;
    forall i | 0 <= i < |all| ensures Enabled(Run(s, all[..i]), all[i]) {
      assert i < |ops| ==> all[..i] == ops[..i];
    }
  }

  const KERNEL_TASK := Task(Ready, None, [], -1)

  /** A core whose reaper sleeps, the first program as task 2 and its child as task 3. */
  function Example(parent: TaskState, child: TaskState, current: Pid, runqueue: seq<Pid>, code: int, last: nat): Sched {
    Sched(map[0 := KERNEL_TASK, 1 := KERNEL_TASK.(state := Sleeping), 2 := Task(parent, None, [3], -1), 3 := Task(child, Some(2), [], code)],
          current, 0, runqueue, [SleepNode(50_000_000, 1)], map[], {}, {}, [], last, 4, [], [])
  }

  const SPAWNED := Sched(map[0 := KERNEL_TASK, 1 := KERNEL_TASK, 2 := KERNEL_TASK], 0, 0, [1, 2], [], map[], {}, {}, [], 0, 3, [], [])
  const REAPING := Sched(map[0 := KERNEL_TASK, 1 := KERNEL_TASK.(state := Running), 2 := KERNEL_TASK], 1, 0, [2], [], map[], {}, {}, [], 0, 3, [], [])
  const STARTED := Sched(map[0 := KERNEL_TASK, 1 := KERNEL_TASK.(state := Sleeping), 2 := KERNEL_TASK.(state := Running)], 2, 0, [], [SleepNode(50_000_000, 1)], map[], {}, {}, [], 0, 3, [], [])

  lemma ExampleSpawns()
    ensures Next(Boot(), Spawn(true)) == SPAWNED
  {}

  lemma ExampleReaps()
    ensures Next(SPAWNED, Timer(0)) == REAPING
  {}

  lemma ExampleSleeps()
    ensures Next(REAPING, Sleep(5000, 0)) == STARTED
  {}

  lemma ExampleForks()
    ensures Next(STARTED, Spawn(false)) == Example(Running, Ready, 2, [3], -1, 0)
  {}

  lemma ExampleSwitches()
    ensures Next(Example(Running, Ready, 2, [3], -1, 0), Timer(400_000)) == Example(Ready, Running, 3, [2], -1, 400_000)
  {}

  lemma ExampleChildExits()
    ensures Next(Example(Ready, Running, 3, [2], -1, 400_000), Exit(0, 400_000)) == Example(Running, Zombie, 2, [], 0, 400_000)
  {}

  lemma ExampleRun(ops: seq<Op>)
    requires ops == [Spawn(true), Timer(0), Sleep(5000, 0), Spawn(false), Timer(400_000), Exit(0, 400_000)]
    ensures CanRun(Boot(), ops) && Run(Boot(), ops) == Example(Running, Zombie, 2, [], 0, 400_000)
  {
    hide Next, Run, CanRun;
    var s0 := Boot();
    assert CanRun(s0, []) && Run(s0, []) == s0 by { EmptyRun(s0); }
    ExampleSpawns();
    Extend(s0, [], ops[0]);
    assert [] + [ops[0]] == ops[..1];
    ExampleReaps();
    Extend(s0, ops[..1], ops[1]);
    assert ops[..1] + [ops[1]] == ops[..2];
    ExampleSleeps();
    Extend(s0, ops[..2], ops[2]);
    assert ops[..2] + [ops[2]] == ops[..3];
    ExampleForks();
    Extend(s0, ops[..3], ops[3]);
    assert ops[..3] + [ops[3]] == ops[..4];
    ExampleSwitches();
    Extend(s0, ops[..4], ops[4]);
    assert ops[..4] + [ops[4]] == ops[..5];
    ExampleChildExits();
    Extend(s0, ops[..5], ops[5]);
    assert ops[..5] + [ops[5]] == ops;
  }

  lemma EmptyRun(s: Sched)
    ensures CanRun(s, []) && Run(s, []) == s
  {}

  /** A program that exits without waiting for its dead child leaves the child in the task table for ever. */
  lemma StrandedExample()
    ensures exists ops: seq<Op> :: CanRun(Boot(), ops) && Stranded(Run(Boot(), ops), 3)
  {
    hide Inv, Next, Run, CanRun, Stranded;
    var ops := [Spawn(true), Timer(0), Sleep(5000, 0), Spawn(false), Timer(400_000), Exit(0, 400_000)];
    ExampleRun(ops);
    BootInv();
    RunKeeps(Boot(), ops);
    var s := Run(Boot(), ops);
    assert ZombieChild(s, 2, 3) by { assert s.tasks[2].children[0] == 3; }
    StepStrands(s, Exit(0, 400_000), 3);
    Extend(Boot(), ops, Exit(0, 400_000));
    assert Stranded(Run(Boot(), ops + [Exit(0, 400_000)]), 3);
  }
}
