/**
 The scheduler of one core as it runs: every operation updates the queues and task states in place
 and performs one step of the transition system.
 */
module SchedulerCore {
  import opened Basics
  import opened Scheduler
  import opened SchedulerPlaces
  import opened WaitExit
  import opened SchedulerRuns
  import opened SchedulerEffects

  datatype WaitResult = Child(pid: Pid, exitCode: int) | NoChild | Parked

  ghost predicate Steps(s: Sched, op: Op, s': Sched) {
    s.current in s.tasks && s' == Next(s, op)
  }

  ghost predicate Childless(s: Sched) {
    s.current in s.tasks && s.tasks[s.current].children == []
  }

  /** The result is a zombie child with its exit code. */
  ghost predicate Reports(s: Sched, p: Pid, r: WaitResult) {
    r.Child? && ZombieChild(s, p, r.pid) && r.exitCode == s.tasks[r.pid].exitCode
  }

  class Core {
    var tasks: map<Pid, Task>
    var current: Pid
    const idle: Pid
    var runqueue: seq<Pid>
    var sleeping: seq<SleepNode>
    var irqWait: map<nat, seq<Pid>>
    var waiting: set<Pid>
    var cleanup: seq<Pid>
    var lastEntrance: nat
    var nextPid: Pid
    ghost var inWait: set<Pid>
    ghost var reported: seq<Pid>
    ghost var queued: seq<Pid>

    ghost function State(): Sched
      reads this
    {
      Sched(tasks, current, idle, runqueue, sleeping, irqWait, waiting, inWait, cleanup, lastEntrance, nextPid, reported, queued)
    }

    ghost predicate Valid()
      reads this
    {
      Inv(State())
    }

    /** `setup_core`. */
    constructor ()
      ensures State() == Boot() && Valid()
    {
      var kernelTask := Task(Ready, None, [], -1);
      tasks := map[0 := kernelTask, 1 := kernelTask];
      current, idle, runqueue, sleeping, irqWait := 0, 0, [1], [], map[];
      waiting, cleanup, lastEntrance, nextPid := {}, [], 0, 2;
      inWait, reported, queued := {}, [], [];
      new;
      BootInv();
    }

    method SetTask(p: Pid, st: TaskState)
      requires p in tasks
      modifies `tasks
      ensures State() == SetState(old(State()), p, st)
    {
      tasks := tasks[p := tasks[p].(state := st)];
    }

    method EnqueueNewTask(p: Pid)
      requires p in tasks && tasks[p].state == Ready
      modifies `runqueue
      ensures State() == Enqueued(old(State()), p)
    {
      assert tasks == tasks[p := tasks[p].(state := Ready)];
      runqueue := runqueue + [p];
    }

    /** Pops the runqueue until an entry is ready. */
    method NextTask() returns (next: Option<Pid>)
      modifies `runqueue
      ensures (next, runqueue) == PopReady(tasks, old(runqueue))
      ensures next.Some? ==> next.value in tasks && tasks[next.value].state == Ready
    {
      while runqueue != []
        invariant PopReady(tasks, runqueue) == PopReady(tasks, old(runqueue))
        decreases |runqueue|
      {
        var task := runqueue[0];
        runqueue := runqueue[1..];
        if task in tasks && tasks[task].state == Ready {
          return Some(task);
        }
      }
      next := None;
    }

    method Schedule(now: nat)
      requires InvMid(State())
      modifies `tasks, `current, `runqueue, `lastEntrance
      ensures old(current) in old(tasks) && idle in old(tasks) && State() == Scheduled(old(State()), now) && Valid()
    {
      hide Inv, InvMid;
      MidFields(State());
      ScheduleStep(State(), now);
      ghost var before := State();
      var next := NextTask();
      match next
      case Some(newTask) =>
        SetTask(newTask, Running);
        if current != idle && tasks[current].state == Running {
          SetTask(current, Ready);
          runqueue := runqueue + [current];
        } else if current != idle && tasks[current].state == Ready {
          runqueue := runqueue + [current];
        }
        lastEntrance := now;
        current := newTask;
        assert State() == Scheduled(before, now);
      case None =>
        if tasks[current].state == Ready || tasks[current].state == Running {
          SetTask(current, Running);
          return;
        }
        current := idle;
        SetTask(idle, Running);
        lastEntrance := now;
    }

    /** Wakes every sleeping task whose time has come. */
    method WakeUp(now: nat) returns (some: bool)
      modifies `tasks, `runqueue, `sleeping
      ensures State() == WokenUp(old(State()), now)
      ensures some <==> runqueue != old(runqueue)
    {
      some := false;
      while sleeping != [] && now >= sleeping[0].until
        invariant WokenUp(State(), now) == WokenUp(old(State()), now)
        invariant old(runqueue) <= runqueue && (some <==> runqueue != old(runqueue))
        decreases |sleeping|
      {
        var p := sleeping[0].pid;
        sleeping := sleeping[1..];
        if p in tasks {
          SetTask(p, Ready);
          runqueue := runqueue + [p];
          some := true;
        }
      }
    }

    method OnTimerInterrupt(now: nat)
      requires Valid()
      modifies this
      ensures Steps(old(State()), Timer(now), State()) && Valid()
    {
      hide Inv, InvMid, WokenUp, Scheduled;
      CurrentLives(State());
      BeforeKeeps(State(), Timer(now));
      var last := lastEntrance;
      var woke := WakeUp(now);
      if (current != idle && now - last > TIME_SLICE) || woke || (current == idle && runqueue != []) {
        MidFields(State());
        Schedule(now);
      }
    }

    method OnExternalIrq(irq: nat)
      requires Valid()
      modifies this
      ensures Steps(old(State()), Irq(irq), State()) && Valid()
    {
      hide Inv, InvMid;
      CurrentLives(State());
      BeforeKeeps(State(), Irq(irq));
      if irq !in irqWait || irqWait[irq] == [] {
        return;
      }
      var p := irqWait[irq][0];
      irqWait := irqWait[irq := irqWait[irq][1..]];
      if p !in tasks {
        return;
      }
      SetTask(p, Ready);
      EnqueueNewTask(p);
    }

    method BlockOnExternalIrq(irq: nat, now: nat)
      requires Valid() && Enabled(State(), BlockOnIrq(irq, now))
      modifies this
      ensures Steps(old(State()), BlockOnIrq(irq, now), State()) && Valid()
    {
      hide Inv, InvMid, Scheduled;
      CurrentLives(State());
      BeforeKeeps(State(), BlockOnIrq(irq, now));
      SetTask(current, Blocked);
      if irq in irqWait {
        irqWait := irqWait[irq := irqWait[irq] + [current]];
      } else {
        irqWait := irqWait[irq := [] + [current]];
      }
      Schedule(now);
    }

    /** Puts a node behind those that wake no later. */
    method PushSleeping(n: SleepNode)
      modifies `sleeping
      ensures sleeping == InsertNode(old(sleeping), n)
    {
      var i := 0;
      while i < |sleeping| && sleeping[i].until <= n.until
        invariant i <= |sleeping| && forall j | 0 <= j < i :: sleeping[j].until <= n.until
      {
        i := i + 1;
      }
      InsertsAt(sleeping, n, i);
      sleeping := sleeping[..i] + [n] + sleeping[i..];
    }

    method SleepCurrentTask(ms: nat, now: nat)
      requires Valid() && Enabled(State(), Sleep(ms, now))
      modifies this
      ensures Steps(old(State()), Sleep(ms, now), State()) && Valid()
    {
      hide Inv, InvMid, Scheduled, InsertNode;
      CurrentLives(State());
      BeforeKeeps(State(), Sleep(ms, now));
      SetTask(current, Sleeping);
      PushSleeping(SleepNode(WakeTime(now, ms), current));
      Schedule(now);
    }

    /** `fork`, or `spawn` with or without a parent. */
    method Fork(orphan: bool) returns (pid: Pid)
      requires Valid() && Enabled(State(), Spawn(orphan))
      modifies this
      ensures Steps(old(State()), Spawn(orphan), State()) && Valid()
      ensures pid !in old(tasks) && pid in tasks && tasks[pid].state == Ready
      ensures tasks[pid].parent == if orphan then None else Some(old(current))
    {
      hide Inv, InvMid;
      CurrentLives(State());
      BeforeKeeps(State(), Spawn(orphan));
      pid := nextPid;
      nextPid := nextPid + 1;
      var parent := None;
      if !orphan {
        tasks := tasks[current := tasks[current].(children := tasks[current].children + [pid])];
        parent := Some(current);
      }
      tasks := tasks[pid := Task(Ready, parent, [], -1)];
      EnqueueNewTask(pid);
    }

    /** The position of the first zombie in a list of children. */
    method ZombiePosition(cs: seq<Pid>) returns (i: nat)
      ensures i == FirstZombie(tasks, cs)
    {
      i := 0;
      while i < |cs| && !(cs[i] in tasks && tasks[cs[i]].state == Zombie)
        invariant i <= |cs| && FirstZombie(tasks, cs) == i + FirstZombie(tasks, cs[i..])
      {
        i := i + 1;
      }
    }

    /** `reap_zombie_child`. */
    method ReapZombieChild(p: Pid) returns (r: WaitResult)
      requires p in tasks
      modifies `tasks, `cleanup, `reported, `queued
      ensures if old(HasZombie(State(), p))
              then State() == old(Reaped(State(), p)) && r == Child(old(ReapedChild(State(), p)), old(tasks[ReapedChild(State(), p)].exitCode))
              else State() == old(State()) && r == NoChild
      ensures p in tasks && (r.Child? ==> reported == old(reported) + [r.pid])
    {
      hide FirstZombie;
      var cs := tasks[p].children;
      var i := ZombiePosition(cs);
      if i == |cs| {
        return NoChild;
      }
      var child := cs[i];
      tasks := tasks[p := tasks[p].(children := cs[..i] + cs[i + 1..])];
      SetTask(child, Exited);
      cleanup := cleanup + [child];
      reported, queued := reported + [child], queued + [child];
      r := Child(child, tasks[child].exitCode);
    }

    /** `wait`, until it returns or blocks. */
    method WaitForChild(now: nat) returns (r: WaitResult)
      requires Valid() && Enabled(State(), Wait(now))
      modifies this
      ensures Steps(old(State()), Wait(now), State()) && Valid()
      ensures r.NoChild? <==> Childless(old(State()))
      ensures r.Parked? ==> old(current) in waiting
      ensures r.Child? ==> Reports(old(State()), old(current), r) && reported == old(reported) + [r.pid]
    {
      hide Inv, InvMid, Scheduled, HasZombie, Reaped;
      ghost var before := State();
      CurrentLives(State());
      BeforeKeeps(State(), Wait(now));
      if tasks[current].children == [] {
        NoChildren(State());
        return NoChild;
      }
      BlockedReaps(State());
      ZombieFound(State(), current);
      SetTask(current, Blocked);
      r := ReapZombieChild(current);
      if r.NoChild? {
        waiting := waiting + {current};
        inWait := inWait + {current};
        ParkedWaits(State(), now);
        Schedule(now);
        r := Parked;
      } else {
        SetTask(current, Running);
      }
    }

    /** The rest of a `wait` that has blocked. */
    method ResumeWait() returns (r: WaitResult)
      requires Valid() && Enabled(State(), FinishWait)
      modifies this
      ensures Steps(old(State()), FinishWait, State()) && Valid()
      ensures Reports(old(State()), old(current), r) && reported == old(reported) + [r.pid]
    {
      hide Inv, InvMid, FirstZombie, Reaped;
      CurrentLives(State());
      BeforeKeeps(State(), FinishWait);
      WokenFindsZombie(State());
      inWait := inWait - {current};
      r := ReapZombieChild(current);
    }

    /** `on_task_exit`, up to the call of `schedule`. */
    method OnTaskExit(task: Pid)
      requires task in tasks
      modifies `tasks, `runqueue, `waiting, `cleanup, `queued
      ensures State() == Notified(old(State()), task)
    {
      var parent := tasks[task].parent;
      if parent.Some? && parent.value in tasks {
        if parent.value in waiting {
          waiting := waiting - {parent.value};
          SetTask(parent.value, Ready);
          EnqueueNewTask(parent.value);
        }
      } else {
        cleanup := cleanup + [task];
        queued := queued + [task];
      }
    }

    method ExitCurrent(code: int, now: nat)
      requires Valid() && Enabled(State(), Exit(code, now))
      modifies this
      ensures Steps(old(State()), Exit(code, now), State()) && Valid()
      ensures old(current) in tasks && !Living(tasks[old(current)].state) && tasks[old(current)].exitCode == code
    {
      hide Inv, InvMid, Scheduled;
      CurrentLives(State());
      ExitLeavesCode(State(), code, now);
      BeforeKeeps(State(), Exit(code, now));
      ghost var before := State();
      var task := current;
      if tasks[task].state == Exited {
        return;
      }
      tasks := tasks[task := tasks[task].(exitCode := code)];
      SetTask(task, Zombie);
      tasks := tasks[task := tasks[task].(children := [])];
      assert State() == Gone(before, code);
      OnTaskExit(task);
      Schedule(now);
    }

    /** One round of the reaper's loop: `cleanup` of the first task in its queue. */
    method CleanupOne()
      requires Valid() && Enabled(State(), Cleanup)
      modifies `tasks, `cleanup
      ensures Steps(old(State()), Cleanup, State()) && Valid()
      ensures old(cleanup) == [old(cleanup)[0]] + cleanup && tasks == old(tasks) - {old(cleanup)[0]}
    {
      hide Inv;
      CurrentLives(State());
      CleanStep(State());
      var task := cleanup[0];
      cleanup := cleanup[1..];
      tasks := tasks - {task};
    }

    /** The reaper's loop: every queued task leaves the table, and no other. */
    method ReapAll()
      requires Valid() && current != idle && current !in inWait
      modifies `tasks, `cleanup
      ensures Valid() && cleanup == []
      ensures tasks == old(tasks) - Elements(old(cleanup))
    {
      hide Inv, Next;
      ghost var done := [];
      while cleanup != []
        invariant Valid() && current != idle && current !in inWait
        invariant done + cleanup == old(cleanup) && tasks == old(tasks) - Elements(done)
        decreases |cleanup|
      {
        ghost var first := cleanup[0];
        CleanupOne();
        done := done + [first];
      }
    }
  }

  /** Over every run, the code that `wait` reports for a task is the one that task has passed to `exit`. */
  lemma ReportedCode(s: Sched, ops: seq<Op>, k: nat, code: int, now: nat, parent: Pid, r: WaitResult)
    requires Inv(s) && CanRun(s, ops) && k < |ops| && ops[k] == Exit(code, now)
    requires Reports(Run(s, ops), parent, r) && r.pid == Run(s, ops[..k]).current
    ensures r.exitCode == code
  {
    hide Inv, CanRun, Run;
    CodeKept(s, ops, k, code, now);
  }

  function Elements(s: seq<Pid>): set<Pid> {
    set p | p in s
  }

  /** The node goes behind the longest run of nodes that wake no later. */
  lemma {:induction false} InsertsAt(q: seq<SleepNode>, n: SleepNode, i: nat)
    requires i <= |q| && (forall j | 0 <= j < i :: q[j].until <= n.until) && (i < |q| ==> q[i].until > n.until)
    ensures InsertNode(q, n) == q[..i] + [n] + q[i..]
    decreases i
  {
    if i > 0 {
      InsertsAt(q[1..], n, i - 1);
      assert q[..i] == [q[0]] + q[1..][..i - 1] && q[i..] == q[1..][i - 1..];
    }
  }

  /** What `on_task_exit` does about a dead task. */
  function Notified(s: Sched, task: Pid): Sched
    requires task in s.tasks
  {
    var parent := s.tasks[task].parent;
    if parent.Some? && parent.value in s.tasks then
      if parent.value in s.waiting then Enqueued(s.(waiting := s.waiting - {parent.value}), parent.value) else s
    else s.(cleanup := s.cleanup + [task], queued := s.queued + [task])
  }

  lemma NoChildren(s: Sched)
    requires s.current in s.tasks && s.tasks[s.current].children == []
    ensures !HasZombie(s, s.current)
  {}

  lemma {:induction false} SameZombie(a: map<Pid, Task>, b: map<Pid, Task>, cs: seq<Pid>)
    requires a.Keys == b.Keys && forall c | c in cs && c in a :: a[c].state == Zombie <==> b[c].state == Zombie
    ensures FirstZombie(a, cs) == FirstZombie(b, cs)
  {}

  /** That the waiting task is marked blocked does not change which child it reaps. */
  lemma BlockedReaps(s: Sched)
    requires Inv(s) && s.current in s.tasks && s.current != s.idle
    ensures var b := SetState(s, s.current, Blocked);
            && (HasZombie(b, s.current) <==> HasZombie(s, s.current))
            && (HasZombie(s, s.current) ==> ReapedChild(b, s.current) == ReapedChild(s, s.current) && SetState(Reaped(b, s.current), s.current, Running) == Reaped(s, s.current))
  {
    hide FirstZombie, Inv;
    var p := s.current;
    var b := SetState(s, p, Blocked);
    SelfChild(s);
    SameZombie(s.tasks, b.tasks, s.tasks[p].children);
    if HasZombie(s, p) {
      var l, r := SetState(Reaped(b, p), p, Running), Reaped(s, p);
      var c := ReapedChild(s, p);
      forall q | q in l.tasks ensures l.tasks[q] == r.tasks[q] {}
      assert l.tasks == r.tasks;
    }
  }

  /** A task that runs is not its own child. */
  lemma SelfChild(s: Sched)
    requires Inv(s) && s.current != s.idle
    ensures s.current in s.tasks && s.tasks[s.current].state == Running && s.current !in s.tasks[s.current].children
  {}

  lemma ParkedWaits(s: Sched, now: nat)
    requires InvMid(s) && s.current in s.waiting
    ensures s.current in s.tasks && s.idle in s.tasks && Scheduled(s, now).waiting == s.waiting
  {}
}
