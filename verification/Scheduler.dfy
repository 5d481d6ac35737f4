/**
 The scheduler of one core and the wait/exit protocol, as a transition system over any number of
 tasks.  One step is one stretch of kernel code from a trap to `schedule()`.
 */
module Scheduler {
  import opened Basics

  type Pid = nat

  datatype TaskState = Sleeping | Running | Ready | Blocked | Zombie | Exited

  datatype Task = Task(state: TaskState, parent: Option<Pid>, children: seq<Pid>, exitCode: int)

  datatype SleepNode = SleepNode(until: nat, pid: Pid)

  datatype Sched = Sched(
    /** The task table. */
    tasks: map<Pid, Task>,
    current: Pid,
    idle: Pid,
    runqueue: seq<Pid>,
    /** Sleeping tasks, soonest first. */
    sleeping: seq<SleepNode>,
    /** Tasks blocked on an external interrupt, one queue for each. */
    irqWait: map<nat, seq<Pid>>,
    /** Tasks blocked in `wait`. */
    waiting: set<Pid>,
    /** Tasks that have to look for a zombie child again before they return from `wait`. */
    inWait: set<Pid>,
    /** Tasks the reaper has to clean up. */
    cleanup: seq<Pid>,
    /** When the current task started to run. */
    lastEntrance: nat,
    /** The next process id to hand out. */
    nextPid: Pid,
    /** History: the children `wait` has reported, and the tasks ever queued for the reaper. */
    reported: seq<Pid>,
    queued: seq<Pid>
  )

  // ---- places ----

  predicate NoDup<T(==)>(s: seq<T>) {
    forall i, j | 0 <= i < j < |s| :: s[i] != s[j]
  }

  ghost predicate Asleep(s: Sched, p: Pid) {
    exists k: nat :: k < |s.sleeping| && s.sleeping[k].pid == p
  }

  ghost predicate OnIrq(s: Sched, p: Pid) {
    exists irq: nat, k: nat :: irq in s.irqWait && k < |s.irqWait[irq]| && s.irqWait[irq][k] == p
  }

  /** Nothing is queued twice. */
  ghost predicate QueuesOk(s: Sched) {
    && NoDup(s.runqueue)
    && (forall i, j | 0 <= i < j < |s.sleeping| :: s.sleeping[i].pid != s.sleeping[j].pid)
    && (forall i, j | 0 <= i < j < |s.sleeping| :: s.sleeping[i].until <= s.sleeping[j].until)
    && (forall a: nat, b: nat, i: nat, j: nat |
          a in s.irqWait && b in s.irqWait && i < |s.irqWait[a]| && j < |s.irqWait[b]| && s.irqWait[a][i] == s.irqWait[b][j] ::
          a == b && i == j)
  }

  /** Everything queued is a task in the table, and not the idle task. */
  ghost predicate QueuedLive(s: Sched) {
    && (forall p | p in s.runqueue :: p in s.tasks && p != s.idle)
    && (forall k | 0 <= k < |s.sleeping| :: s.sleeping[k].pid in s.tasks && s.sleeping[k].pid != s.idle)
    && (forall irq: nat, k: nat | irq in s.irqWait && k < |s.irqWait[irq]| :: s.irqWait[irq][k] in s.tasks && s.irqWait[irq][k] != s.idle)
    && (forall p | p in s.waiting :: p in s.tasks && p != s.idle)
  }

  /** A task is where its state says, and nowhere else. */
  ghost predicate InPlace(s: Sched, p: Pid)
    requires p in s.tasks
  {
    var st := s.tasks[p].state;
    && (st == Ready <==> p in s.runqueue)
    && (st == Sleeping <==> Asleep(s, p))
    && (st == Blocked <==> OnIrq(s, p) || p in s.waiting)
    && !(OnIrq(s, p) && p in s.waiting)
    && (st == Running ==> p == s.current)
  }

  /** What holds in the middle of a step: the current task may have stopped running already. */
  ghost predicate PlacedMid(s: Sched) {
    && s.current in s.tasks && s.idle in s.tasks && s.current !in s.runqueue
    && QueuesOk(s) && QueuedLive(s)
    && (forall p | p in s.tasks && p != s.idle :: InPlace(s, p))
  }

  /** Between steps every non-idle task is in exactly one place: current, queued, asleep, waiting, or done. */
  ghost predicate Placed(s: Sched) {
    PlacedMid(s) && (s.current != s.idle ==> s.tasks[s.current].state == Running)
  }

  // ---- schedule ----

  function SetState(s: Sched, p: Pid, st: TaskState): Sched
    requires p in s.tasks
  {
    s.(tasks := s.tasks[p := s.tasks[p].(state := st)])
  }

  /** Pops entries until one is ready; the others are discarded. */
  function PopReady(tasks: map<Pid, Task>, rq: seq<Pid>): (Option<Pid>, seq<Pid>)
    decreases |rq|
  {
    if rq == [] then (None, [])
    else if rq[0] in tasks && tasks[rq[0]].state == Ready then (Some(rq[0]), rq[1..])
    else PopReady(tasks, rq[1..])
  }

  /** What becomes of the task that stops being current. */
  function Requeued(s: Sched): Sched
    requires s.current in s.tasks
  {
    if s.current == s.idle then s
    else if s.tasks[s.current].state == Running then SetState(s, s.current, Ready).(runqueue := s.runqueue + [s.current])
    else if s.tasks[s.current].state == Ready then s.(runqueue := s.runqueue + [s.current])
    else s
  }

  /** `schedule`. */
  function Scheduled(s: Sched, now: nat): Sched
    requires s.current in s.tasks && s.idle in s.tasks
  {
    var (next, rq) := PopReady(s.tasks, s.runqueue);
    match next
    case Some(n) =>
      if n in s.tasks then
        Requeued(SetState(s.(runqueue := rq), n, Running)).(current := n, lastEntrance := now)
      else s
    case None =>
      var st := s.tasks[s.current].state;
      if st == Ready || st == Running then SetState(s.(runqueue := rq), s.current, Running)
      else SetState(s.(runqueue := rq), s.idle, Running).(current := s.idle, lastEntrance := now)
  }

  /** The first runqueue entry is always ready: no stale entry is ever discarded. */
  lemma NoStaleEntry(s: Sched)
    requires PlacedMid(s)
    ensures PopReady(s.tasks, s.runqueue) == if s.runqueue == [] then (None, []) else (Some(s.runqueue[0]), s.runqueue[1..])
  {}

  // ---- the steps ----

  /** 32 milliseconds of the 10 MHz clock. */
  const TIME_SLICE := 320_000

  /** When a task that sleeps for `ms` milliseconds wakes: at once if the time overflows. */
  function WakeTime(now: nat, ms: nat): nat {
    var nanos := if ms * 1_000_000 < U64_LIMIT then ms * 1_000_000 else 0;
    var ticks := nanos * 10_000_000 % U64_LIMIT / 1_000_000_000;
    if now + ticks < U64_LIMIT then now + ticks else 0
  }

  /** A sleep node goes behind those that wake no later. */
  function InsertNode(q: seq<SleepNode>, n: SleepNode): seq<SleepNode> {
    if q != [] && q[0].until <= n.until then [q[0]] + InsertNode(q[1..], n) else [n] + q
  }

  /** `sleep_current_task`, up to its call of `schedule`. */
  function PutToSleep(s: Sched, until: nat): Sched
    requires s.current in s.tasks
  {
    SetState(s, s.current, Sleeping).(sleeping := InsertNode(s.sleeping, SleepNode(until, s.current)))
  }

  /** `block_on_external_irq`, up to its call of `schedule`. */
  function PutOnIrq(s: Sched, irq: nat): Sched
    requires s.current in s.tasks
  {
    var q := if irq in s.irqWait then s.irqWait[irq] else [];
    SetState(s, s.current, Blocked).(irqWait := s.irqWait[irq := q + [s.current]])
  }

  /** A task in the table becomes ready, at the back of the runqueue. */
  function Enqueued(s: Sched, p: Pid): Sched
    requires p in s.tasks
  {
    SetState(s, p, Ready).(runqueue := s.runqueue + [p])
  }

  /** `on_external_irq`. */
  function IrqArrived(s: Sched, irq: nat): Sched {
    if irq !in s.irqWait || s.irqWait[irq] == [] then s
    else
      var p := s.irqWait[irq][0];
      var s1 := s.(irqWait := s.irqWait[irq := s.irqWait[irq][1..]]);
      if p in s.tasks then Enqueued(s1, p) else s1
  }

  /** `with_tasks_to_wake_up`, waking every task whose time has come. */
  function WokenUp(s: Sched, now: nat): Sched
    decreases |s.sleeping|
  {
    if s.sleeping == [] || now < s.sleeping[0].until then s
    else
      var p := s.sleeping[0].pid;
      var s1 := s.(sleeping := s.sleeping[1..]);
      WokenUp(if p in s.tasks then Enqueued(s1, p) else s1, now)
  }

  /** Whether a timer interrupt calls `schedule`. */
  predicate TimerSchedules(s: Sched, now: nat) {
    || (s.current != s.idle && now - s.lastEntrance > TIME_SLICE)
    || WokenUp(s, now).runqueue != s.runqueue
    || (s.current == s.idle && s.runqueue != [])
  }

  /** `fork` and `spawn`: a new ready task, with its parent or with none. */
  function Spawned(s: Sched, orphan: bool): Sched
    requires s.current in s.tasks
  {
    var p := s.nextPid;
    var me := s.tasks[s.current];
    var tasks := if orphan then s.tasks else s.tasks[s.current := me.(children := me.children + [p])];
    s.(tasks := tasks[p := Task(Ready, if orphan then None else Some(s.current), [], -1)],
    runqueue := s.runqueue + [p], nextPid := p + 1)
  }

  /** The first child of a list that is a zombie. */
  function FirstZombie(tasks: map<Pid, Task>, children: seq<Pid>): (i: nat)
    ensures i <= |children|
    ensures i < |children| ==> children[i] in tasks && tasks[children[i]].state == Zombie
    ensures forall j | 0 <= j < i :: children[j] in tasks ==> tasks[children[j]].state != Zombie
  {
    if children == [] || (children[0] in tasks && tasks[children[0]].state == Zombie) then 0
    else 1 + FirstZombie(tasks, children[1..])
  }

  predicate HasZombie(s: Sched, p: Pid)
    requires p in s.tasks
  {
    FirstZombie(s.tasks, s.tasks[p].children) < |s.tasks[p].children|
  }

  /** The zombie child `reap_zombie_child` picks. */
  function ReapedChild(s: Sched, p: Pid): Pid
    requires p in s.tasks && HasZombie(s, p)
  {
    s.tasks[p].children[FirstZombie(s.tasks, s.tasks[p].children)]
  }

  /** `reap_zombie_child`, when there is one. */
  function Reaped(s: Sched, p: Pid): Sched
    requires p in s.tasks && HasZombie(s, p)
  {
    var cs := s.tasks[p].children;
    var i := FirstZombie(s.tasks, cs);
    var c := cs[i];
    var t1 := s.tasks[p := s.tasks[p].(children := cs[..i] + cs[i + 1..])];
    s.(tasks := t1[c := t1[c].(state := Exited)], cleanup := s.cleanup + [c],
    queued := s.queued + [c], reported := s.reported + [c])
  }

  /** `block_on_wait`, up to its call of `schedule`. */
  function PutOnWait(s: Sched): Sched
    requires s.current in s.tasks
  {
    SetState(s, s.current, Blocked).(waiting := s.waiting + {s.current}, inWait := s.inWait + {s.current})
  }

  /** `exit` and `on_task_exit`, up to the call of `schedule`. */
  function Died(s: Sched, code: int): Sched
    requires s.current in s.tasks
  {
    var me := s.tasks[s.current];
    var s1 := s.(tasks := s.tasks[s.current := me.(state := Zombie, exitCode := code, children := [])]);
    if me.parent.Some? && me.parent.value in s1.tasks then
      var p := me.parent.value;
      if p in s.waiting then Enqueued(s1.(waiting := s.waiting - {p}), p) else s1
    else s1.(cleanup := s.cleanup + [s.current], queued := s.queued + [s.current])
  }

  /** `cleanup` of the first task in the reaper's queue. */
  function Cleaned(s: Sched): Sched
    requires s.cleanup != []
  {
    s.(tasks := s.tasks - {s.cleanup[0]}, cleanup := s.cleanup[1..])
  }

  datatype Op =
    | Timer(now: nat)
    | Irq(irq: nat)
    | BlockOnIrq(irq: nat, now: nat)
    | Sleep(ms: nat, now: nat)
    | Spawn(orphan: bool)
      /** `wait` up to its return or until it blocks. */
    | Wait(now: nat)
      /** The rest of a `wait` that has blocked. */
    | FinishWait
    | Exit(code: int, now: nat)
    | Cleanup

  /** Interrupts come at any time; a task that resumes inside `wait` finishes it first. */
  ghost predicate Enabled(s: Sched, op: Op) {
    match op
    case Timer(_) => true
    case Irq(_) => true
    case FinishWait => s.current in s.inWait
    case Cleanup => s.cleanup != [] && s.current != s.idle && s.current !in s.inWait
    case Spawn(orphan) => s.current !in s.inWait
    case _ => s.current != s.idle && s.current !in s.inWait
  }

  /** Whether a step calls `schedule`. */
  predicate Schedules(s: Sched, op: Op) {
    match op
    case Timer(now) => TimerSchedules(s, now)
    case Irq(_) => false
    case BlockOnIrq(_, _) => true
    case Sleep(_, _) => true
    case Spawn(_) => false
    case Wait(_) => s.current in s.tasks && s.tasks[s.current].children != [] && !HasZombie(s, s.current)
    case FinishWait => false
    case Exit(_, _) => true
    case Cleanup => false
  }

  /** What a step does before it calls `schedule`, if it does. */
  function Before(s: Sched, op: Op): Sched
    requires s.current in s.tasks
  {
    match op
    case Timer(now) => WokenUp(s, now)
    case Irq(irq) => IrqArrived(s, irq)
    case BlockOnIrq(irq, _) => PutOnIrq(s, irq)
    case Sleep(ms, now) => PutToSleep(s, WakeTime(now, ms))
    case Spawn(orphan) => Spawned(s, orphan)
    case Wait(_) =>
      if s.tasks[s.current].children == [] then s
      else if HasZombie(s, s.current) then Reaped(s, s.current)
      else PutOnWait(s)
    case FinishWait =>
      var s1 := s.(inWait := s.inWait - {s.current});
      if HasZombie(s, s.current) then Reaped(s1, s.current) else s1
    case Exit(code, _) => Died(s, code)
    case Cleanup => if s.cleanup == [] then s else Cleaned(s)
  }

  /** The clock when a step calls `schedule`. */
  function Clock(op: Op): nat {
    match op
    case Timer(now) => now
    case BlockOnIrq(_, now) => now
    case Sleep(_, now) => now
    case Wait(now) => now
    case Exit(_, now) => now
    case _ => 0
  }

  /** One step. */
  function Next(s: Sched, op: Op): Sched
    requires s.current in s.tasks
  {
    var s1 := Before(s, op);
    if Schedules(s, op) && s1.current in s1.tasks && s1.idle in s1.tasks then Scheduled(s1, Clock(op)) else s1
  }
}
