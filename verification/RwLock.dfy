/**
 The spin-based read-write lock, as a transition system over any number of lock users.  One step is
 one atomic access to the counter, or one access to the protected data.  A thread with several read
 guards counts as several users.
 */
module RwLock {
  import opened Basics

  const WRITE_LOCK_HELD := U64_LIMIT - 1

  datatype User<T> =
    | Outside
      /** In `read_lock`, between the load of the counter and the exchange. */
    | Loaded(readers: nat)
      /** Holds a read guard, taken when the data had this value. */
    | Reading(seen: T)
    | Writing
      /** Stopped by the assertion in `read_lock`. */
    | Panicked

  datatype Lock<T> = Lock(readers: nat, data: T, users: map<nat, User<T>>)

  datatype Op<T> =
    | Load(id: nat)
      /** `compare_exchange_weak`, which may fail for no reason. */
    | ExchangeRead(id: nat, spurious: bool)
    | ExchangeWrite(id: nat)
    | DropRead(id: nat)
    | Store(id: nat, value: T)
    | DropWrite(id: nat)

  predicate Enabled<T>(l: Lock<T>, op: Op<T>) {
    && op.id in l.users
    && match op
       case Load(id) => l.users[id].Outside?
       case ExchangeRead(id, _) => l.users[id].Loaded?
       case ExchangeWrite(id) => l.users[id].Outside?
       case DropRead(id) => l.users[id].Reading?
       case Store(id, _) => l.users[id].Writing?
       case DropWrite(id) => l.users[id].Writing?
  }

  function Next<T>(l: Lock<T>, op: Op<T>): Lock<T>
    requires Enabled(l, op)
  {
    match op
    case Load(id) =>
      if l.readers == WRITE_LOCK_HELD then l
      else if l.readers < WRITE_LOCK_HELD - 1 then l.(users := l.users[id := Loaded(l.readers)])
      else l.(users := l.users[id := Panicked])
    case ExchangeRead(id, spurious) =>
      var v := l.users[id].readers;
      if l.readers == v && !spurious then l.(readers := (v + 1) % U64_LIMIT, users := l.users[id := Reading(l.data)])
      else l.(users := l.users[id := Outside])
    case ExchangeWrite(id) =>
      if l.readers == 0 then l.(readers := WRITE_LOCK_HELD, users := l.users[id := Writing]) else l
    case DropRead(id) => l.(readers := (l.readers + U64_LIMIT - 1) % U64_LIMIT, users := l.users[id := Outside])
    case Store(id, value) => l.(data := value)
    case DropWrite(id) => l.(readers := 0, users := l.users[id := Outside])
  }

  function ReadGuards<T>(l: Lock<T>): set<nat> {
    set id | id in l.users && l.users[id].Reading?
  }

  function WriteGuards<T>(l: Lock<T>): set<nat> {
    set id | id in l.users && l.users[id].Writing?
  }

  /** The counter is the number of read guards, or the maximum when there is one write guard and no other. */
  ghost predicate Inv<T>(l: Lock<T>) {
    && (l.readers == WRITE_LOCK_HELD <==> WriteGuards(l) != {})
    && (l.readers == WRITE_LOCK_HELD ==> |WriteGuards(l)| == 1 && ReadGuards(l) == {})
    && (l.readers != WRITE_LOCK_HELD ==> l.readers == |ReadGuards(l)| < WRITE_LOCK_HELD)
    && (forall id | id in l.users && l.users[id].Loaded? :: l.users[id].readers < WRITE_LOCK_HELD - 1)
    && (forall id | id in l.users && l.users[id].Reading? :: l.users[id].seen == l.data)
  }

  /** A new lock satisfies the invariant. */
  lemma NewLock<T>(l: Lock<T>)
    requires l.readers == 0 && forall id | id in l.users :: l.users[id].Outside?
    ensures Inv(l)
  {}

  /** Only user `id` changes, and it neither gains nor loses a guard. */
  lemma Same<T>(l: Lock<T>, l': Lock<T>, id: nat)
    requires id in l.users && l'.users.Keys == l.users.Keys
    requires forall u | u in l.users && u != id :: l'.users[u] == l.users[u]
    requires (l'.users[id].Reading? <==> l.users[id].Reading?) && (l'.users[id].Writing? <==> l.users[id].Writing?)
    ensures ReadGuards(l') == ReadGuards(l) && WriteGuards(l') == WriteGuards(l)
  {}

  lemma ReaderEnters<T>(l: Lock<T>, id: nat)
    requires Inv(l) && Enabled(l, ExchangeRead(id, false)) && l.readers == l.users[id].readers
    ensures Inv(Next(l, ExchangeRead(id, false)))
  {
    var l' := Next(l, ExchangeRead(id, false));
    assert ReadGuards(l') == ReadGuards(l) + {id};
    assert WriteGuards(l') == WriteGuards(l);
  }

  lemma ReaderLeaves<T>(l: Lock<T>, id: nat)
    requires Inv(l) && Enabled(l, DropRead(id))
    ensures Inv(Next(l, DropRead(id)))
  {
    var l' := Next(l, DropRead(id));
    assert id in ReadGuards(l);
    assert ReadGuards(l) == ReadGuards(l') + {id};
    assert WriteGuards(l') == WriteGuards(l);
    assert l.readers > 0;
  }

  lemma WriterEnters<T>(l: Lock<T>, id: nat)
    requires Inv(l) && Enabled(l, ExchangeWrite(id)) && l.readers == 0
    ensures Inv(Next(l, ExchangeWrite(id)))
  {
    var l' := Next(l, ExchangeWrite(id));
    assert WriteGuards(l') == {id};
    assert ReadGuards(l') == ReadGuards(l) == {};
  }

  lemma WriterLeaves<T>(l: Lock<T>, id: nat)
    requires Inv(l) && Enabled(l, DropWrite(id))
    ensures Inv(Next(l, DropWrite(id)))
  {
    var l' := Next(l, DropWrite(id));
    OnlyWriter(l, id);
    assert WriteGuards(l') <= WriteGuards(l);
    assert ReadGuards(l') == ReadGuards(l);
    assert id !in WriteGuards(l');
  }

  lemma OnlyWriter<T>(l: Lock<T>, id: nat)
    requires Inv(l) && id in l.users && l.users[id].Writing?
    ensures WriteGuards(l) == {id} && ReadGuards(l) == {}
  {
    assert id in WriteGuards(l);
    assert |WriteGuards(l) - {id}| == 0;
  }

  /** Every step of every user keeps the counter in agreement with the guards. */
  lemma StepKeeps<T>(l: Lock<T>, op: Op<T>)
    requires Inv(l) && Enabled(l, op)
    ensures Inv(Next(l, op))
  {
    var l' := Next(l, op);
    match op
    case Load(id) => Same(l, l', id);
    case ExchangeRead(id, spurious) =>
      if l.readers == l.users[id].readers && !spurious { ReaderEnters(l, id); } else { Same(l, l', id); }
    case ExchangeWrite(id) => if l.readers == 0 { WriterEnters(l, id); }
    case DropRead(id) => ReaderLeaves(l, id);
    case Store(id, value) =>
      OnlyWriter(l, id);
      Same(l, l', id);
      assert forall u | u in l.users && l.users[u].Reading? :: u in ReadGuards(l);
    case DropWrite(id) => WriterLeaves(l, id);
  }

  ghost predicate CanRun<T>(l: Lock<T>, ops: seq<Op<T>>)
    decreases |ops|
  {
    ops == [] || (Enabled(l, ops[0]) && CanRun(Next(l, ops[0]), ops[1..]))
  }

  ghost function Run<T>(l: Lock<T>, ops: seq<Op<T>>): Lock<T>
    requires CanRun(l, ops)
    decreases |ops|
  {
    if ops == [] then l else Run(Next(l, ops[0]), ops[1..])
  }

  lemma {:induction false} RunKeeps<T>(l: Lock<T>, ops: seq<Op<T>>)
    requires Inv(l) && CanRun(l, ops)
    ensures Inv(Run(l, ops))
    decreases |ops|
  {
    if ops != [] {
      StepKeeps(l, ops[0]);
      RunKeeps(Next(l, ops[0]), ops[1..]);
    }
  }

  /** Over every interleaving a write guard excludes every other guard. */
  lemma Excludes<T>(l: Lock<T>, ops: seq<Op<T>>, w: nat, u: nat)
    requires Inv(l) && CanRun(l, ops) && w != u
    requires var e := Run(l, ops); w in e.users && u in e.users && e.users[w].Writing?
    ensures var e := Run(l, ops); !e.users[u].Writing? && !e.users[u].Reading?
  {
    RunKeeps(l, ops);
    var e := Run(l, ops);
    OnlyWriter(e, w);
    assert u !in WriteGuards(e) && u !in ReadGuards(e);
  }

  /** A step panics if and only if a reader arrives when as many read guards are held as the counter can tell from a write guard. */
  lemma PanicExactly<T>(l: Lock<T>, op: Op<T>, id: nat)
    requires Inv(l) && Enabled(l, op) && id in l.users && !l.users[id].Panicked?
    ensures Next(l, op).users[id].Panicked? <==> op == Load(id) && |ReadGuards(l)| == WRITE_LOCK_HELD - 1
  {}

  /** Whoever holds a read guard keeps it, with the data it saw, until it drops it. */
  lemma GuardStable<T>(l: Lock<T>, op: Op<T>, id: nat)
    requires Inv(l) && Enabled(l, op) && id in l.users && l.users[id].Reading? && op != DropRead(id)
    ensures Next(l, op).users[id] == l.users[id] && Next(l, op).data == l.data
  {
    assert id in ReadGuards(l);
    if op.Store? {
      OnlyWriter(l, op.id);
      assert false;
    }
  }
}
