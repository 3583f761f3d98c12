/**
 Futexes (kernel/futex.c): wait queues found through a hash of (address space, address), reference counts, and
 a pipe per thread through which a sleeping thread is woken.

 A state is what futex_lock protects plus the pipes.  A stretch of code under the lock is one step; the poll
 loop of a sleeping thread takes steps of its own in between.  `Inv` says that a thread in the loop is on
 exactly the queue of its futex with nothing in its pipe, or on no queue with exactly one byte in it, and
 that every reference count is the number of waits naming the futex plus what the running operation holds.
 */
module FutexQueues {
  import opened Common
  import opened BucketTable
  import Bits
  import FutexWakeOp

  type Tid = nat

  const HASH_SIZE: nat := 4096

  /** Where a thread is in futex_wait; the futex is wait.futex, which a requeue may change. */
  datatype Phase =
    | Idle
    | Waiting(futex: Id)   // in the poll loop
    | Leaving(futex: Id)   // out of the loop, has not taken the lock again yet

  datatype Task = Task(mem: nat, phase: Phase, pipe: nat)

  datatype Futex = Futex(mem: nat, addr: nat, refs: nat, queue: seq<Tid>)

  datatype State = State(futexes: map<Id, Futex>, table: Table, tasks: map<Tid, Task>)

  predicate Names(task: Task, f: Id) {
    !task.phase.Idle? && task.phase.futex == f
  }

  // ---------------------------------------------------------------- invariant

  function Hash(mem: nat, addr: nat): nat {
    Bits.Xor(addr, mem) % HASH_SIZE
  }

  function KeyMap(futexes: map<Id, Futex>): map<Id, nat> {
    map f | f in futexes :: Hash(futexes[f].mem, futexes[f].addr)
  }

  predicate SamePlace(futexes: map<Id, Futex>, f: Id, g: Id) {
    f in futexes && g in futexes && futexes[f].mem == futexes[g].mem && futexes[f].addr == futexes[g].addr
  }

  /** The hash lists every futex, and there is one per place. */
  ghost predicate TableInv(s: State) {
    && |s.table| == HASH_SIZE
    && TableOk(s.table, KeyMap(s.futexes))
    && forall f, g {:trigger SamePlace(s.futexes, f, g)} :: SamePlace(s.futexes, f, g) ==> f == g
  }

  ghost function Namers(tasks: map<Tid, Task>, f: Id): set<Tid> {
    set t | t in tasks && Names(tasks[t], f)
  }

  /** References: one per wait naming the futex, plus the ones the running operation holds. */
  ghost predicate RefsOk(s: State, held: multiset<Id>, f: Id)
    requires f in s.futexes
  {
    s.futexes[f].refs == |Namers(s.tasks, f)| + held[f] && s.futexes[f].refs > 0
  }

  ghost predicate QueueOk(s: State, f: Id)
    requires f in s.futexes
  {
    && NoDuplicates(s.futexes[f].queue)
    && forall t :: t in s.futexes[f].queue ==> t in s.tasks && Names(s.tasks[t], f)
  }

  predicate OnQueue(s: State, t: Tid, f: Id) {
    f in s.futexes && t in s.futexes[f].queue
  }

  /** A waiting thread is queued or has been sent its byte, never both and never neither. */
  ghost predicate TaskOk(s: State, t: Tid)
    requires t in s.tasks
  {
    var task := s.tasks[t];
    match task.phase
    case Idle => task.pipe <= 1
    case Waiting(f) => f in s.futexes && task.pipe == if OnQueue(s, t, f) then 0 else 1
    case Leaving(f) => f in s.futexes && task.pipe <= if OnQueue(s, t, f) then 0 else 1
  }

  ghost predicate Inv(s: State, held: multiset<Id>) {
    && TableInv(s)
    && (forall f {:trigger RefsOk(s, held, f)} :: f in s.futexes ==> RefsOk(s, held, f))
    && (forall f {:trigger QueueOk(s, f)} :: f in s.futexes ==> QueueOk(s, f))
    && (forall t {:trigger TaskOk(s, t)} :: t in s.tasks ==> TaskOk(s, t))
    && (forall f :: f in held ==> f in s.futexes)
  }

  // ---------------------------------------------------------------- getting and putting a futex

  function FindIn(futexes: map<Id, Futex>, bucket: seq<Id>, mem: nat, addr: nat): Option<Id> {
    if bucket == [] then None
    else if bucket[0] in futexes && futexes[bucket[0]].addr == addr && futexes[bucket[0]].mem == mem then Some(bucket[0])
    else FindIn(futexes, bucket[1..], mem, addr)
  }

  function Find(s: State, mem: nat, addr: nat): Option<Id> {
    var h := Hash(mem, addr);
    if h < |s.table| then FindIn(s.futexes, s.table[h], mem, addr) else None
  }

  lemma {:induction false} FindInFinds(futexes: map<Id, Futex>, bucket: seq<Id>, mem: nat, addr: nat)
    ensures match FindIn(futexes, bucket, mem, addr)
            case Some(f) => f in bucket && f in futexes && futexes[f].mem == mem && futexes[f].addr == addr
            case None => forall f :: f in bucket && f in futexes ==> !(futexes[f].mem == mem && futexes[f].addr == addr)
  {
    if bucket != [] {
      FindInFinds(futexes, bucket[1..], mem, addr);
    }
  }

  /** The lookup finds the futex of a place exactly when there is one. */
  lemma FindIsMap(s: State, mem: nat, addr: nat, f: Id)
    requires TableInv(s)
    ensures Find(s, mem, addr) == Some(f) <==> f in s.futexes && s.futexes[f].mem == mem && s.futexes[f].addr == addr
  {
    var h, key := Hash(mem, addr), KeyMap(s.futexes);
    assert BucketOk(s.table[h], h, key);
    FindInFinds(s.futexes, s.table[h], mem, addr);
    if f in s.futexes && s.futexes[f].mem == mem && s.futexes[f].addr == addr {
      assert f in key && key[f] == h;
      assert f in s.table[h];
      assert SamePlace(s.futexes, Find(s, mem, addr).value, f);
    }
  }

  /** futex_get_unlocked; `id` is the address malloc would return. */
  function Get(s: State, mem: nat, addr: nat, id: Id): (State, Id) {
    match Find(s, mem, addr)
    case Some(f) =>
      if f in s.futexes then (s.(futexes := s.futexes[f := s.futexes[f].(refs := s.futexes[f].refs + 1)]), f) else (s, f)
    case None =>
      (s.(futexes := s.futexes[id := Futex(mem, addr, 1, [])], table := Push(s.table, Hash(mem, addr), id)), id)
  }

  /** futex_put_unlocked */
  function Put(s: State, f: Id): State {
    if f !in s.futexes || s.futexes[f].refs == 0 then s
    else if s.futexes[f].refs > 1 then s.(futexes := s.futexes[f := s.futexes[f].(refs := s.futexes[f].refs - 1)])
    else s.(futexes := s.futexes - {f}, table := Drop(s.table, Hash(s.futexes[f].mem, s.futexes[f].addr), f))
  }

  lemma GetKeepsTable(s: State, mem: nat, addr: nat, id: Id)
    requires TableInv(s) && id !in s.futexes
    ensures var (s', f) := Get(s, mem, addr, id);
            && TableInv(s') && f in s'.futexes && s'.futexes[f].mem == mem && s'.futexes[f].addr == addr
            && s'.tasks == s.tasks
            && (f in s.futexes ==> s'.futexes == s.futexes[f := s.futexes[f].(refs := s.futexes[f].refs + 1)])
            && (f !in s.futexes ==> f == id && s'.futexes == s.futexes[f := Futex(mem, addr, 1, [])])
  {
    var (s', f) := Get(s, mem, addr, id);
    if Find(s, mem, addr).Some? {
      FindIsMap(s, mem, addr, f);
      assert KeyMap(s'.futexes) == KeyMap(s.futexes);
      forall a, b | SamePlace(s'.futexes, a, b) ensures a == b {
        assert SamePlace(s.futexes, a, b);
      }
    } else {
      PushOk(s.table, KeyMap(s.futexes), Hash(mem, addr), f);
      assert KeyMap(s'.futexes) == KeyMap(s.futexes)[f := Hash(mem, addr)];
      forall a, b | SamePlace(s'.futexes, a, b) ensures a == b {
        if a != f && b != f {
          assert SamePlace(s.futexes, a, b);
        } else if a != f {
          FindIsMap(s, mem, addr, a);
        } else if b != f {
          FindIsMap(s, mem, addr, b);
        }
      }
    }
  }

  lemma GetKeepsInv(s: State, held: multiset<Id>, mem: nat, addr: nat, id: Id)
    requires Inv(s, held) && id !in s.futexes
    ensures var (s', f) := Get(s, mem, addr, id); Inv(s', held + multiset{f})
  {
    var (s', f) := Get(s, mem, addr, id);
    GetKeepsTable(s, mem, addr, id);
    if f !in s.futexes {
      NobodyNames(s, held, f);
    }
    forall g | g in s'.futexes ensures RefsOk(s', held + multiset{f}, g) && QueueOk(s', g) {
      if g in s.futexes {
        assert RefsOk(s, held, g) && QueueOk(s, g);
      }
    }
    forall t | t in s'.tasks ensures TaskOk(s', t) {
      assert TaskOk(s, t);
    }
  }

  /** No wait and no operation refers to a futex that does not exist. */
  lemma NobodyNames(s: State, held: multiset<Id>, f: Id)
    requires Inv(s, held) && f !in s.futexes
    ensures Namers(s.tasks, f) == {} && held[f] == 0
  {
    forall t | t in s.tasks ensures !Names(s.tasks[t], f) {
      assert TaskOk(s, t);
    }
  }

  /** Putting a reference the operation holds; the assertion in the code, that the queue is empty by then, holds. */
  lemma PutKeepsInv(s: State, held: multiset<Id>, f: Id)
    requires Inv(s, held + multiset{f})
    ensures f in s.futexes && (s.futexes[f].refs == 1 ==> s.futexes[f].queue == [])
    ensures Inv(Put(s, f), held)
  {
    var s' := Put(s, f);
    assert f in held + multiset{f};
    assert RefsOk(s, held + multiset{f}, f) && QueueOk(s, f);
    PutKeepsTable(s, f);
    if s.futexes[f].refs == 1 {
      LastPut(s, held, f);
    }
    forall g | g in s'.futexes ensures RefsOk(s', held, g) && QueueOk(s', g) {
      assert RefsOk(s, held + multiset{f}, g) && QueueOk(s, g);
    }
    forall t | t in s'.tasks ensures TaskOk(s', t) {
      assert TaskOk(s, t);
      if s.futexes[f].refs == 1 {
        assert t !in Namers(s.tasks, f);
      }
    }
  }

  lemma LastPut(s: State, held: multiset<Id>, f: Id)
    requires Inv(s, held + multiset{f}) && f in s.futexes && s.futexes[f].refs == 1
    ensures Namers(s.tasks, f) == {} && held[f] == 0 && s.futexes[f].queue == []
  {
    assert RefsOk(s, held + multiset{f}, f);
    assert |Namers(s.tasks, f)| == 0;
    QueuedMeansNamed(s, f);
  }

  lemma QueuedMeansNamed(s: State, f: Id)
    requires f in s.futexes && QueueOk(s, f)
    ensures s.futexes[f].queue != [] ==> Namers(s.tasks, f) != {}
  {
    if s.futexes[f].queue != [] {
      assert s.futexes[f].queue[0] in Namers(s.tasks, f);
    }
  }

  lemma PutKeepsTable(s: State, f: Id)
    requires TableInv(s) && f in s.futexes && s.futexes[f].refs > 0
    ensures TableInv(Put(s, f))
  {
    var s' := Put(s, f);
    if s.futexes[f].refs > 1 {
      assert KeyMap(s'.futexes) == KeyMap(s.futexes);
    } else {
      DropOk(s.table, KeyMap(s.futexes), f);
      assert KeyMap(s'.futexes) == KeyMap(s.futexes) - {f};
    }
    forall a, b | SamePlace(s'.futexes, a, b) ensures a == b {
      assert SamePlace(s.futexes, a, b);
    }
  }

  // ---------------------------------------------------------------- waking and requeueing

  function Head(s: State, f: Id): Option<Tid> {
    if f in s.futexes && s.futexes[f].queue != [] && s.futexes[f].queue[0] in s.tasks then Some(s.futexes[f].queue[0]) else None
  }

  /** One round of futex_wake_queue: a byte for the oldest waiter, which leaves the queue. */
  function WakeHead(s: State, f: Id): State {
    match Head(s, f)
    case None => s
    case Some(t) => s.(futexes := s.futexes[f := s.futexes[f].(queue := s.futexes[f].queue[1..])],
                       tasks := s.tasks[t := s.tasks[t].(pipe := s.tasks[t].pipe + 1)])
  }

  function Wake(s: State, f: Id, max: nat): State
    decreases max
  {
    if max == 0 || Head(s, f).None? then s else Wake(WakeHead(s, f), f, max - 1)
  }

  function Renamed(task: Task, f: Id): Task {
    match task.phase
    case Idle => task
    case Waiting(_) => task.(phase := Waiting(f))
    case Leaving(_) => task.(phase := Leaving(f))
  }

  function Unref(futex: Futex): Futex {
    if futex.refs == 0 then futex else futex.(refs := futex.refs - 1)
  }

  /** One round of the requeue loop: the oldest waiter of f goes to the tail of f2, its reference with it. */
  function MoveHead(s: State, f: Id, f2: Id): State {
    match Head(s, f)
    case None => s
    case Some(t) =>
      var futexes := s.futexes[f := Unref(s.futexes[f].(queue := s.futexes[f].queue[1..]))];
      if f2 !in futexes then s
      else s.(futexes := futexes[f2 := futexes[f2].(queue := futexes[f2].queue + [t], refs := futexes[f2].refs + 1)],
              tasks := s.tasks[t := Renamed(s.tasks[t], f2)])
  }

  /**
   The requeue loop.  The next entry is read before the current one moves, so the loop goes on exactly if
   another entry followed; this matters when both addresses are the same and the entry moves to its own tail.
   */
  function Move(s: State, f: Id, f2: Id, max: nat): (State, nat)
    decreases max
  {
    if max == 0 || Head(s, f).None? || f2 !in s.futexes then (s, 0)
    else if |s.futexes[f].queue| == 1 then (MoveHead(s, f, f2), 1)
    else (var (s', n) := Move(MoveHead(s, f, f2), f, f2, max - 1); (s', n + 1))
  }

  lemma WakeHeadKeepsInv(s: State, held: multiset<Id>, f: Id)
    requires Inv(s, held)
    ensures Inv(WakeHead(s, f), held)
  {
    if Head(s, f).Some? {
      var s', t := WakeHead(s, f), Head(s, f).value;
      var q := s.futexes[f].queue;
      assert QueueOk(s, f) && TaskOk(s, t);
      assert q == [t] + q[1..];
      SameTable(s, s');
      forall g | g in s'.futexes ensures RefsOk(s', held, g) && QueueOk(s', g) {
        assert RefsOk(s, held, g) && QueueOk(s, g);
        assert Namers(s'.tasks, g) == Namers(s.tasks, g);
      }
      forall u | u in s'.tasks ensures TaskOk(s', u) {
        assert TaskOk(s, u);
      }
    }
  }

  /** Changes that keep every futex in its place keep the table. */
  lemma SameTable(s: State, s': State)
    requires TableInv(s) && s'.table == s.table && s'.futexes.Keys == s.futexes.Keys
    requires forall f :: f in s.futexes ==> s'.futexes[f].mem == s.futexes[f].mem && s'.futexes[f].addr == s.futexes[f].addr
    ensures TableInv(s')
  {
    assert KeyMap(s'.futexes) == KeyMap(s.futexes);
    forall a, b | SamePlace(s'.futexes, a, b) ensures a == b {
      assert SamePlace(s.futexes, a, b);
    }
  }

  lemma {:induction false} WakeKeepsInv(s: State, held: multiset<Id>, f: Id, max: nat)
    requires Inv(s, held)
    ensures Inv(Wake(s, f, max), held)
    decreases max
  {
    if !(max == 0 || Head(s, f).None?) {
      WakeHeadKeepsInv(s, held, f);
      WakeKeepsInv(WakeHead(s, f), held, f, max - 1);
    }
  }

  lemma MoveHeadKeepsInv(s: State, held: multiset<Id>, f: Id, f2: Id)
    requires Inv(s, held) && f in held && f2 in held
    ensures Inv(MoveHead(s, f, f2), held)
    ensures Head(s, f).Some? ==> s.futexes[f].refs > 1
  {
    if Head(s, f).Some? {
      var s', t := MoveHead(s, f, f2), Head(s, f).value;
      assert QueueOk(s, f) && TaskOk(s, t) && RefsOk(s, held, f);
      assert t in Namers(s.tasks, f);
      SameTable(s, s');
      MoveHeadRefs(s, held, f, f2);
      MoveHeadQueues(s, held, f, f2);
      forall u | u in s'.tasks ensures TaskOk(s', u) {
        assert TaskOk(s, u);
      }
    }
  }

  lemma MoveHeadRefs(s: State, held: multiset<Id>, f: Id, f2: Id)
    requires Inv(s, held) && f in held && f2 in s.futexes && Head(s, f).Some?
    ensures var s' := MoveHead(s, f, f2); forall g {:trigger RefsOk(s', held, g)} :: g in s'.futexes ==> RefsOk(s', held, g)
  {
    var s', t := MoveHead(s, f, f2), Head(s, f).value;
    assert QueueOk(s, f);
    assert t in Namers(s.tasks, f);
    forall g | g in s'.futexes ensures RefsOk(s', held, g) {
      assert RefsOk(s, held, g);
      if f == f2 || (g != f && g != f2) {
        assert Namers(s'.tasks, g) == Namers(s.tasks, g);
      } else if g == f {
        assert Namers(s'.tasks, g) == Namers(s.tasks, g) - {t};
      } else {
        assert t !in Namers(s.tasks, g);
        assert Namers(s'.tasks, g) == Namers(s.tasks, g) + {t};
      }
    }
  }

  lemma MoveHeadQueues(s: State, held: multiset<Id>, f: Id, f2: Id)
    requires Inv(s, held) && f2 in s.futexes && Head(s, f).Some?
    ensures var s' := MoveHead(s, f, f2); forall g {:trigger QueueOk(s', g)} :: g in s'.futexes ==> QueueOk(s', g)
  {
    var s', t := MoveHead(s, f, f2), Head(s, f).value;
    var q := s.futexes[f].queue;
    assert QueueOk(s, f) && q == [t] + q[1..];
    forall g | g in s'.futexes ensures QueueOk(s', g) {
      assert QueueOk(s, g);
    }
  }

  lemma {:induction false} MoveKeepsInv(s: State, held: multiset<Id>, f: Id, f2: Id, max: nat)
    requires Inv(s, held) && f in held && f2 in held
    ensures Inv(Move(s, f, f2, max).0, held)
    decreases max
  {
    if !(max == 0 || Head(s, f).None?) {
      MoveHeadKeepsInv(s, held, f, f2);
      if |s.futexes[f].queue| > 1 {
        MoveKeepsInv(MoveHead(s, f, f2), held, f, f2, max - 1);
      }
    }
  }

  function Min(a: nat, b: nat): nat {
    if a < b then a else b
  }

  function Notified(tasks: map<Tid, Task>, woken: seq<Tid>): map<Tid, Task> {
    map t | t in tasks :: if t in woken then tasks[t].(pipe := tasks[t].pipe + 1) else tasks[t]
  }

  function Redirected(tasks: map<Tid, Task>, moved: seq<Tid>, f: Id): map<Tid, Task> {
    map t | t in tasks :: if t in moved then Renamed(tasks[t], f) else tasks[t]
  }

  ghost predicate Sound(s: State, f: Id) {
    f in s.futexes && NoDuplicates(s.futexes[f].queue) && forall t :: t in s.futexes[f].queue ==> t in s.tasks
  }

  /** The first n waiters of f woken. */
  function WokenFirst(s: State, f: Id, n: nat): State
    requires f in s.futexes && n <= |s.futexes[f].queue|
  {
    var q := s.futexes[f].queue;
    s.(futexes := s.futexes[f := s.futexes[f].(queue := q[n..])], tasks := Notified(s.tasks, q[..n]))
  }

  /** The first n waiters of f moved to the tail of f2. */
  function MovedFirst(s: State, f: Id, f2: Id, n: nat): State
    requires f in s.futexes && f2 in s.futexes && n <= |s.futexes[f].queue| && n <= s.futexes[f].refs
  {
    var q, q2 := s.futexes[f].queue, s.futexes[f2].queue;
    s.(futexes := s.futexes[f := s.futexes[f].(queue := q[n..], refs := s.futexes[f].refs - n)]
                           [f2 := s.futexes[f2].(queue := q2 + q[..n], refs := s.futexes[f2].refs + n)],
       tasks := Redirected(s.tasks, q[..n], f2))
  }

  lemma WokenFirstZero(s: State, f: Id)
    requires f in s.futexes
    ensures WokenFirst(s, f, 0) == s
  {
    assert Notified(s.tasks, []) == s.tasks;
    assert s.futexes[f].queue[0..] == s.futexes[f].queue;
    assert s.futexes[f := s.futexes[f]] == s.futexes;
  }

  lemma WokenFirstStep(s: State, f: Id, n: nat)
    requires Sound(s, f) && 0 < n <= |s.futexes[f].queue|
    ensures Sound(WakeHead(s, f), f) && WakeHead(s, f).futexes[f].queue == s.futexes[f].queue[1..]
    ensures WokenFirst(WakeHead(s, f), f, n - 1) == WokenFirst(s, f, n)
  {
    var q, s1 := s.futexes[f].queue, WakeHead(s, f);
    assert q[1..][n - 1..] == q[n..] && q[..n] == [q[0]] + q[1..][..n - 1];
    assert Notified(s1.tasks, q[1..][..n - 1]) == Notified(s.tasks, q[..n]);
    assert WokenFirst(s1, f, n - 1).futexes == WokenFirst(s, f, n).futexes;
  }

  /** A wake takes the oldest min(max, n) waiters, sends each one byte and changes nothing else. */
  lemma {:induction false} WakeTakesOldest(s: State, f: Id, max: nat)
    requires Sound(s, f)
    ensures Wake(s, f, max) == WokenFirst(s, f, Min(max, |s.futexes[f].queue|))
    decreases max
  {
    if max == 0 || s.futexes[f].queue == [] {
      WokenFirstZero(s, f);
    } else {
      WokenFirstStep(s, f, Min(max, |s.futexes[f].queue|));
      WakeTakesOldest(WakeHead(s, f), f, max - 1);
    }
  }

  lemma MovedFirstZero(s: State, f: Id, f2: Id)
    requires f in s.futexes && f2 in s.futexes && f != f2
    ensures MovedFirst(s, f, f2, 0) == s
  {
    assert Redirected(s.tasks, [], f2) == s.tasks;
    assert s.futexes[f].queue[0..] == s.futexes[f].queue;
    assert s.futexes[f2].queue + [] == s.futexes[f2].queue;
    assert s.futexes[f := s.futexes[f]][f2 := s.futexes[f2]] == s.futexes;
  }

  lemma MovedFirstStep(s: State, f: Id, f2: Id, n: nat)
    requires Sound(s, f) && f2 in s.futexes && f != f2 && 0 < n <= |s.futexes[f].queue| < s.futexes[f].refs
    ensures var s1 := MoveHead(s, f, f2);
            && Sound(s1, f) && s1.futexes[f].queue == s.futexes[f].queue[1..] && f2 in s1.futexes
            && s1.futexes[f].refs == s.futexes[f].refs - 1
            && MovedFirst(s1, f, f2, n - 1) == MovedFirst(s, f, f2, n)
  {
    var q, q2, s1 := s.futexes[f].queue, s.futexes[f2].queue, MoveHead(s, f, f2);
    assert q[1..][n - 1..] == q[n..] && q[..n] == [q[0]] + q[1..][..n - 1];
    assert (q2 + [q[0]]) + q[1..][..n - 1] == q2 + q[..n];
    assert Redirected(s1.tasks, q[1..][..n - 1], f2) == Redirected(s.tasks, q[..n], f2);
    assert MovedFirst(s1, f, f2, n - 1).futexes == MovedFirst(s, f, f2, n).futexes;
  }

  lemma MoveStops(s: State, f: Id, f2: Id, max: nat)
    requires max == 0 || (f in s.futexes && s.futexes[f].queue == [])
    ensures Move(s, f, f2, max) == (s, 0)
  {
  }

  lemma MoveGoesOn(s: State, f: Id, f2: Id, max: nat)
    requires max > 0 && Head(s, f).Some? && f2 in s.futexes && f != f2
    ensures var rest := Move(MoveHead(s, f, f2), f, f2, max - 1); Move(s, f, f2, max) == (rest.0, rest.1 + 1)
  {
    if |s.futexes[f].queue| == 1 {
      MoveStops(MoveHead(s, f, f2), f, f2, max - 1);
    }
  }

  /** A requeue to another address takes the oldest min(max, n) waiters, in order, to the tail of the other queue. */
  lemma {:induction false} MoveTakesOldest(s: State, f: Id, f2: Id, max: nat)
    requires Sound(s, f) && f2 in s.futexes && f != f2 && |s.futexes[f].queue| < s.futexes[f].refs
    ensures Move(s, f, f2, max).1 == Min(max, |s.futexes[f].queue|)
    ensures Move(s, f, f2, max).0 == MovedFirst(s, f, f2, Min(max, |s.futexes[f].queue|))
    decreases max
  {
    if max == 0 || s.futexes[f].queue == [] {
      MoveStops(s, f, f2, max);
      MovedFirstZero(s, f, f2);
    } else {
      MoveGoesOn(s, f, f2, max);
      MovedFirstStep(s, f, f2, Min(max, |s.futexes[f].queue|));
      MoveTakesOldest(MoveHead(s, f, f2), f, f2, max - 1);
    }
  }

  function Rotated(q: seq<Tid>, n: nat): seq<Tid>
    decreases n
  {
    if n == 0 || q == [] then q else Rotated(q[1..] + [q[0]], n - 1)
  }

  lemma {:induction false} RotatedKeepsAll(q: seq<Tid>, n: nat)
    ensures multiset(Rotated(q, n)) == multiset(q)
    decreases n
  {
    if n > 0 && q != [] {
      assert q == [q[0]] + q[1..];
      RotatedKeepsAll(q[1..] + [q[0]], n - 1);
    }
  }

  function Turned(s: State, f: Id, q: seq<Tid>): State
    requires f in s.futexes
  {
    s.(futexes := s.futexes[f := s.futexes[f].(queue := q)])
  }

  lemma TurnedTwice(s: State, f: Id, q: seq<Tid>, r: seq<Tid>)
    requires f in s.futexes
    ensures Turned(s, f, s.futexes[f].queue) == s && Turned(Turned(s, f, q), f, r) == Turned(s, f, r)
  {
    assert s.futexes[f := s.futexes[f]] == s.futexes;
    assert Turned(Turned(s, f, q), f, r).futexes == Turned(s, f, r).futexes;
  }

  lemma MoveHeadToItself(s: State, f: Id)
    requires f in s.futexes && QueueOk(s, f) && s.futexes[f].refs > 0 && s.futexes[f].queue != []
    ensures var q := s.futexes[f].queue; MoveHead(s, f, f) == Turned(s, f, q[1..] + [q[0]])
    ensures Head(s, f).Some? && QueueOk(MoveHead(s, f, f), f)
  {
    var q, s1 := s.futexes[f].queue, MoveHead(s, f, f);
    assert s1.tasks == s.tasks;
    assert s1.futexes == Turned(s, f, q[1..] + [q[0]]).futexes;
  }

  lemma MoveAlone(s: State, f: Id, max: nat)
    requires f in s.futexes && QueueOk(s, f) && s.futexes[f].refs > 0
    requires max == 0 || |s.futexes[f].queue| <= 1
    ensures Move(s, f, f, max) == (s, Min(max, |s.futexes[f].queue|))
  {
    var q := s.futexes[f].queue;
    if max > 0 && |q| == 1 {
      MoveHeadToItself(s, f);
      assert q[1..] + [q[0]] == q;
      TurnedTwice(s, f, q, q);
    }
  }

  /** A requeue to the same address only turns the queue: every waiter keeps its place in the books. */
  lemma {:induction false} MoveToItself(s: State, f: Id, max: nat)
    requires f in s.futexes && QueueOk(s, f) && s.futexes[f].refs > 0 && |s.futexes[f].queue| > 1
    ensures Move(s, f, f, max).1 == max
    ensures Move(s, f, f, max).0 == Turned(s, f, Rotated(s.futexes[f].queue, max))
    decreases max
  {
    var q := s.futexes[f].queue;
    if max == 0 {
      MoveAlone(s, f, max);
      TurnedTwice(s, f, q, q);
    } else {
      MoveHeadToItself(s, f);
      MoveToItself(MoveHead(s, f, f), f, max - 1);
      TurnedTwice(s, f, q[1..] + [q[0]], Rotated(q[1..] + [q[0]], max - 1));
    }
  }

  // ---------------------------------------------------------------- the operations

  const EFAULT: int := -14
  const EAGAIN: int := -11

  function Enqueue(s: State, t: Tid, f: Id): State {
    if f in s.futexes && t in s.tasks then
      s.(futexes := s.futexes[f := s.futexes[f].(queue := s.futexes[f].queue + [t])],
         tasks := s.tasks[t := s.tasks[t].(phase := Waiting(f), pipe := 0)])
    else s
  }

  /** The locked part that begins futex_wait; `loaded` is the word at the address, if it can be read. */
  function StartWait(s: State, t: Tid, addr: nat, val: nat, loaded: Option<nat>, id: Id): (State, int)
    requires t in s.tasks
  {
    var (s1, f) := Get(s, s.tasks[t].mem, addr, id);
    if loaded.None? then (Put(s1, f), EFAULT)
    else if loaded.value != val then (Put(s1, f), EAGAIN)
    else (Enqueue(s1, t, f), 0)
  }

  /** The poll loop finds the pipe readable, drains it and ends. */
  function PollWoken(s: State, t: Tid): State
    requires t in s.tasks && s.tasks[t].phase.Waiting?
  {
    s.(tasks := s.tasks[t := s.tasks[t].(phase := Leaving(s.tasks[t].phase.futex), pipe := 0)])
  }

  /** The poll loop ends for a deadline, a signal, an exit or a changed word. */
  function GiveUp(s: State, t: Tid): State
    requires t in s.tasks && s.tasks[t].phase.Waiting?
  {
    s.(tasks := s.tasks[t := s.tasks[t].(phase := Leaving(s.tasks[t].phase.futex))])
  }

  function Dequeue(s: State, t: Tid): State
    requires t in s.tasks && s.tasks[t].phase.Leaving?
  {
    var f := s.tasks[t].phase.futex;
    var s1 := s.(tasks := s.tasks[t := s.tasks[t].(phase := Idle)]);
    if f in s.futexes then s1.(futexes := s.futexes[f := s.futexes[f].(queue := Without(s.futexes[f].queue, t))]) else s1
  }

  /** The locked part that ends futex_wait. */
  function EndWait(s: State, t: Tid): State
    requires t in s.tasks && s.tasks[t].phase.Leaving?
  {
    Put(Dequeue(s, t), s.tasks[t].phase.futex)
  }

  function QueueLength(s: State, f: Id): nat {
    if f in s.futexes then |s.futexes[f].queue| else 0
  }

  /** FUTEX_WAKE */
  function WakeAt(s: State, mem: nat, addr: nat, max: nat, id: Id): (State, nat) {
    var (s1, f) := Get(s, mem, addr, id);
    (Put(Wake(s1, f, max), f), Min(max, QueueLength(s1, f)))
  }

  /** FUTEX_REQUEUE, and FUTEX_CMP_REQUEUE once the word has been found as expected. */
  function RequeueAt(s: State, mem: nat, addr: nat, max: nat, max2: nat, addr2: nat, id: Id, id2: Id): (State, nat) {
    var (s1, f) := Get(s, mem, addr, id);
    var (s2, f2) := Get(Wake(s1, f, max), mem, addr2, id2);
    var (s3, n) := Move(s2, f, f2, max2);
    (Put(Put(s3, f2), f), Min(max, QueueLength(s1, f)) + n)
  }

  function CmpRequeueAt(s: State, mem: nat, addr: nat, max: nat, max2: nat, addr2: nat, expected: nat,
                        loaded: Option<nat>, id: Id, id2: Id): (State, int) {
    var (s1, f) := Get(s, mem, addr, id);
    if loaded.None? then (Put(s1, f), EFAULT)
    else if loaded.value != expected then (Put(s1, f), EAGAIN)
    else RequeueAt(s, mem, addr, max, max2, addr2, id, id2)
  }

  /** The waking half of FUTEX_WAKE_OP; `both` is the outcome of its comparison. */
  function WakeOpAt(s: State, mem: nat, addr: nat, max: nat, addr2: nat, max2: nat, both: bool, id: Id, id2: Id): (State, nat) {
    var (s1, f) := Get(s, mem, addr, id);
    var s2 := Wake(s1, f, max);
    var n := Min(max, QueueLength(s1, f));
    if both then
      (var (s3, f2) := Get(s2, mem, addr2, id2);
      (Put(Put(Wake(s3, f2, max2), f2), f), n + Min(max2, QueueLength(s3, f2))))
    else (Put(s2, f), n)
  }

  /** FUTEX_WAKE_OP: `val3` packs the operation and the comparison, `word` is what is at the second address. */
  function WakeOpCall(s: State, mem: nat, addr: nat, max: nat, addr2: nat, max2: nat, val3: nat, word: Option<nat>,
                      id: Id, id2: Id): (State, int) {
    match FutexWakeOp.Judged(val3, word).1
    case Failed(errno) => (s, errno)
    case Wakes(both) => WakeOpAt(s, mem, addr, max, addr2, max2, both, id, id2)
  }

  // ---------------------------------------------------------------- the operations keep the invariant

  lemma EnqueueRefs(s: State, held: multiset<Id>, t: Tid, f: Id, g: Id)
    requires f in s.futexes && t in s.tasks && s.tasks[t].phase.Idle?
    requires g in s.futexes && RefsOk(s, held + multiset{f}, g)
    ensures RefsOk(Enqueue(s, t, f), held, g)
  {
    var s' := Enqueue(s, t, f);
    assert t !in Namers(s.tasks, g);
    if g == f {
      assert Namers(s'.tasks, g) == Namers(s.tasks, g) + {t};
    } else {
      assert Namers(s'.tasks, g) == Namers(s.tasks, g);
    }
  }

  lemma EnqueueQueues(s: State, t: Tid, f: Id, g: Id)
    requires f in s.futexes && t in s.tasks && s.tasks[t].phase.Idle? && g in s.futexes && QueueOk(s, g)
    ensures QueueOk(Enqueue(s, t, f), g)
  {
    var q, s' := s.futexes[g].queue, Enqueue(s, t, f);
    assert t !in q;
    assert NoDuplicates(q + [t]);
  }

  lemma EnqueueKeepsInv(s: State, held: multiset<Id>, t: Tid, f: Id)
    requires Inv(s, held + multiset{f}) && t in s.tasks && s.tasks[t].phase.Idle?
    ensures Inv(Enqueue(s, t, f), held)
  {
    assert f in held + multiset{f};
    var s' := Enqueue(s, t, f);
    SameTable(s, s');
    forall g | g in s'.futexes ensures RefsOk(s', held, g) && QueueOk(s', g) {
      assert RefsOk(s, held + multiset{f}, g) && QueueOk(s, g);
      EnqueueRefs(s, held, t, f, g);
      EnqueueQueues(s, t, f, g);
    }
    forall u | u in s'.tasks ensures TaskOk(s', u) {
      assert TaskOk(s, u);
    }
  }

  lemma StartWaitKeepsInv(s: State, t: Tid, addr: nat, val: nat, loaded: Option<nat>, id: Id)
    requires Inv(s, multiset{}) && t in s.tasks && s.tasks[t].phase.Idle? && id !in s.futexes
    ensures Inv(StartWait(s, t, addr, val, loaded, id).0, multiset{})
  {
    var (s1, f) := Get(s, s.tasks[t].mem, addr, id);
    GetKeepsInv(s, multiset{}, s.tasks[t].mem, addr, id);
    if loaded == Some(val) {
      EnqueueKeepsInv(s1, multiset{}, t, f);
    } else {
      PutKeepsInv(s1, multiset{}, f);
    }
  }

  /** A thread out of the loop keeps the invariant, with its byte drained or not. */
  lemma LeaveKeepsInv(s: State, t: Tid)
    requires Inv(s, multiset{}) && t in s.tasks && s.tasks[t].phase.Waiting?
    ensures Inv(GiveUp(s, t), multiset{})
    ensures s.tasks[t].pipe > 0 ==> Inv(PollWoken(s, t), multiset{})
  {
    assert TaskOk(s, t);
    StatusKeepsInv(s, t, GiveUp(s, t).tasks[t]);
    if s.tasks[t].pipe > 0 {
      StatusKeepsInv(s, t, PollWoken(s, t).tasks[t]);
    }
  }

  lemma StatusKeepsInv(s: State, t: Tid, task: Task)
    requires Inv(s, multiset{}) && t in s.tasks && s.tasks[t].phase.Waiting?
    requires task.phase == Leaving(s.tasks[t].phase.futex) && task.pipe <= s.tasks[t].pipe
    ensures Inv(s.(tasks := s.tasks[t := task]), multiset{})
  {
    var s' := s.(tasks := s.tasks[t := task]);
    forall g | g in s'.futexes ensures RefsOk(s', multiset{}, g) && QueueOk(s', g) {
      assert RefsOk(s, multiset{}, g) && QueueOk(s, g);
      assert Namers(s'.tasks, g) == Namers(s.tasks, g);
    }
    forall u | u in s'.tasks ensures TaskOk(s', u) {
      assert TaskOk(s, u);
    }
  }

  lemma DequeueKeepsInv(s: State, t: Tid)
    requires Inv(s, multiset{}) && t in s.tasks && s.tasks[t].phase.Leaving?
    ensures Inv(Dequeue(s, t), multiset{s.tasks[t].phase.futex})
  {
    var s', f := Dequeue(s, t), s.tasks[t].phase.futex;
    assert TaskOk(s, t);
    SameTable(s, s');
    forall g | g in s'.futexes ensures RefsOk(s', multiset{f}, g) && QueueOk(s', g) {
      assert RefsOk(s, multiset{}, g) && QueueOk(s, g);
      WithoutNoDuplicates(s.futexes[g].queue, t);
      assert Namers(s'.tasks, g) == Namers(s.tasks, g) - {t};
      if g == f {
        assert t in Namers(s.tasks, g);
      } else {
        assert t !in Namers(s.tasks, g);
      }
    }
    forall u | u in s'.tasks ensures TaskOk(s', u) {
      assert TaskOk(s, u);
    }
  }

  lemma EndWaitKeepsInv(s: State, t: Tid)
    requires Inv(s, multiset{}) && t in s.tasks && s.tasks[t].phase.Leaving?
    ensures Inv(EndWait(s, t), multiset{})
  {
    DequeueKeepsInv(s, t);
    var f := s.tasks[t].phase.futex;
    assert multiset{} + multiset{f} == multiset{f};
    PutKeepsInv(Dequeue(s, t), multiset{}, f);
  }

  lemma WakeAtKeepsInv(s: State, mem: nat, addr: nat, max: nat, id: Id)
    requires Inv(s, multiset{}) && id !in s.futexes
    ensures Inv(WakeAt(s, mem, addr, max, id).0, multiset{})
  {
    var (s1, f) := Get(s, mem, addr, id);
    GetKeepsInv(s, multiset{}, mem, addr, id);
    WakeKeepsInv(s1, multiset{} + multiset{f}, f, max);
    PutKeepsInv(Wake(s1, f, max), multiset{}, f);
  }

  /** Waking does not create or free a futex. */
  lemma {:induction false} WakeKeepsFutexes(s: State, f: Id, max: nat)
    ensures Wake(s, f, max).futexes.Keys == s.futexes.Keys
    decreases max
  {
    if !(max == 0 || Head(s, f).None?) {
      WakeKeepsFutexes(WakeHead(s, f), f, max - 1);
    }
  }

  lemma RequeueAtKeepsInv(s: State, mem: nat, addr: nat, max: nat, max2: nat, addr2: nat, id: Id, id2: Id)
    requires Inv(s, multiset{}) && id !in s.futexes && id2 !in s.futexes && id != id2
    ensures Inv(RequeueAt(s, mem, addr, max, max2, addr2, id, id2).0, multiset{})
  {
    var (s1, f) := Get(s, mem, addr, id);
    GetKeepsInv(s, multiset{}, mem, addr, id);
    GetKeepsTable(s, mem, addr, id);
    WakeKeepsInv(s1, multiset{} + multiset{f}, f, max);
    WakeKeepsFutexes(s1, f, max);
    var (s2, f2) := Get(Wake(s1, f, max), mem, addr2, id2);
    GetKeepsInv(Wake(s1, f, max), multiset{} + multiset{f}, mem, addr2, id2);
    MoveKeepsInv(s2, multiset{} + multiset{f} + multiset{f2}, f, f2, max2);
    var s3 := Move(s2, f, f2, max2).0;
    PutKeepsInv(s3, multiset{} + multiset{f}, f2);
    PutKeepsInv(Put(s3, f2), multiset{}, f);
  }

  lemma CmpRequeueAtKeepsInv(s: State, mem: nat, addr: nat, max: nat, max2: nat, addr2: nat, expected: nat,
                             loaded: Option<nat>, id: Id, id2: Id)
    requires Inv(s, multiset{}) && id !in s.futexes && id2 !in s.futexes && id != id2
    ensures Inv(CmpRequeueAt(s, mem, addr, max, max2, addr2, expected, loaded, id, id2).0, multiset{})
  {
    if loaded == Some(expected) {
      RequeueAtKeepsInv(s, mem, addr, max, max2, addr2, id, id2);
    } else {
      GetKeepsInv(s, multiset{}, mem, addr, id);
      PutKeepsInv(Get(s, mem, addr, id).0, multiset{}, Get(s, mem, addr, id).1);
    }
  }

  lemma WakeOpAtKeepsInv(s: State, mem: nat, addr: nat, max: nat, addr2: nat, max2: nat, both: bool, id: Id, id2: Id)
    requires Inv(s, multiset{}) && id !in s.futexes && id2 !in s.futexes && id != id2
    ensures Inv(WakeOpAt(s, mem, addr, max, addr2, max2, both, id, id2).0, multiset{})
  {
    var (s1, f) := Get(s, mem, addr, id);
    GetKeepsInv(s, multiset{}, mem, addr, id);
    GetKeepsTable(s, mem, addr, id);
    var s2 := Wake(s1, f, max);
    WakeKeepsInv(s1, multiset{} + multiset{f}, f, max);
    if both {
      WakeKeepsFutexes(s1, f, max);
      var (s3, f2) := Get(s2, mem, addr2, id2);
      GetKeepsInv(s2, multiset{} + multiset{f}, mem, addr2, id2);
      WakeKeepsInv(s3, multiset{} + multiset{f} + multiset{f2}, f2, max2);
      PutKeepsInv(Wake(s3, f2, max2), multiset{} + multiset{f}, f2);
      PutKeepsInv(Put(Wake(s3, f2, max2), f2), multiset{}, f);
    } else {
      PutKeepsInv(s2, multiset{}, f);
    }
  }

  lemma WakeOpCallKeepsInv(s: State, mem: nat, addr: nat, max: nat, addr2: nat, max2: nat, val3: nat, word: Option<nat>,
                           id: Id, id2: Id)
    requires Inv(s, multiset{}) && id !in s.futexes && id2 !in s.futexes && id != id2
    ensures Inv(WakeOpCall(s, mem, addr, max, addr2, max2, val3, word, id, id2).0, multiset{})
  {
    var verdict := FutexWakeOp.Judged(val3, word).1;
    if verdict.Wakes? {
      WakeOpAtKeepsInv(s, mem, addr, max, addr2, max2, verdict.both, id, id2);
    }
  }
}
