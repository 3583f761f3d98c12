/**
 Runs of the futex operations by any number of threads, and what a caller sees of them: one first-in first-out
 queue of threads per (address space, address).  Futex objects, their reference counts and the hash are gone
 from that view; `RunRefinesQueues` says that they can be.
 */
module FutexRuns {
  import opened Common
  import opened BucketTable
  import opened FutexQueues
  import FutexWakeOp

  // ---------------------------------------------------------------- the view of a caller

  datatype Place = Place(mem: nat, addr: nat)

  datatype Status = Running | Sleeping | Returning

  datatype Thread = Thread(mem: nat, status: Status, pipe: nat)

  datatype Queues = Queues(at: imap<Place, seq<Tid>>, threads: map<Tid, Thread>)

  ghost predicate Total(v: Queues) {
    forall p :: p in v.at
  }

  function PlaceOf(f: Futex): Place {
    Place(f.mem, f.addr)
  }

  function Waiters(s: State, p: Place): seq<Tid> {
    match Find(s, p.mem, p.addr)
    case None => []
    case Some(f) => if f in s.futexes then s.futexes[f].queue else []
  }

  function StatusOf(phase: Phase): Status {
    match phase case Idle => Running case Waiting(_) => Sleeping case Leaving(_) => Returning
  }

  function ThreadsOf(tasks: map<Tid, Task>): map<Tid, Thread> {
    map t | t in tasks :: Thread(tasks[t].mem, StatusOf(tasks[t].phase), tasks[t].pipe)
  }

  ghost function View(s: State): (v: Queues)
    ensures Total(v)
  {
    Queues(imap p: Place | true :: Waiters(s, p), ThreadsOf(s.tasks))
  }

  lemma WaitersAt(s: State, f: Id)
    requires TableInv(s) && f in s.futexes
    ensures Waiters(s, PlaceOf(s.futexes[f])) == s.futexes[f].queue
  {
    FindIsMap(s, s.futexes[f].mem, s.futexes[f].addr, f);
  }

  predicate SamePlaces(s: State, s': State) {
    && s'.table == s.table && s'.futexes.Keys == s.futexes.Keys
    && forall f :: f in s.futexes ==> s'.futexes[f].mem == s.futexes[f].mem && s'.futexes[f].addr == s.futexes[f].addr
  }

  /** While the futexes stay where they are, a queue is that of the same futex. */
  lemma WaitersFollow(s: State, s': State, p: Place)
    requires TableInv(s) && SamePlaces(s, s')
    ensures Find(s', p.mem, p.addr) == Find(s, p.mem, p.addr)
    ensures match Find(s, p.mem, p.addr)
            case None => Waiters(s, p) == Waiters(s', p) == []
            case Some(f) => f in s.futexes && PlaceOf(s.futexes[f]) == p && Waiters(s, p) == s.futexes[f].queue
                            && Waiters(s', p) == s'.futexes[f].queue
  {
    SameTable(s, s');
    if Find(s, p.mem, p.addr).Some? {
      FindIsMap(s, p.mem, p.addr, Find(s, p.mem, p.addr).value);
      FindIsMap(s', p.mem, p.addr, Find(s, p.mem, p.addr).value);
    } else if Find(s', p.mem, p.addr).Some? {
      FindIsMap(s', p.mem, p.addr, Find(s', p.mem, p.addr).value);
      FindIsMap(s, p.mem, p.addr, Find(s', p.mem, p.addr).value);
    }
  }

  /** Getting a reference, which may create a futex, shows nowhere. */
  lemma GetIsInvisible(s: State, mem: nat, addr: nat, id: Id)
    requires TableInv(s) && id !in s.futexes
    ensures View(Get(s, mem, addr, id).0) == View(s)
  {
    var (s', f) := Get(s, mem, addr, id);
    GetKeepsTable(s, mem, addr, id);
    forall p ensures Waiters(s', p) == Waiters(s, p) {
      if f in s.futexes {
        FindIsMap(s, mem, addr, f);
        WaitersFollow(s, s', p);
      } else {
        AddedIsEmpty(s, s', f, p);
      }
    }
    assert View(s').at == View(s).at;
  }

  /** An additional futex with an empty queue shows nowhere. */
  lemma AddedIsEmpty(s: State, s': State, f: Id, p: Place)
    requires TableInv(s) && TableInv(s') && f !in s.futexes && f in s'.futexes && s'.futexes[f].queue == []
    requires s.futexes == s'.futexes - {f}
    ensures Waiters(s', p) == Waiters(s, p)
  {
    match Find(s', p.mem, p.addr) {
      case None =>
        if Find(s, p.mem, p.addr).Some? {
          FindIsMap(s, p.mem, p.addr, Find(s, p.mem, p.addr).value);
          FindIsMap(s', p.mem, p.addr, Find(s, p.mem, p.addr).value);
        }
      case Some(g) =>
        FindIsMap(s', p.mem, p.addr, g);
        if g != f {
          FindIsMap(s, p.mem, p.addr, g);
        } else if Find(s, p.mem, p.addr).Some? {
          FindIsMap(s, p.mem, p.addr, Find(s, p.mem, p.addr).value);
          FindIsMap(s', p.mem, p.addr, Find(s, p.mem, p.addr).value);
        }
    }
  }

  /** Putting a reference, which may free the futex, shows nowhere. */
  lemma PutIsInvisible(s: State, held: multiset<Id>, f: Id)
    requires Inv(s, held + multiset{f})
    ensures View(Put(s, f)) == View(s)
  {
    var s' := Put(s, f);
    PutKeepsInv(s, held, f);
    assert RefsOk(s, held + multiset{f}, f);
    forall p ensures Waiters(s', p) == Waiters(s, p) {
      if s.futexes[f].refs > 1 {
        WaitersFollow(s, s', p);
      } else {
        AddedIsEmpty(s', s, f, p);
      }
    }
    assert View(s').at == View(s).at;
  }

  // ---------------------------------------------------------------- the operations on queues

  function Sent(threads: map<Tid, Thread>, woken: seq<Tid>): map<Tid, Thread> {
    map t | t in threads :: if t in woken then threads[t].(pipe := threads[t].pipe + 1) else threads[t]
  }

  ghost function QueueWake(v: Queues, p: Place, max: nat): (r: (Queues, nat))
    requires Total(v)
    ensures Total(r.0)
  {
    var q := v.at[p];
    var n := Min(max, |q|);
    (Queues(v.at[p := q[n..]], Sent(v.threads, q[..n])), n)
  }

  ghost function QueueMove(v: Queues, p: Place, p2: Place, max: nat): (r: (Queues, nat))
    requires Total(v)
    ensures Total(r.0)
  {
    var q, q2 := v.at[p], v.at[p2];
    var n := if p == p2 && |q| > 1 then max else Min(max, |q|);
    if p == p2 then (v.(at := v.at[p := Rotated(q, n)]), n)
    else (v.(at := v.at[p := q[n..]][p2 := q2 + q[..n]]), n)
  }

  ghost function QueueRequeue(v: Queues, p: Place, max: nat, max2: nat, p2: Place): (r: (Queues, nat))
    requires Total(v)
    ensures Total(r.0)
  {
    var (v1, woken) := QueueWake(v, p, max);
    var (v2, moved) := QueueMove(v1, p, p2, max2);
    (v2, woken + moved)
  }

  ghost function QueueWakeOp(v: Queues, p: Place, max: nat, p2: Place, max2: nat, both: bool): (r: (Queues, nat))
    requires Total(v)
    ensures Total(r.0)
  {
    var (v1, n) := QueueWake(v, p, max);
    if both then (var (v2, n2) := QueueWake(v1, p2, max2); (v2, n + n2)) else (v1, n)
  }

  ghost function QueueSleep(v: Queues, t: Tid, p: Place): (r: Queues)
    requires Total(v) && t in v.threads
    ensures Total(r)
  {
    Queues(v.at[p := v.at[p] + [t]], v.threads[t := v.threads[t].(status := Sleeping, pipe := 0)])
  }

  ghost function QueueLeave(v: Queues, t: Tid): (r: Queues)
    requires Total(v) && t in v.threads
    ensures Total(r)
  {
    Queues(imap p: Place | true :: Without(v.at[p], t), v.threads[t := v.threads[t].(status := Running)])
  }

  // ---------------------------------------------------------------- each operation seen by a caller

  /** A change to the queue of one futex shows at its place only. */
  lemma OneQueueShows(s: State, s': State, f: Id)
    requires TableInv(s) && SamePlaces(s, s') && f in s.futexes
    requires forall g :: g in s.futexes && g != f ==> s'.futexes[g].queue == s.futexes[g].queue
    ensures View(s').at == View(s).at[PlaceOf(s.futexes[f]) := s'.futexes[f].queue]
  {
    var p := PlaceOf(s.futexes[f]);
    forall r ensures Waiters(s', r) == if r == p then s'.futexes[f].queue else Waiters(s, r) {
      WaitersFollow(s, s', r);
      FindIsMap(s, r.mem, r.addr, f);
    }
    assert View(s').at == View(s).at[p := s'.futexes[f].queue];
  }

  lemma WakeShows(s: State, held: multiset<Id>, f: Id, max: nat)
    requires Inv(s, held) && f in s.futexes
    ensures View(Wake(s, f, max)) == QueueWake(View(s), PlaceOf(s.futexes[f]), max).0
    ensures Min(max, QueueLength(s, f)) == QueueWake(View(s), PlaceOf(s.futexes[f]), max).1
  {
    assert QueueOk(s, f);
    WakeTakesOldest(s, f, max);
    WaitersAt(s, f);
    WokenFirstShows(s, f, Min(max, |s.futexes[f].queue|));
  }

  lemma WokenFirstShows(s: State, f: Id, n: nat)
    requires TableInv(s) && f in s.futexes && n <= |s.futexes[f].queue|
    ensures View(WokenFirst(s, f, n)).at == View(s).at[PlaceOf(s.futexes[f]) := s.futexes[f].queue[n..]]
    ensures View(WokenFirst(s, f, n)).threads == Sent(View(s).threads, s.futexes[f].queue[..n])
  {
    var s' := WokenFirst(s, f, n);
    OneQueueShows(s, s', f);
    assert ThreadsOf(s'.tasks) == Sent(ThreadsOf(s.tasks), s.futexes[f].queue[..n]);
  }

  lemma {:induction false} DistinctFit(q: seq<Tid>, all: set<Tid>)
    requires NoDuplicates(q) && forall t :: t in q ==> t in all
    ensures |q| <= |all|
  {
    if q != [] {
      assert q[0] !in q[1..];
      DistinctFit(q[1..], all - {q[0]});
    }
  }

  /** A held futex has more references than waiters. */
  lemma HeldHasSpare(s: State, held: multiset<Id>, f: Id)
    requires Inv(s, held) && f in held
    ensures f in s.futexes && Sound(s, f) && |s.futexes[f].queue| < s.futexes[f].refs
  {
    assert QueueOk(s, f) && RefsOk(s, held, f);
    DistinctFit(s.futexes[f].queue, Namers(s.tasks, f));
  }

  lemma MovedFirstShows(s: State, f: Id, f2: Id, n: nat)
    requires TableInv(s) && f in s.futexes && f2 in s.futexes && f != f2
    requires n <= |s.futexes[f].queue| && n <= s.futexes[f].refs
    ensures var q, q2 := s.futexes[f].queue, s.futexes[f2].queue;
            View(MovedFirst(s, f, f2, n)).at == View(s).at[PlaceOf(s.futexes[f]) := q[n..]][PlaceOf(s.futexes[f2]) := q2 + q[..n]]
    ensures View(MovedFirst(s, f, f2, n)).threads == View(s).threads
  {
    var s' := MovedFirst(s, f, f2, n);
    var s1 := s.(futexes := s.futexes[f := s'.futexes[f]]);
    OneQueueShows(s, s1, f);
    SameTable(s, s1);
    OneQueueShows(s1, s', f2);
    assert ThreadsOf(s'.tasks) == ThreadsOf(s.tasks);
  }

  lemma MoveShowsApart(s: State, held: multiset<Id>, f: Id, f2: Id, max: nat)
    requires Inv(s, held) && f in held && f2 in held && f != f2
    ensures View(Move(s, f, f2, max).0) == QueueMove(View(s), PlaceOf(s.futexes[f]), PlaceOf(s.futexes[f2]), max).0
    ensures Move(s, f, f2, max).1 == QueueMove(View(s), PlaceOf(s.futexes[f]), PlaceOf(s.futexes[f2]), max).1
  {
    HeldHasSpare(s, held, f);
    MoveTakesOldest(s, f, f2, max);
    WaitersAt(s, f);
    WaitersAt(s, f2);
    assert !SamePlace(s.futexes, f, f2);
    MovedFirstShows(s, f, f2, Min(max, |s.futexes[f].queue|));
  }

  lemma RotatedAlone(q: seq<Tid>, n: nat)
    requires |q| <= 1
    ensures Rotated(q, n) == q
    decreases n
  {
    if n > 0 && q != [] {
      assert q[1..] + [q[0]] == q;
      RotatedAlone(q, n - 1);
    }
  }

  lemma MoveShowsSame(s: State, held: multiset<Id>, f: Id, max: nat)
    requires Inv(s, held) && f in held
    ensures View(Move(s, f, f, max).0) == QueueMove(View(s), PlaceOf(s.futexes[f]), PlaceOf(s.futexes[f]), max).0
    ensures Move(s, f, f, max).1 == QueueMove(View(s), PlaceOf(s.futexes[f]), PlaceOf(s.futexes[f]), max).1
  {
    assert QueueOk(s, f) && RefsOk(s, held, f);
    WaitersAt(s, f);
    var q := s.futexes[f].queue;
    var s' := Move(s, f, f, max).0;
    if |q| <= 1 {
      MoveAlone(s, f, max);
      RotatedAlone(q, Min(max, |q|));
    } else {
      MoveToItself(s, f, max);
    }
    OneQueueShows(s, s', f);
  }

  lemma MoveShows(s: State, held: multiset<Id>, f: Id, f2: Id, max: nat)
    requires Inv(s, held) && f in held && f2 in held
    ensures View(Move(s, f, f2, max).0) == QueueMove(View(s), PlaceOf(s.futexes[f]), PlaceOf(s.futexes[f2]), max).0
    ensures Move(s, f, f2, max).1 == QueueMove(View(s), PlaceOf(s.futexes[f]), PlaceOf(s.futexes[f2]), max).1
  {
    if f == f2 {
      MoveShowsSame(s, held, f, max);
    } else {
      MoveShowsApart(s, held, f, f2, max);
    }
  }

  lemma EnqueueShows(s: State, t: Tid, f: Id)
    requires TableInv(s) && f in s.futexes && t in s.tasks
    ensures View(Enqueue(s, t, f)) == QueueSleep(View(s), t, PlaceOf(s.futexes[f]))
  {
    WaitersAt(s, f);
    OneQueueShows(s, Enqueue(s, t, f), f);
    assert ThreadsOf(Enqueue(s, t, f).tasks) == QueueSleep(View(s), t, PlaceOf(s.futexes[f])).threads;
  }

  lemma StartWaitShows(s: State, t: Tid, addr: nat, val: nat, loaded: Option<nat>, id: Id)
    requires Inv(s, multiset{}) && t in s.tasks && s.tasks[t].phase.Idle? && id !in s.futexes
    ensures var (s', err) := StartWait(s, t, addr, val, loaded, id);
            && (loaded == Some(val) ==> err == 0 && View(s') == QueueSleep(View(s), t, Place(s.tasks[t].mem, addr)))
            && (loaded != Some(val) ==> err == (if loaded.None? then EFAULT else EAGAIN) && View(s') == View(s))
  {
    var mem := s.tasks[t].mem;
    var (s1, f) := Get(s, mem, addr, id);
    GetKeepsInv(s, multiset{}, mem, addr, id);
    GetKeepsTable(s, mem, addr, id);
    GetIsInvisible(s, mem, addr, id);
    if loaded == Some(val) {
      EnqueueShows(s1, t, f);
    } else {
      PutIsInvisible(s1, multiset{}, f);
    }
  }

  lemma {:induction false} WithoutAbsent(q: seq<Tid>, t: Tid)
    requires t !in q
    ensures Without(q, t) == q
  {
    if q != [] {
      WithoutAbsent(q[1..], t);
      assert q == [q[0]] + q[1..];
    }
  }

  lemma DequeueShows(s: State, t: Tid)
    requires Inv(s, multiset{}) && t in s.tasks && s.tasks[t].phase.Leaving?
    ensures View(Dequeue(s, t)) == QueueLeave(View(s), t)
  {
    var s', f := Dequeue(s, t), s.tasks[t].phase.futex;
    assert TaskOk(s, t);
    forall r ensures Waiters(s', r) == Without(Waiters(s, r), t) {
      WaitersFollow(s, s', r);
      if Find(s, r.mem, r.addr).Some? && Find(s, r.mem, r.addr).value != f {
        assert QueueOk(s, Find(s, r.mem, r.addr).value);
        WithoutAbsent(Waiters(s, r), t);
      }
    }
    assert View(s').at == QueueLeave(View(s), t).at;
    assert ThreadsOf(s'.tasks) == QueueLeave(View(s), t).threads;
  }

  lemma EndWaitShows(s: State, t: Tid)
    requires Inv(s, multiset{}) && t in s.tasks && s.tasks[t].phase.Leaving?
    ensures View(EndWait(s, t)) == QueueLeave(View(s), t)
  {
    var f := s.tasks[t].phase.futex;
    DequeueShows(s, t);
    DequeueKeepsInv(s, t);
    assert multiset{} + multiset{f} == multiset{f};
    PutIsInvisible(Dequeue(s, t), multiset{}, f);
  }

  lemma WakeAtShows(s: State, mem: nat, addr: nat, max: nat, id: Id)
    requires Inv(s, multiset{}) && id !in s.futexes
    ensures var (s', n) := WakeAt(s, mem, addr, max, id); (View(s'), n) == QueueWake(View(s), Place(mem, addr), max)
  {
    var (s1, f) := Get(s, mem, addr, id);
    GetKeepsInv(s, multiset{}, mem, addr, id);
    GetKeepsTable(s, mem, addr, id);
    GetIsInvisible(s, mem, addr, id);
    WakeShows(s1, multiset{} + multiset{f}, f, max);
    WakeKeepsInv(s1, multiset{} + multiset{f}, f, max);
    PutIsInvisible(Wake(s1, f, max), multiset{}, f);
  }

  lemma {:induction false} WakeKeepsPlaces(s: State, f: Id, max: nat)
    ensures SamePlaces(s, Wake(s, f, max))
    decreases max
  {
    if !(max == 0 || Head(s, f).None?) {
      WakeKeepsPlaces(WakeHead(s, f), f, max - 1);
    }
  }

  /** Two references taken in turn, the first futex woken in between. */
  lemma GetTwice(s: State, mem: nat, addr: nat, max: nat, addr2: nat, id: Id, id2: Id)
    requires Inv(s, multiset{}) && id !in s.futexes && id2 !in s.futexes && id != id2
    ensures var (s1, f) := Get(s, mem, addr, id);
            var (s2, f2) := Get(Wake(s1, f, max), mem, addr2, id2);
            && Inv(s2, multiset{} + multiset{f} + multiset{f2})
            && f in s2.futexes && PlaceOf(s2.futexes[f]) == Place(mem, addr)
            && f2 in s2.futexes && PlaceOf(s2.futexes[f2]) == Place(mem, addr2)
            && (View(s2), Min(max, QueueLength(s1, f))) == QueueWake(View(s), Place(mem, addr), max)
  {
    var (s1, f) := Get(s, mem, addr, id);
    GetKeepsInv(s, multiset{}, mem, addr, id);
    GetKeepsTable(s, mem, addr, id);
    GetIsInvisible(s, mem, addr, id);
    WakeShows(s1, multiset{} + multiset{f}, f, max);
    WakeKeepsInv(s1, multiset{} + multiset{f}, f, max);
    WakeKeepsPlaces(s1, f, max);
    GetKeepsInv(Wake(s1, f, max), multiset{} + multiset{f}, mem, addr2, id2);
    GetKeepsTable(Wake(s1, f, max), mem, addr2, id2);
    GetIsInvisible(Wake(s1, f, max), mem, addr2, id2);
  }

  lemma PutTwice(s: State, f: Id, f2: Id)
    requires Inv(s, multiset{} + multiset{f} + multiset{f2})
    ensures View(Put(Put(s, f2), f)) == View(s)
  {
    PutIsInvisible(s, multiset{} + multiset{f}, f2);
    PutKeepsInv(s, multiset{} + multiset{f}, f2);
    PutIsInvisible(Put(s, f2), multiset{}, f);
  }

  lemma MoveAndPutShows(s: State, f: Id, f2: Id, max: nat)
    requires Inv(s, multiset{} + multiset{f} + multiset{f2}) && f in s.futexes && f2 in s.futexes
    ensures var (s', n) := Move(s, f, f2, max);
            (View(Put(Put(s', f2), f)), n) == QueueMove(View(s), PlaceOf(s.futexes[f]), PlaceOf(s.futexes[f2]), max)
  {
    MoveShows(s, multiset{} + multiset{f} + multiset{f2}, f, f2, max);
    MoveKeepsInv(s, multiset{} + multiset{f} + multiset{f2}, f, f2, max);
    PutTwice(Move(s, f, f2, max).0, f, f2);
  }

  lemma WakeAndPutShows(s: State, f: Id, f2: Id, max: nat)
    requires Inv(s, multiset{} + multiset{f} + multiset{f2}) && f2 in s.futexes
    ensures (View(Put(Put(Wake(s, f2, max), f2), f)), Min(max, QueueLength(s, f2)))
            == QueueWake(View(s), PlaceOf(s.futexes[f2]), max)
  {
    WakeShows(s, multiset{} + multiset{f} + multiset{f2}, f2, max);
    WakeKeepsInv(s, multiset{} + multiset{f} + multiset{f2}, f2, max);
    PutTwice(Wake(s, f2, max), f, f2);
  }

  lemma GetTwiceAndMoveShows(s: State, mem: nat, addr: nat, max: nat, max2: nat, addr2: nat, id: Id, id2: Id)
    requires Inv(s, multiset{}) && id !in s.futexes && id2 !in s.futexes && id != id2
    ensures var (s1, f) := Get(s, mem, addr, id);
            var (s2, f2) := Get(Wake(s1, f, max), mem, addr2, id2);
            var (v1, woken) := QueueWake(View(s), Place(mem, addr), max);
            && View(s2) == v1 && Min(max, QueueLength(s1, f)) == woken
            && View(Put(Put(Move(s2, f, f2, max2).0, f2), f)) == QueueMove(v1, Place(mem, addr), Place(mem, addr2), max2).0
            && Move(s2, f, f2, max2).1 == QueueMove(v1, Place(mem, addr), Place(mem, addr2), max2).1
  {
    var (s1, f) := Get(s, mem, addr, id);
    var (s2, f2) := Get(Wake(s1, f, max), mem, addr2, id2);
    GetTwice(s, mem, addr, max, addr2, id, id2);
    MoveAndPutShows(s2, f, f2, max2);
  }

  lemma RequeueAtShows(s: State, mem: nat, addr: nat, max: nat, max2: nat, addr2: nat, id: Id, id2: Id)
    requires Inv(s, multiset{}) && id !in s.futexes && id2 !in s.futexes && id != id2
    ensures var (s', n) := RequeueAt(s, mem, addr, max, max2, addr2, id, id2);
            var (v', m) := QueueRequeue(View(s), Place(mem, addr), max, max2, Place(mem, addr2));
            View(s') == v' && n == m
  {
    GetTwiceAndMoveShows(s, mem, addr, max, max2, addr2, id, id2);
  }

  lemma WakeOpAtShows(s: State, mem: nat, addr: nat, max: nat, addr2: nat, max2: nat, both: bool, id: Id, id2: Id)
    requires Inv(s, multiset{}) && id !in s.futexes && id2 !in s.futexes && id != id2
    ensures var (s', n) := WakeOpAt(s, mem, addr, max, addr2, max2, both, id, id2);
            var (v', m) := QueueWakeOp(View(s), Place(mem, addr), max, Place(mem, addr2), max2, both);
            View(s') == v' && n == m
  {
    if both {
      var (s1, f) := Get(s, mem, addr, id);
      var (s3, f2) := Get(Wake(s1, f, max), mem, addr2, id2);
      GetTwice(s, mem, addr, max, addr2, id, id2);
      WakeAndPutShows(s3, f, f2, max2);
    } else {
      WakeAtShows(s, mem, addr, max, id);
    }
  }

  // ---------------------------------------------------------------- runs

  /** What a thread may do next; `id` and `id2` are what malloc would return, `loaded` what the word at the address is. */
  datatype Step =
    | Start(t: Tid, addr: nat, val: nat, loaded: Option<nat>, id: Id)
    | Woken(t: Tid)
    | Quit(t: Tid)
    | End(t: Tid)
    | WakeUp(t: Tid, addr: nat, max: nat, id: Id)
    | Requeue(t: Tid, addr: nat, max: nat, max2: nat, addr2: nat, id: Id, id2: Id)
    | CmpRequeue(t: Tid, addr: nat, max: nat, max2: nat, addr2: nat, expected: nat, loaded: Option<nat>, id: Id, id2: Id)
    | WakeOp(t: Tid, addr: nat, max: nat, addr2: nat, max2: nat, val3: nat, word: Option<nat>, id: Id, id2: Id)
    | Spawn(t: Tid, mem: nat)
    | Exit(t: Tid)

  predicate Calling(s: State, t: Tid) {
    t in s.tasks && s.tasks[t].phase.Idle?
  }

  predicate FreshPair(s: State, id: Id, id2: Id) {
    id !in s.futexes && id2 !in s.futexes && id != id2
  }

  predicate Enabled(s: State, step: Step) {
    match step
    case Start(t, _, _, _, id) => Calling(s, t) && id !in s.futexes
    case Woken(t) => t in s.tasks && s.tasks[t].phase.Waiting? && s.tasks[t].pipe > 0
    case Quit(t) => t in s.tasks && s.tasks[t].phase.Waiting?
    case End(t) => t in s.tasks && s.tasks[t].phase.Leaving?
    case WakeUp(t, _, _, id) => Calling(s, t) && id !in s.futexes
    case Requeue(t, _, _, _, _, id, id2) => Calling(s, t) && FreshPair(s, id, id2)
    case CmpRequeue(t, _, _, _, _, _, _, id, id2) => Calling(s, t) && FreshPair(s, id, id2)
    case WakeOp(t, _, _, _, _, _, _, id, id2) => Calling(s, t) && FreshPair(s, id, id2)
    case Spawn(t, _) => t !in s.tasks
    case Exit(t) => Calling(s, t)
  }

  function Apply(s: State, step: Step): (State, int)
    requires Enabled(s, step)
  {
    match step
    case Start(t, addr, val, loaded, id) => StartWait(s, t, addr, val, loaded, id)
    case Woken(t) => (PollWoken(s, t), 0)
    case Quit(t) => (GiveUp(s, t), 0)
    case End(t) => (EndWait(s, t), 0)
    case WakeUp(t, addr, max, id) => WakeAt(s, s.tasks[t].mem, addr, max, id)
    case Requeue(t, addr, max, max2, addr2, id, id2) => RequeueAt(s, s.tasks[t].mem, addr, max, max2, addr2, id, id2)
    case CmpRequeue(t, addr, max, max2, addr2, expected, loaded, id, id2) =>
      CmpRequeueAt(s, s.tasks[t].mem, addr, max, max2, addr2, expected, loaded, id, id2)
    case WakeOp(t, addr, max, addr2, max2, val3, word, id, id2) =>
      WakeOpCall(s, s.tasks[t].mem, addr, max, addr2, max2, val3, word, id, id2)
    case Spawn(t, mem) => (s.(tasks := s.tasks[t := Task(mem, Idle, 0)]), 0)
    case Exit(t) => (s.(tasks := s.tasks - {t}), 0)
  }

  /** The same step on queues. */
  ghost function QueueStep(v: Queues, step: Step): (r: (Queues, int))
    requires Total(v) && (step.Spawn? || step.t in v.threads)
    ensures Total(r.0)
  {
    var mem := if step.Spawn? then 0 else v.threads[step.t].mem;
    match step
    case Start(t, addr, val, loaded, _) =>
      if loaded == Some(val) then (QueueSleep(v, t, Place(mem, addr)), 0) else (v, if loaded.None? then EFAULT else EAGAIN)
    case Woken(t) => (v.(threads := v.threads[t := v.threads[t].(status := Returning, pipe := 0)]), 0)
    case Quit(t) => (v.(threads := v.threads[t := v.threads[t].(status := Returning)]), 0)
    case End(t) => (QueueLeave(v, t), 0)
    case WakeUp(_, addr, max, _) => QueueWake(v, Place(mem, addr), max)
    case Requeue(_, addr, max, max2, addr2, _, _) => QueueRequeue(v, Place(mem, addr), max, max2, Place(mem, addr2))
    case CmpRequeue(_, addr, max, max2, addr2, expected, loaded, _, _) =>
      if loaded == Some(expected) then QueueRequeue(v, Place(mem, addr), max, max2, Place(mem, addr2))
      else (v, if loaded.None? then EFAULT else EAGAIN)
    case WakeOp(_, addr, max, addr2, max2, val3, word, _, _) =>
      (match FutexWakeOp.Judged(val3, word).1
       case Failed(errno) => (v, errno)
       case Wakes(both) => QueueWakeOp(v, Place(mem, addr), max, Place(mem, addr2), max2, both))
    case Spawn(t, m) => (v.(threads := v.threads[t := Thread(m, Running, 0)]), 0)
    case Exit(t) => (v.(threads := v.threads - {t}), 0)
  }

  lemma SpawnKeepsInv(s: State, t: Tid, mem: nat)
    requires Inv(s, multiset{}) && t !in s.tasks
    ensures Inv(s.(tasks := s.tasks[t := Task(mem, Idle, 0)]), multiset{})
  {
    var s' := s.(tasks := s.tasks[t := Task(mem, Idle, 0)]);
    forall g | g in s'.futexes ensures RefsOk(s', multiset{}, g) && QueueOk(s', g) {
      assert RefsOk(s, multiset{}, g) && QueueOk(s, g);
      assert Namers(s'.tasks, g) == Namers(s.tasks, g);
    }
    forall u | u in s'.tasks ensures TaskOk(s', u) {
      assert u != t ==> TaskOk(s, u);
    }
  }

  lemma ExitKeepsInv(s: State, t: Tid)
    requires Inv(s, multiset{}) && Calling(s, t)
    ensures Inv(s.(tasks := s.tasks - {t}), multiset{})
  {
    var s' := s.(tasks := s.tasks - {t});
    forall g | g in s'.futexes ensures RefsOk(s', multiset{}, g) && QueueOk(s', g) {
      assert RefsOk(s, multiset{}, g) && QueueOk(s, g);
      assert Namers(s'.tasks, g) == Namers(s.tasks, g);
    }
    forall u | u in s'.tasks ensures TaskOk(s', u) {
      assert TaskOk(s, u);
    }
  }

  lemma StepKeepsInv(s: State, step: Step)
    requires Inv(s, multiset{}) && Enabled(s, step)
    ensures Inv(Apply(s, step).0, multiset{})
  {
    match step
    case Start(t, addr, val, loaded, id) => StartWaitKeepsInv(s, t, addr, val, loaded, id);
    case Woken(t) => LeaveKeepsInv(s, t);
    case Quit(t) => LeaveKeepsInv(s, t);
    case End(t) => EndWaitKeepsInv(s, t);
    case WakeUp(t, addr, max, id) => WakeAtKeepsInv(s, s.tasks[t].mem, addr, max, id);
    case Requeue(t, addr, max, max2, addr2, id, id2) => RequeueAtKeepsInv(s, s.tasks[t].mem, addr, max, max2, addr2, id, id2);
    case CmpRequeue(t, addr, max, max2, addr2, expected, loaded, id, id2) =>
      CmpRequeueAtKeepsInv(s, s.tasks[t].mem, addr, max, max2, addr2, expected, loaded, id, id2);
    case WakeOp(t, addr, max, addr2, max2, val3, word, id, id2) =>
      WakeOpCallKeepsInv(s, s.tasks[t].mem, addr, max, addr2, max2, val3, word, id, id2);
    case Spawn(t, mem) => SpawnKeepsInv(s, t, mem);
    case Exit(t) => ExitKeepsInv(s, t);
  }

  /** A change of threads alone leaves the queues. */
  lemma TasksOnlyShow(s: State, tasks: map<Tid, Task>)
    requires TableInv(s)
    ensures View(s.(tasks := tasks)) == View(s).(threads := ThreadsOf(tasks))
  {
    var s' := s.(tasks := tasks);
    forall p ensures Waiters(s', p) == Waiters(s, p) {
      WaitersFollow(s, s', p);
    }
    assert View(s').at == View(s).at;
  }

  lemma CmpRequeueAtShows(s: State, mem: nat, addr: nat, max: nat, max2: nat, addr2: nat, expected: nat,
                          loaded: Option<nat>, id: Id, id2: Id)
    requires Inv(s, multiset{}) && id !in s.futexes && id2 !in s.futexes && id != id2
    requires loaded != Some(expected)
    ensures var (s', err) := CmpRequeueAt(s, mem, addr, max, max2, addr2, expected, loaded, id, id2);
            err == (if loaded.None? then EFAULT else EAGAIN) && View(s') == View(s)
  {
    var (s1, f) := Get(s, mem, addr, id);
    GetKeepsInv(s, multiset{}, mem, addr, id);
    GetIsInvisible(s, mem, addr, id);
    PutIsInvisible(s1, multiset{}, f);
  }

  lemma LeaveShows(s: State, t: Tid)
    requires TableInv(s) && t in s.tasks && s.tasks[t].phase.Waiting?
    ensures View(PollWoken(s, t)) == QueueStep(View(s), Woken(t)).0
    ensures View(GiveUp(s, t)) == QueueStep(View(s), Quit(t)).0
  {
    TasksOnlyShow(s, PollWoken(s, t).tasks);
    TasksOnlyShow(s, GiveUp(s, t).tasks);
    assert ThreadsOf(PollWoken(s, t).tasks) == QueueStep(View(s), Woken(t)).0.threads;
    assert ThreadsOf(GiveUp(s, t).tasks) == QueueStep(View(s), Quit(t)).0.threads;
  }

  lemma SpawnShows(s: State, t: Tid, mem: nat)
    requires TableInv(s) && t !in s.tasks
    ensures View(Apply(s, Spawn(t, mem)).0) == QueueStep(View(s), Spawn(t, mem)).0
  {
    var tasks := s.tasks[t := Task(mem, Idle, 0)];
    TasksOnlyShow(s, tasks);
    assert ThreadsOf(tasks) == QueueStep(View(s), Spawn(t, mem)).0.threads;
  }

  lemma ExitShows(s: State, t: Tid)
    requires TableInv(s) && Calling(s, t)
    ensures View(Apply(s, Exit(t)).0) == QueueStep(View(s), Exit(t)).0
  {
    TasksOnlyShow(s, s.tasks - {t});
    assert ThreadsOf(s.tasks - {t}) == QueueStep(View(s), Exit(t)).0.threads;
  }

  lemma WakeOpCallShows(s: State, mem: nat, addr: nat, max: nat, addr2: nat, max2: nat, val3: nat, word: Option<nat>, id: Id, id2: Id)
    requires Inv(s, multiset{}) && FreshPair(s, id, id2)
    ensures var call := WakeOpCall(s, mem, addr, max, addr2, max2, val3, word, id, id2);
            match FutexWakeOp.Judged(val3, word).1
            case Failed(errno) => View(call.0) == View(s) && call.1 == errno
            case Wakes(both) =>
              var queues := QueueWakeOp(View(s), Place(mem, addr), max, Place(mem, addr2), max2, both);
              View(call.0) == queues.0 && call.1 == queues.1
  {
    match FutexWakeOp.Judged(val3, word).1
    case Failed(_) =>
    case Wakes(both) => WakeOpAtShows(s, mem, addr, max, addr2, max2, both, id, id2);
  }

  /** The whole call on queues and numbers: the first queue is woken, and the second exactly if the comparison holds. */
  lemma WakeOpCallMeans(s: State, mem: nat, addr: nat, max: nat, addr2: nat, max2: nat,
                        op: nat, cmp: nat, oparg: int, cmparg: int, word: nat, id: Id, id2: Id)
    requires Inv(s, multiset{}) && FreshPair(s, id, id2)
    requires op % 8 <= 4 && op < 16 && cmp <= 5 && -2048 <= oparg < 2048 && -2048 <= cmparg < 2048
    requires word < 0x1_0000_0000 && (op >= 8 ==> 0 <= oparg <= 31)
    ensures var old_ := if word < 0x8000_0000 then word else word - 0x1_0000_0000;
            var both := || (cmp == 0 && old_ == cmparg) || (cmp == 1 && old_ != cmparg)
                        || (cmp == 2 && old_ < cmparg) || (cmp == 3 && old_ <= cmparg)
                        || (cmp == 4 && old_ > cmparg) || (cmp == 5 && old_ >= cmparg);
            var call := WakeOpCall(s, mem, addr, max, addr2, max2, FutexWakeOp.Argument(op, cmp, oparg, cmparg), Some(word), id, id2);
            var first := QueueWake(View(s), Place(mem, addr), max);
            if both then
              var second := QueueWake(first.0, Place(mem, addr2), max2);
              View(call.0) == second.0 && call.1 == first.1 + second.1
            else View(call.0) == first.0 && call.1 == first.1
  {
    FutexWakeOp.ComparisonMeans(op, cmp, oparg, cmparg, word);
    WakeOpCallShows(s, mem, addr, max, addr2, max2, FutexWakeOp.Argument(op, cmp, oparg, cmparg), Some(word), id, id2);
  }

  /** Every step does to the queues what the same step on queues does, and returns the same. */
  lemma StepShows(s: State, step: Step)
    requires Inv(s, multiset{}) && Enabled(s, step)
    ensures View(Apply(s, step).0) == QueueStep(View(s), step).0
    ensures Apply(s, step).1 == QueueStep(View(s), step).1
  {
    match step
    case Start(t, addr, val, loaded, id) => StartWaitShows(s, t, addr, val, loaded, id);
    case Woken(t) => LeaveShows(s, t);
    case Quit(t) => LeaveShows(s, t);
    case End(t) => EndWaitShows(s, t);
    case WakeUp(t, addr, max, id) => WakeAtShows(s, s.tasks[t].mem, addr, max, id);
    case Requeue(t, addr, max, max2, addr2, id, id2) => RequeueAtShows(s, s.tasks[t].mem, addr, max, max2, addr2, id, id2);
    case CmpRequeue(t, addr, max, max2, addr2, expected, loaded, id, id2) =>
      if loaded == Some(expected) {
        RequeueAtShows(s, s.tasks[t].mem, addr, max, max2, addr2, id, id2);
      } else {
        CmpRequeueAtShows(s, s.tasks[t].mem, addr, max, max2, addr2, expected, loaded, id, id2);
      }
    case WakeOp(t, addr, max, addr2, max2, val3, word, id, id2) =>
      WakeOpCallShows(s, s.tasks[t].mem, addr, max, addr2, max2, val3, word, id, id2);
    case Spawn(t, mem) => SpawnShows(s, t, mem);
    case Exit(t) => ExitShows(s, t);
  }

  predicate CanRun(s: State, steps: seq<Step>)
    decreases |steps|
  {
    steps == [] || (Enabled(s, steps[0]) && CanRun(Apply(s, steps[0]).0, steps[1..]))
  }

  /** The state after a run and what its steps returned. */
  function Run(s: State, steps: seq<Step>): (State, seq<int>)
    requires CanRun(s, steps)
    decreases |steps|
  {
    if steps == [] then (s, [])
    else (var (s1, result) := Apply(s, steps[0]); var (s2, results) := Run(s1, steps[1..]); (s2, [result] + results))
  }

  ghost predicate CanRunQueues(v: Queues, steps: seq<Step>)
    requires Total(v)
    decreases |steps|
  {
    steps == [] || ((steps[0].Spawn? || steps[0].t in v.threads) && CanRunQueues(QueueStep(v, steps[0]).0, steps[1..]))
  }

  ghost function RunQueues(v: Queues, steps: seq<Step>): (Queues, seq<int>)
    requires Total(v) && CanRunQueues(v, steps)
    decreases |steps|
  {
    if steps == [] then (v, [])
    else (var (v1, result) := QueueStep(v, steps[0]); var (v2, results) := RunQueues(v1, steps[1..]); (v2, [result] + results))
  }

  lemma {:induction false} RunKeepsInv(s: State, steps: seq<Step>)
    requires Inv(s, multiset{}) && CanRun(s, steps)
    ensures Inv(Run(s, steps).0, multiset{})
    decreases |steps|
  {
    if steps != [] {
      StepKeepsInv(s, steps[0]);
      RunKeepsInv(Apply(s, steps[0]).0, steps[1..]);
    }
  }

  /** Any run of any threads looks, to its callers, like the same run on one queue per address. */
  lemma {:induction false} RunRefinesQueues(s: State, steps: seq<Step>)
    requires Inv(s, multiset{}) && CanRun(s, steps)
    ensures CanRunQueues(View(s), steps)
    ensures View(Run(s, steps).0) == RunQueues(View(s), steps).0
    ensures Run(s, steps).1 == RunQueues(View(s), steps).1
    decreases |steps|
  {
    if steps != [] {
      StepKeepsInv(s, steps[0]);
      StepShows(s, steps[0]);
      RunRefinesQueues(Apply(s, steps[0]).0, steps[1..]);
    }
  }

  const INITIAL: State := State(map[], seq(HASH_SIZE, _ => []), map[])

  lemma InitialInv()
    ensures Inv(INITIAL, multiset{})
  {
    var key := KeyMap(INITIAL.futexes);
    forall h | 0 <= h < HASH_SIZE ensures BucketOk(INITIAL.table[h], h, key) {
      assert INITIAL.table[h] == [];
    }
  }

  /**
   No wake-up is lost: after any run, a thread asleep in the poll loop is on the queue of its futex and on no
   other, with an empty pipe, or on no queue at all, with exactly one byte in its pipe.
   */
  lemma NoWakeUpIsLost(steps: seq<Step>, t: Tid)
    requires CanRun(INITIAL, steps)
    requires t in Run(INITIAL, steps).0.tasks && Run(INITIAL, steps).0.tasks[t].phase.Waiting?
    ensures var s := Run(INITIAL, steps).0; var task := s.tasks[t];
            && (forall f :: OnQueue(s, t, f) ==> f == task.phase.futex)
            && task.pipe == if OnQueue(s, t, task.phase.futex) then 0 else 1
  {
    InitialInv();
    RunKeepsInv(INITIAL, steps);
    var s := Run(INITIAL, steps).0;
    assert TaskOk(s, t);
    forall f | OnQueue(s, t, f) ensures f == s.tasks[t].phase.futex {
      assert QueueOk(s, f);
    }
  }

  /** After any run, a futex exists exactly while some wait names it, and it is referenced that many times. */
  lemma ReferencesAreWaits(steps: seq<Step>, f: Id)
    requires CanRun(INITIAL, steps)
    ensures var s := Run(INITIAL, steps).0;
            && (f in s.futexes <==> exists t :: t in s.tasks && Names(s.tasks[t], f))
            && (f in s.futexes ==> s.futexes[f].refs == |Namers(s.tasks, f)|)
  {
    InitialInv();
    RunKeepsInv(INITIAL, steps);
    var s := Run(INITIAL, steps).0;
    if f in s.futexes {
      assert RefsOk(s, multiset{}, f);
      var t :| t in Namers(s.tasks, f);
    } else {
      NobodyNames(s, multiset{}, f);
      assert forall t :: t in s.tasks && Names(s.tasks[t], f) ==> t in Namers(s.tasks, f);
    }
  }
}
