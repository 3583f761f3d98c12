/**
 The futex operations as the kernel runs them, under futex_lock, on the hash table and the threads' pipes.
 Every method is proved to do what the function of the same name in FutexQueues does.
 */
module FutexTable {
  import opened Common
  import opened BucketTable
  import opened FutexQueues
  import FutexWakeOp

  class Futexes {
    var futexes: map<Id, Futex>
    var table: Table
    var tasks: map<Tid, Task>

    ghost function View(): State
      reads this
    {
      State(futexes, table, tasks)
    }

    constructor ()
      ensures Inv(View(), multiset{}) && View().futexes == map[] && View().tasks == map[]
    {
      futexes, table, tasks := map[], seq(HASH_SIZE, _ => []), map[];
      new;
      assert forall h :: 0 <= h < HASH_SIZE ==> table[h] == [];
    }

    method Get(mem: nat, addr: nat, id: Id) returns (f: Id)
      requires TableInv(View()) && id !in futexes
      modifies this
      ensures (View(), f) == FutexQueues.Get(old(View()), mem, addr, id)
    {
      var h := Hash(mem, addr);
      var bucket, i := table[h], 0;
      ghost var found := FindIn(futexes, bucket, mem, addr);
      while i < |bucket|
        invariant 0 <= i <= |bucket|
        invariant View() == old(View())
        invariant FindIn(futexes, bucket[i..], mem, addr) == found
      {
        f := bucket[i];
        assert f in bucket && BucketOk(table[h], h, KeyMap(futexes));
        if futexes[f].addr == addr && futexes[f].mem == mem {
          futexes := futexes[f := futexes[f].(refs := futexes[f].refs + 1)];
          return;
        }
        assert bucket[i..][1..] == bucket[i + 1..];
        i := i + 1;
      }
      f := id;
      futexes := futexes[f := Futex(mem, addr, 1, [])];
      table := table[h := [f] + table[h]];
    }

    method Put(f: Id)
      requires TableInv(View()) && f in futexes && futexes[f].refs > 0
      requires futexes[f].refs == 1 ==> futexes[f].queue == []
      modifies this
      ensures View() == FutexQueues.Put(old(View()), f)
    {
      futexes := futexes[f := futexes[f].(refs := futexes[f].refs - 1)];
      if futexes[f].refs == 0 {
        assert futexes[f].queue == [];
        var h := Hash(futexes[f].mem, futexes[f].addr);
        table := table[h := Without(table[h], f)];
        futexes := futexes - {f};
      }
      assert View().futexes == FutexQueues.Put(old(View()), f).futexes;
    }

    method WakeQueue(f: Id, max: nat) returns (woken: nat)
      requires Sound(View(), f)
      modifies this
      ensures View() == Wake(old(View()), f, max) && woken == Min(max, |old(futexes)[f].queue|)
    {
      woken := 0;
      ghost var n := |futexes[f].queue|;
      while futexes[f].queue != [] && woken < max
        invariant Sound(View(), f) && woken <= max && woken + |futexes[f].queue| == n
        invariant Wake(View(), f, max - woken) == Wake(old(View()), f, max)
      {
        ghost var s := View();
        var t := futexes[f].queue[0];
        tasks := tasks[t := tasks[t].(pipe := tasks[t].pipe + 1)];
        futexes := futexes[f := futexes[f].(queue := futexes[f].queue[1..])];
        assert View() == WakeHead(s, f);
        WokenFirstStep(s, f, 1);
        woken := woken + 1;
      }
    }

    /**
     One round of the requeue loop; the assertion in the code, that the futex is referenced more than once, is
     proved.
     */
    method RequeueOldest(f: Id, f2: Id, ghost held: multiset<Id>) returns (more: bool)
      requires Inv(View(), held) && f in held && f2 in held && futexes[f].queue != []
      modifies this
      ensures View() == MoveHead(old(View()), f, f2) && Inv(View(), held)
      ensures Head(old(View()), f).Some? && more == (|old(futexes)[f].queue| > 1)
      ensures more ==> futexes[f].queue != []
    {
      ghost var s := View();
      assert QueueOk(s, f);
      MoveHeadKeepsInv(s, held, f, f2);
      var t := futexes[f].queue[0];
      more := |futexes[f].queue| > 1;
      futexes := futexes[f := futexes[f].(queue := futexes[f].queue[1..])];
      futexes := futexes[f2 := futexes[f2].(queue := futexes[f2].queue + [t])];
      assert futexes[f].refs > 1;
      futexes := futexes[f := futexes[f].(refs := futexes[f].refs - 1)];
      futexes := futexes[f2 := futexes[f2].(refs := futexes[f2].refs + 1)];
      tasks := tasks[t := Renamed(tasks[t], f2)];
      assert View() == MoveHead(s, f, f2);
    }

    /**
     The requeue loop.  `more` is whether an entry follows, read before the current one moves.
     */
    method RequeueWaiters(f: Id, f2: Id, max: nat, ghost held: multiset<Id>) returns (requeued: nat)
      requires Inv(View(), held) && f in held && f2 in held
      modifies this
      ensures View() == Move(old(View()), f, f2, max).0 && requeued == Move(old(View()), f, f2, max).1
    {
      requeued := 0;
      var more := futexes[f].queue != [];
      while more && requeued < max
        invariant Inv(View(), held) && (more ==> futexes[f].queue != []) && requeued <= max
        invariant Move(View(), f, f2, if more then max - requeued else 0).0 == Move(old(View()), f, f2, max).0
        invariant requeued + Move(View(), f, f2, if more then max - requeued else 0).1 == Move(old(View()), f, f2, max).1
      {
        more := RequeueOldest(f, f2, held);
        requeued := requeued + 1;
      }
    }

    method PutHeld(f: Id, ghost held: multiset<Id>)
      requires Inv(View(), held + multiset{f})
      modifies this
      ensures View() == FutexQueues.Put(old(View()), f) && Inv(View(), held)
    {
      PutKeepsInv(View(), held, f);
      assert RefsOk(View(), held + multiset{f}, f);
      Put(f);
    }

    method GetHeld(mem: nat, addr: nat, id: Id, ghost held: multiset<Id>) returns (f: Id)
      requires Inv(View(), held) && id !in futexes
      modifies this
      ensures View() == FutexQueues.Get(old(View()), mem, addr, id).0 && f == FutexQueues.Get(old(View()), mem, addr, id).1
      ensures Inv(View(), held + multiset{f}) && f in futexes && futexes.Keys <= old(futexes).Keys + {id}
    {
      GetKeepsInv(View(), held, mem, addr, id);
      GetKeepsTable(View(), mem, addr, id);
      f := Get(mem, addr, id);
    }

    method WakeHeld(f: Id, max: nat, ghost held: multiset<Id>) returns (woken: nat)
      requires Inv(View(), held) && f in futexes
      modifies this
      ensures View() == Wake(old(View()), f, max) && woken == Min(max, QueueLength(old(View()), f))
      ensures Inv(View(), held) && futexes.Keys == old(futexes).Keys
    {
      assert QueueOk(View(), f);
      WakeKeepsInv(View(), held, f, max);
      WakeKeepsFutexes(View(), f, max);
      woken := WakeQueue(f, max);
    }

    /** futex_wakelike for FUTEX_WAKE */
    method WakeUp(mem: nat, addr: nat, max: nat, id: Id) returns (woken: nat)
      requires Inv(View(), multiset{}) && id !in futexes
      modifies this
      ensures View() == WakeAt(old(View()), mem, addr, max, id).0 && woken == WakeAt(old(View()), mem, addr, max, id).1
      ensures Inv(View(), multiset{})
    {
      var f := GetHeld(mem, addr, id, multiset{});
      woken := WakeHeld(f, max, multiset{} + multiset{f});
      PutHeld(f, multiset{});
    }

    /** futex_wakelike for FUTEX_REQUEUE */
    method Requeue(mem: nat, addr: nat, max: nat, max2: nat, addr2: nat, id: Id, id2: Id) returns (n: nat)
      requires Inv(View(), multiset{}) && id !in futexes && id2 !in futexes && id != id2
      modifies this
      ensures View() == RequeueAt(old(View()), mem, addr, max, max2, addr2, id, id2).0
      ensures n == RequeueAt(old(View()), mem, addr, max, max2, addr2, id, id2).1
      ensures Inv(View(), multiset{})
    {
      var f := GetHeld(mem, addr, id, multiset{});
      n := RequeueRest(mem, f, max, max2, addr2, id2);
    }

    /** What is left of both requeue calls once the first futex is held. */
    method RequeueRest(mem: nat, f: Id, max: nat, max2: nat, addr2: nat, id2: Id) returns (n: nat)
      requires Inv(View(), multiset{} + multiset{f}) && f in futexes && id2 !in futexes
      modifies this
      ensures var (s2, f2) := FutexQueues.Get(Wake(old(View()), f, max), mem, addr2, id2);
              && View() == FutexQueues.Put(FutexQueues.Put(Move(s2, f, f2, max2).0, f2), f)
              && n == Min(max, QueueLength(old(View()), f)) + Move(s2, f, f2, max2).1
      ensures Inv(View(), multiset{})
    {
      n := WakeHeld(f, max, multiset{} + multiset{f});
      var f2 := GetHeld(mem, addr2, id2, multiset{} + multiset{f});
      MoveKeepsInv(View(), multiset{} + multiset{f} + multiset{f2}, f, f2, max2);
      var requeued := RequeueWaiters(f, f2, max2, multiset{} + multiset{f} + multiset{f2});
      PutHeld(f2, multiset{} + multiset{f});
      n := n + requeued;
      PutHeld(f, multiset{});
    }

    method CmpRequeue(mem: nat, addr: nat, max: nat, max2: nat, addr2: nat, expected: nat, loaded: Option<nat>, id: Id, id2: Id)
      returns (r: int)
      requires Inv(View(), multiset{}) && id !in futexes && id2 !in futexes && id != id2
      modifies this
      ensures View() == CmpRequeueAt(old(View()), mem, addr, max, max2, addr2, expected, loaded, id, id2).0
      ensures r == CmpRequeueAt(old(View()), mem, addr, max, max2, addr2, expected, loaded, id, id2).1
      ensures Inv(View(), multiset{})
    {
      var f := GetHeld(mem, addr, id, multiset{});
      if loaded.None? {
        PutHeld(f, multiset{});
        return EFAULT;
      }
      if loaded.value != expected {
        PutHeld(f, multiset{});
        return EAGAIN;
      }
      r := RequeueRest(mem, f, max, max2, addr2, id2);
    }

    /** The waking half of futex_wake_op. */
    method WakeBoth(mem: nat, addr: nat, max: nat, addr2: nat, max2: nat, both: bool, id: Id, id2: Id) returns (total: nat)
      requires Inv(View(), multiset{}) && id !in futexes && id2 !in futexes && id != id2
      modifies this
      ensures View() == WakeOpAt(old(View()), mem, addr, max, addr2, max2, both, id, id2).0
      ensures total == WakeOpAt(old(View()), mem, addr, max, addr2, max2, both, id, id2).1
      ensures Inv(View(), multiset{})
    {
      var f := GetHeld(mem, addr, id, multiset{});
      total := WakeHeld(f, max, multiset{} + multiset{f});
      if both {
        var f2 := GetHeld(mem, addr2, id2, multiset{} + multiset{f});
        var n := WakeHeld(f2, max2, multiset{} + multiset{f} + multiset{f2});
        PutHeld(f2, multiset{} + multiset{f});
        total := total + n;
      }
      PutHeld(f, multiset{});
    }

    /** futex_wake_op: the new word, and the number woken or an error. */
    method WakeOp(mem: nat, addr: nat, max: nat, addr2: nat, max2: nat, val3: nat, word: Option<nat>, id: Id, id2: Id)
      returns (changed: Option<nat>, r: int)
      requires Inv(View(), multiset{}) && id !in futexes && id2 !in futexes && id != id2
      modifies this
      ensures View() == WakeOpCall(old(View()), mem, addr, max, addr2, max2, val3, word, id, id2).0
      ensures r == WakeOpCall(old(View()), mem, addr, max, addr2, max2, val3, word, id, id2).1
      ensures changed == FutexWakeOp.Judged(val3, word).0 && Inv(View(), multiset{})
    {
      var (after, verdict) := FutexWakeOp.Judged(val3, word);
      changed := after;
      match verdict
      case Failed(errno) => r := errno;
      case Wakes(both) => r := WakeBoth(mem, addr, max, addr2, max2, both, id, id2);
    }

    /** The part of futex_wait before the poll loop. */
    method StartWaiting(t: Tid, addr: nat, val: nat, loaded: Option<nat>, id: Id) returns (err: int)
      requires Inv(View(), multiset{}) && t in tasks && tasks[t].phase.Idle? && id !in futexes
      modifies this
      ensures View() == StartWait(old(View()), t, addr, val, loaded, id).0
      ensures err == StartWait(old(View()), t, addr, val, loaded, id).1
      ensures Inv(View(), multiset{})
    {
      var f := GetHeld(tasks[t].mem, addr, id, multiset{});
      if loaded.None? {
        PutHeld(f, multiset{});
        return EFAULT;
      }
      if loaded.value != val {
        PutHeld(f, multiset{});
        return EAGAIN;
      }
      EnqueueKeepsInv(View(), multiset{}, t, f);
      tasks := tasks[t := tasks[t].(pipe := 0)];
      tasks := tasks[t := tasks[t].(phase := Waiting(f))];
      futexes := futexes[f := futexes[f].(queue := futexes[f].queue + [t])];
      err := 0;
    }

    /** The part of futex_wait after the poll loop. */
    method EndWaiting(t: Tid)
      requires Inv(View(), multiset{}) && t in tasks && tasks[t].phase.Leaving?
      modifies this
      ensures View() == EndWait(old(View()), t) && Inv(View(), multiset{})
    {
      var f := tasks[t].phase.futex;
      assert TaskOk(View(), t);
      DequeueKeepsInv(View(), t);
      futexes := futexes[f := futexes[f].(queue := Without(futexes[f].queue, t))];
      tasks := tasks[t := tasks[t].(phase := Idle)];
      assert View() == Dequeue(old(View()), t);
      assert multiset{} + multiset{f} == multiset{f};
      PutHeld(f, multiset{});
    }
  }
}
