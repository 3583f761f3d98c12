/**
 The tables of hottest blocks and hottest jumps (asbestos/asbestos.c, arm64_block_stats_record_*_locked).

 Eight counters follow a stream of keys of any length: a key that has a counter increments it, a new key
 takes an unused counter, and when there is none it takes over the smallest counter, count included.  This
 is the Space-Saving sketch.  The theorem `SpaceSavingBounds` bounds what the counters say about the true
 frequencies, for every stream.
 */
module HotTables {

  const SLOTS: nat := 8

  datatype Slot<K> = Slot(key: K, count: nat)

  // ---------------------------------------------------------------- one sample

  function FindKey<K(==)>(s: seq<Slot<K>>, k: K): (i: nat)
    ensures i <= |s|
    ensures i < |s| ==> s[i].count != 0 && s[i].key == k
    ensures forall j :: 0 <= j < i ==> !(s[j].count != 0 && s[j].key == k)
  {
    if s == [] || (s[0].count != 0 && s[0].key == k) then 0 else 1 + FindKey(s[1..], k)
  }

  function FindFree<K>(s: seq<Slot<K>>): (i: nat)
    ensures i <= |s|
    ensures i < |s| ==> s[i].count == 0
    ensures forall j :: 0 <= j < i ==> s[j].count != 0
  {
    if s == [] || s[0].count == 0 then 0 else 1 + FindFree(s[1..])
  }

  /** The first of the smallest counters. */
  function Smallest<K>(s: seq<Slot<K>>): (m: nat)
    requires s != []
    ensures m < |s| && forall j :: 0 <= j < |s| ==> s[m].count <= s[j].count
    ensures forall j :: 0 <= j < m ==> s[m].count < s[j].count
    decreases |s|
  {
    if |s| == 1 then 0
    else
      var m := Smallest(s[..|s| - 1]);
      if s[|s| - 1].count < s[m].count then |s| - 1 else m
  }

  function Recorded<K(==)>(s: seq<Slot<K>>, k: K): (s': seq<Slot<K>>)
    requires s != []
    ensures |s'| == |s|
  {
    var i := FindKey(s, k);
    if i < |s| then s[i := Slot(k, s[i].count + 1)]
    else
      var f := FindFree(s);
      if f < |s| then s[f := Slot(k, 1)]
      else
        var m := Smallest(s);
        s[m := Slot(k, s[m].count + 1)]
  }

  // ---------------------------------------------------------------- streams

  predicate Unused<K>(s: seq<Slot<K>>) {
    |s| == SLOTS && forall i :: 0 <= i < |s| ==> s[i].count == 0
  }

  /** The table after a stream of samples. */
  function Table<K(==)>(empty: seq<Slot<K>>, stream: seq<K>): (s: seq<Slot<K>>)
    requires |empty| == SLOTS
    ensures |s| == SLOTS
  {
    if stream == [] then empty else Recorded(Table(empty, stream[..|stream| - 1]), stream[|stream| - 1])
  }

  function Total<K>(s: seq<Slot<K>>): nat {
    if s == [] then 0 else s[0].count + Total(s[1..])
  }

  function MinCount<K>(s: seq<Slot<K>>): nat
    requires s != []
  {
    s[Smallest(s)].count
  }

  predicate Tracked<K(==)>(s: seq<Slot<K>>, k: K) {
    FindKey(s, k) < |s|
  }

  ghost predicate DistinctKeys<K>(s: seq<Slot<K>>) {
    forall i, j :: 0 <= i < j < |s| && s[i].count != 0 && s[j].count != 0 ==> s[i].key != s[j].key
  }

  /** How often a key occurs in a stream. */
  function Frequency<K(==)>(stream: seq<K>, k: K): nat {
    multiset(stream)[k]
  }

  /** The counter of a tracked key is at most the smallest counter too high; an untracked key is below it. */
  ghost predicate Bounded<K(!new)>(s: seq<Slot<K>>, stream: seq<K>)
    requires s != []
  {
    && (forall i :: 0 <= i < |s| && s[i].count != 0 ==>
          s[i].count - MinCount(s) <= multiset(stream)[s[i].key] <= s[i].count)
    && (forall k :: (forall i :: 0 <= i < |s| && s[i].count != 0 ==> s[i].key != k) ==> multiset(stream)[k] <= MinCount(s))
  }

  // ---------------------------------------------------------------- each sample keeps the bounds

  lemma {:induction false} TotalUpdate<K>(s: seq<Slot<K>>, i: nat, x: Slot<K>)
    requires i < |s|
    ensures Total(s[i := x]) == Total(s) - s[i].count + x.count
  {
    if i == 0 {
      assert s[i := x][1..] == s[1..];
    } else {
      assert s[i := x][1..] == s[1..][i - 1 := x];
      TotalUpdate(s[1..], i - 1, x);
    }
  }

  lemma RecordAddsOne<K>(s: seq<Slot<K>>, k: K)
    requires s != []
    ensures Total(Recorded(s, k)) == Total(s) + 1
  {
    var i, f, m := FindKey(s, k), FindFree(s), Smallest(s);
    if i < |s| {
      TotalUpdate(s, i, Slot(k, s[i].count + 1));
    } else if f < |s| {
      TotalUpdate(s, f, Slot(k, 1));
    } else {
      TotalUpdate(s, m, Slot(k, s[m].count + 1));
    }
  }

  /** The smallest counter never shrinks. */
  lemma MinGrows<K>(s: seq<Slot<K>>, k: K)
    requires s != []
    ensures MinCount(s) <= MinCount(Recorded(s, k))
  {
  }

  lemma RecordKeepsDistinct<K>(s: seq<Slot<K>>, k: K)
    requires s != [] && DistinctKeys(s)
    ensures DistinctKeys(Recorded(s, k))
  {
  }

  lemma CountSample<K>(stream: seq<K>, k: K, x: K)
    ensures multiset(stream + [k])[x] == multiset(stream)[x] + if x == k then 1 else 0
  {
  }

  /** The counter that a sample goes to. */
  lemma RecordedWhere<K>(s: seq<Slot<K>>, k: K) returns (i: nat)
    requires s != []
    ensures i < |s| && Recorded(s, k) == s[i := Slot(k, s[i].count + 1)]
    ensures s[i].count == MinCount(s) || (s[i].count != 0 && s[i].key == k)
    ensures (forall j :: 0 <= j < |s| && s[j].count != 0 ==> s[j].key != k) || (s[i].count != 0 && s[i].key == k)
  {
    i := if FindKey(s, k) < |s| then FindKey(s, k) else if FindFree(s) < |s| then FindFree(s) else Smallest(s);
  }

  lemma RecordKeepsTracked<K(!new)>(s: seq<Slot<K>>, stream: seq<K>, k: K, j: nat)
    requires s != [] && DistinctKeys(s) && Bounded(s, stream) && j < |s| && Recorded(s, k)[j].count != 0
    ensures var s' := Recorded(s, k);
            s'[j].count - MinCount(s') <= multiset(stream + [k])[s'[j].key] <= s'[j].count
  {
    var s' := Recorded(s, k);
    MinGrows(s, k);
    CountSample(stream, k, s'[j].key);
    var i := RecordedWhere(s, k);
    if j == i {
      assert s'[j] == Slot(k, s[i].count + 1);
    } else {
      assert s'[j] == s[j];
    }
  }

  lemma RecordKeepsUntracked<K(!new)>(s: seq<Slot<K>>, stream: seq<K>, k: K, x: K)
    requires s != [] && Bounded(s, stream)
    requires forall i :: 0 <= i < |Recorded(s, k)| && Recorded(s, k)[i].count != 0 ==> Recorded(s, k)[i].key != x
    ensures multiset(stream + [k])[x] <= MinCount(Recorded(s, k))
  {
    MinGrows(s, k);
    CountSample(stream, k, x);
    UntrackedStays(s, k, x);
  }

  lemma RecordKeepsBounds<K(!new)>(s: seq<Slot<K>>, stream: seq<K>, k: K)
    requires s != [] && DistinctKeys(s) && Bounded(s, stream)
    ensures Bounded(Recorded(s, k), stream + [k])
  {
    var s', stream' := Recorded(s, k), stream + [k];
    forall i | 0 <= i < |s'| && s'[i].count != 0
      ensures s'[i].count - MinCount(s') <= multiset(stream')[s'[i].key] <= s'[i].count
    {
      RecordKeepsTracked(s, stream, k, i);
    }
    forall x | forall i :: 0 <= i < |s'| && s'[i].count != 0 ==> s'[i].key != x
      ensures multiset(stream')[x] <= MinCount(s')
    {
      RecordKeepsUntracked(s, stream, k, x);
    }
  }

  /** A key without a counter had none before, or had the smallest one. */
  lemma UntrackedStays<K>(s: seq<Slot<K>>, k: K, x: K)
    requires s != []
    requires forall i :: 0 <= i < |Recorded(s, k)| && Recorded(s, k)[i].count != 0 ==> Recorded(s, k)[i].key != x
    ensures x != k
    ensures forall i :: 0 <= i < |s| && s[i].count != 0 && s[i].key == x ==> s[i].count == MinCount(s)
  {
    var s' := Recorded(s, k);
    var i0 := if FindKey(s, k) < |s| then FindKey(s, k) else if FindFree(s) < |s| then FindFree(s) else Smallest(s);
    assert s'[i0].key == k && s'[i0].count != 0;
    assert forall i :: 0 <= i < |s| && i != i0 ==> s'[i] == s[i];
  }

  lemma {:induction false} MinTimesSlots<K>(s: seq<Slot<K>>, m: nat)
    requires forall i :: 0 <= i < |s| ==> m <= s[i].count
    ensures m * |s| <= Total(s)
  {
    if s != [] {
      MinTimesSlots(s[1..], m);
      assert m * |s| == m + m * |s[1..]|;
    }
  }

  // ---------------------------------------------------------------- main result

  ghost predicate Accounts<K(!new)>(s: seq<Slot<K>>, stream: seq<K>)
    requires s != []
  {
    Total(s) == |stream| && DistinctKeys(s) && Bounded(s, stream)
  }

  lemma UnusedAccounts<K(!new)>(s: seq<Slot<K>>)
    requires Unused(s)
    ensures Accounts(s, [])
  {
    UnusedTotal(s);
  }

  lemma RecordAccounts<K(!new)>(s: seq<Slot<K>>, stream: seq<K>, k: K)
    requires s != [] && Accounts(s, stream)
    ensures Accounts(Recorded(s, k), stream + [k])
  {
    RecordAddsOne(s, k);
    RecordKeepsDistinct(s, k);
    RecordKeepsBounds(s, stream, k);
  }

  /** For every stream: the counters add up, the keys differ, and the counts bound the frequencies. */
  lemma {:induction false} SpaceSavingBounds<K(!new)>(empty: seq<Slot<K>>, stream: seq<K>)
    requires Unused(empty)
    ensures Accounts(Table(empty, stream), stream)
    ensures SLOTS * MinCount(Table(empty, stream)) <= |stream|
  {
    if stream == [] {
      UnusedAccounts(empty);
    } else {
      var prior, k := stream[..|stream| - 1], stream[|stream| - 1];
      assert stream == prior + [k];
      SpaceSavingBounds(empty, prior);
      RecordAccounts(Table(empty, prior), prior, k);
    }
    MinTimesSlots(Table(empty, stream), MinCount(Table(empty, stream)));
  }

  lemma {:induction false} UnusedTotal<K>(s: seq<Slot<K>>)
    requires forall i :: 0 <= i < |s| ==> s[i].count == 0
    ensures Total(s) == 0
  {
    if s != [] {
      UnusedTotal(s[1..]);
    }
  }

  /** A key that makes up more than an eighth of the stream is in the table. */
  lemma HeavyKeysAreTracked<K(!new)>(empty: seq<Slot<K>>, stream: seq<K>, k: K)
    requires Unused(empty) && SLOTS * Frequency(stream, k) > |stream|
    ensures Tracked(Table(empty, stream), k)
  {
    SpaceSavingBounds(empty, stream);
  }

  /** Until a counter had to be taken over, the counts are exact. */
  lemma ExactWhileUnusedLeft<K(!new)>(empty: seq<Slot<K>>, stream: seq<K>, k: K)
    requires Unused(empty) && MinCount(Table(empty, stream)) == 0
    ensures var s := Table(empty, stream);
            Frequency(stream, k) == if Tracked(s, k) then s[FindKey(s, k)].count else 0
  {
    SpaceSavingBounds(empty, stream);
  }

  // ---------------------------------------------------------------- the code

  class HotTable<K(==, 0, !new)> {
    const slots: array<Slot<K>>
    var samples: nat
    var evictions: nat
    ghost var stream: seq<K>   // what has been recorded

    /** The counters bound the frequencies of what has been recorded. */
    ghost predicate Valid()
      reads this, slots
    {
      slots.Length == SLOTS && Accounts(slots[..], stream) && samples == |stream|
    }

    constructor ()
      ensures Valid() && fresh(slots) && Unused(slots[..]) && stream == [] && evictions == 0
    {
      var zero: K := *;
      slots := new Slot<K>[SLOTS](_ => Slot(zero, 0));
      samples, evictions, stream := 0, 0, [];
      new;
      UnusedAccounts(slots[..]);
    }

    /** arm64_block_stats_record_hot_block_locked; the edge tables run the same code on a longer key. */
    method Record(k: K)
      requires Valid()
      modifies this, slots
      ensures Valid() && stream == old(stream) + [k]
      ensures slots[..] == Recorded(old(slots[..]), k)
      ensures evictions == old(evictions) +
                if FindKey(old(slots[..]), k) == SLOTS && FindFree(old(slots[..])) == SLOTS then 1 else 0
    {
      RecordAccounts(slots[..], stream, k);
      CountSlot(k);
      samples, stream := samples + 1, stream + [k];
    }

    /** The three loops over the slots. */
    method CountSlot(k: K)
      requires slots.Length == SLOTS
      modifies slots, `evictions
      ensures slots[..] == Recorded(old(slots[..]), k)
      ensures evictions == old(evictions) +
                if FindKey(old(slots[..]), k) == SLOTS && FindFree(old(slots[..])) == SLOTS then 1 else 0
    {
      ghost var s := slots[..];
      var i := 0;
      while i < SLOTS
        invariant 0 <= i <= SLOTS && slots[..] == s && FindKey(s, k) >= i
      {
        if slots[i].count != 0 && slots[i].key == k {
          assert FindKey(s, k) == i;
          slots[i] := Slot(slots[i].key, slots[i].count + 1);
          return;
        }
        i := i + 1;
      }
      i := 0;
      while i < SLOTS
        invariant 0 <= i <= SLOTS && slots[..] == s && FindFree(s) >= i
      {
        if slots[i].count == 0 {
          assert FindFree(s) == i;
          slots[i] := Slot(k, 1);
          return;
        }
        i := i + 1;
      }
      var min := 0;
      i := 1;
      while i < SLOTS
        invariant 1 <= i <= SLOTS && slots[..] == s && min < i
        invariant forall j :: 0 <= j < i ==> s[min].count <= s[j].count
        invariant forall j :: 0 <= j < min ==> s[min].count < s[j].count
      {
        if slots[i].count < slots[min].count {
          min := i;
        }
        i := i + 1;
      }
      assert Smallest(s) == min;
      slots[min] := Slot(k, slots[min].count + 1);
      evictions := evictions + 1;
    }
  }
}
