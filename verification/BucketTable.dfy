/**
 Hash tables with chained buckets, as the kernel builds them from intrusive lists: a new entry goes to the
 front of its bucket, an entry is unlinked without looking at the rest.  A table is right for a map of keys
 when every bucket holds exactly the entries whose key is that bucket, each of them once.
 */
module BucketTable {

  type Id = nat
  type Table = seq<seq<Id>>

  ghost predicate NoDuplicates(s: seq<Id>) {
    forall i, j :: 0 <= i < j < |s| ==> s[i] != s[j]
  }

  /** The list after unlinking `x`. */
  function Without(s: seq<Id>, x: Id): (r: seq<Id>)
    ensures forall y :: y in r <==> y in s && y != x
  {
    if s == [] then []
    else if s[0] == x then Without(s[1..], x)
    else [s[0]] + Without(s[1..], x)
  }

  lemma {:induction false} WithoutNoDuplicates(s: seq<Id>, x: Id)
    requires NoDuplicates(s)
    ensures NoDuplicates(Without(s, x))
  {
    if s != [] {
      WithoutNoDuplicates(s[1..], x);
      var w, r := Without(s[1..], x), Without(s, x);
      forall i, j | 0 <= i < j < |r| ensures r[i] != r[j] {
        if s[0] != x && i == 0 {
          assert r[j] == w[j - 1] && w[j - 1] in s[1..];
        }
      }
    }
  }

  /** `key` maps every entry of the table to the bucket that holds it. */
  ghost predicate TableOk(t: Table, key: map<Id, nat>) {
    && (forall id {:trigger key[id]} :: id in key ==> key[id] < |t|)
    && forall h {:trigger BucketOk(t[h], h, key)} :: 0 <= h < |t| ==> BucketOk(t[h], h, key)
  }

  ghost predicate BucketOk(bucket: seq<Id>, h: nat, key: map<Id, nat>) {
    NoDuplicates(bucket) && forall id :: id in bucket <==> id in key && key[id] == h
  }

  function Push(t: Table, h: nat, id: Id): Table {
    if h < |t| then t[h := [id] + t[h]] else t
  }

  function Drop(t: Table, h: nat, id: Id): Table {
    if h < |t| then t[h := Without(t[h], id)] else t
  }

  lemma PushOk(t: Table, key: map<Id, nat>, h: nat, id: Id)
    requires TableOk(t, key) && h < |t| && id !in key
    ensures TableOk(Push(t, h, id), key[id := h])
  {
    var t' := Push(t, h, id);
    forall g | 0 <= g < |t'| ensures BucketOk(t'[g], g, key[id := h]) {
      assert BucketOk(t[g], g, key);
    }
  }

  lemma DropOk(t: Table, key: map<Id, nat>, id: Id)
    requires TableOk(t, key) && id in key
    ensures TableOk(Drop(t, key[id], id), key - {id})
  {
    var t' := Drop(t, key[id], id);
    assert BucketOk(t[key[id]], key[id], key);
    WithoutNoDuplicates(t[key[id]], id);
    forall g | 0 <= g < |t'| ensures BucketOk(t'[g], g, key - {id}) {
      assert BucketOk(t[g], g, key);
    }
  }

  function EmptyTable(n: nat): (t: Table)
    ensures |t| == n && forall h :: 0 <= h < n ==> t[h] == []
  {
    seq(n, h => [])
  }

  lemma EmptyOk(n: nat)
    ensures TableOk(EmptyTable(n), map[])
  {
  }

  // ---------------------------------------------------------------- rebuilding a table at another size

  /** All entries, bucket after bucket. */
  function Entries(t: Table): seq<Id> {
    if t == [] then [] else t[0] + Entries(t[1..])
  }

  /** Pushing entries one after the other, each to the bucket its key names. */
  function PushAll(t: Table, ids: seq<Id>, key: map<Id, nat>): (r: Table)
    ensures |r| == |t|
    decreases |ids|
  {
    if ids == [] then t
    else if ids[0] in key then PushAll(Push(t, key[ids[0]], ids[0]), ids[1..], key)
    else PushAll(t, ids[1..], key)
  }

  ghost predicate Within(ids: seq<Id>, key: map<Id, nat>, lo: nat, hi: nat) {
    forall id :: id in ids <==> id in key && lo <= key[id] < hi
  }

  lemma {:induction false} EntriesFrom(t: Table, key: map<Id, nat>, h: nat)
    requires TableOk(t, key) && h <= |t|
    ensures NoDuplicates(Entries(t[h..])) && Within(Entries(t[h..]), key, h, |t|)
    decreases |t| - h
  {
    if h < |t| {
      EntriesFrom(t, key, h + 1);
      assert t[h..][1..] == t[h + 1..];
      assert BucketOk(t[h], h, key);
      var rest := Entries(t[h + 1..]);
      assert Entries(t[h..]) == t[h] + rest;
      forall i, j | 0 <= i < j < |t[h] + rest| ensures (t[h] + rest)[i] != (t[h] + rest)[j] {
        if i < |t[h]| <= j {
          assert t[h][i] in t[h] && rest[j - |t[h]|] in rest;
        }
      }
    }
  }

  /** Every entry of the old table is listed once, and nothing else is. */
  lemma EntriesAreKeys(t: Table, key: map<Id, nat>)
    requires TableOk(t, key)
    ensures NoDuplicates(Entries(t)) && forall id :: id in Entries(t) <==> id in key
  {
    EntriesFrom(t, key, 0);
    assert t[0..] == t;
  }

  function Restrict(key: map<Id, nat>, ids: set<Id>): map<Id, nat> {
    map id | id in key && id in ids :: key[id]
  }

  lemma {:induction false} PushAllOk(t: Table, done: set<Id>, ids: seq<Id>, key: map<Id, nat>)
    requires TableOk(t, Restrict(key, done)) && NoDuplicates(ids)
    requires forall id :: id in ids ==> id in key && key[id] < |t| && id !in done
    ensures TableOk(PushAll(t, ids, key), Restrict(key, done + set id | id in ids))
    decreases |ids|
  {
    if ids == [] {
      assert done + (set id | id in ids) == done;
    } else {
      var first, rest := ids[0], ids[1..];
      PushOk(t, Restrict(key, done), key[first], first);
      assert Restrict(key, done)[first := key[first]] == Restrict(key, done + {first});
      assert forall id :: id in rest ==> id in ids && id != first;
      PushAllOk(Push(t, key[first], first), done + {first}, rest, key);
      assert done + {first} + (set id | id in rest) == done + set id | id in ids;
    }
  }

  /** Moving all entries of one table to a new table of `n` buckets keeps them all, each under its new key. */
  lemma RebuildOk(t: Table, old_: map<Id, nat>, n: nat, key: map<Id, nat>)
    requires TableOk(t, old_) && key.Keys == old_.Keys && forall id :: id in key ==> key[id] < n
    ensures TableOk(PushAll(EmptyTable(n), Entries(t), key), key)
  {
    EntriesAreKeys(t, old_);
    EmptyOk(n);
    assert Restrict(key, {}) == map[];
    PushAllOk(EmptyTable(n), {}, Entries(t), key);
    assert Restrict(key, {} + set id | id in Entries(t)) == key;
  }
}
