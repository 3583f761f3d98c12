/**
 The mount table (fs/mount.c): a list in descending order of the length of the mount points, searched for the
 first point that is a prefix of a path by whole components, and a cache of the last result in each thread.
 */
module MountTable {
  import opened Common

  type Tid = nat

  /** Mounts are numbered in the order in which they were made. */
  datatype Mount = Mount(id: nat, point: string)

  datatype Cached = Cached(id: nat, version: nat)

  datatype State = State(mounts: seq<Mount>, refs: map<nat, nat>, version: nat, next: nat, caches: map<Tid, Cached>)

  const EBUSY: int := -16
  const EINVAL: int := -22

  // ---------------------------------------------------------------- points and paths

  /** The point is the path or a leading part of it that ends where a component ends. */
  predicate Covers(point: string, path: string) {
    |point| <= |path| && path[..|point|] == point && (|path| == |point| || path[|point|] == '/')
  }

  predicate Absolute(path: string) {
    path == "" || path[0] == '/'
  }

  /** A point covers itself, and what is behind it and a slash, and nothing else. */
  lemma CoversMeans(point: string, path: string, rest: string)
    ensures Covers(point, point) && Covers(point, point + "/" + rest)
    ensures Covers(point, path) && path != point ==> path == point + "/" + path[|point| + 1..]
  {
    var below := point + "/" + rest;
    assert below[..|point|] == point && below[|point|] == '/';
    if Covers(point, path) && path != point {
      assert path == path[..|point|] + [path[|point|]] + path[|point| + 1..];
    }
  }

  /** Two points of a path are nested, the shorter in the longer. */
  lemma CoversNested(a: string, b: string, path: string)
    requires Covers(a, path) && Covers(b, path) && |a| <= |b|
    ensures Covers(a, b)
  {
    assert b[..|a|] == path[..|b|][..|a|];
    assert |a| < |b| ==> b[|a|] == path[|a|];
  }

  // ---------------------------------------------------------------- the list

  /** m comes before n in the list: its point is longer, or of the same length and, if it is the same, newer. */
  predicate Ahead(m: Mount, n: Mount) {
    |m.point| >= |n.point| && (m.point == n.point ==> m.id > n.id) && m.id != n.id
  }

  predicate Sorted(mounts: seq<Mount>) {
    forall i, j {:trigger mounts[i], mounts[j]} :: 0 <= i < j < |mounts| ==> Ahead(mounts[i], mounts[j])
  }

  predicate HasRoot(mounts: seq<Mount>) {
    exists m :: m in mounts && m.point == ""
  }

  /** The slow search. */
  function Search(mounts: seq<Mount>, path: string): Option<Mount> {
    if mounts == [] then None
    else if Covers(mounts[0].point, path) then Some(mounts[0])
    else Search(mounts[1..], path)
  }

  /** m is the mount a path belongs to: no covering point is longer, and none of the same length is newer. */
  ghost predicate Owns(mounts: seq<Mount>, m: Mount, path: string) {
    && m in mounts && Covers(m.point, path)
    && forall n :: n in mounts && Covers(n.point, path) && n != m ==>
         |n.point| < |m.point| || (n.point == m.point && n.id < m.id)
  }

  lemma {:induction false} SearchFindsOwner(mounts: seq<Mount>, path: string)
    requires Sorted(mounts)
    ensures match Search(mounts, path)
            case Some(m) => Owns(mounts, m, path)
            case None => forall m :: m in mounts ==> !Covers(m.point, path)
  {
    if mounts != [] {
      if Covers(mounts[0].point, path) {
        var m := mounts[0];
        forall n | n in mounts && Covers(n.point, path) && n != m
          ensures |n.point| < |m.point| || (n.point == m.point && n.id < m.id)
        {
          var i :| 0 <= i < |mounts| && mounts[i] == n;
          assert Ahead(mounts[0], mounts[i]);
          SamePoint(n.point, m.point, path);
        }
      } else {
        SearchFindsOwner(mounts[1..], path);
        OwnerOfTail(mounts, path);
      }
    }
  }

  lemma SamePoint(a: string, b: string, path: string)
    requires Covers(a, path) && Covers(b, path)
    ensures |a| == |b| ==> a == b
  {
  }

  lemma OwnerOfTail(mounts: seq<Mount>, path: string)
    requires mounts != [] && !Covers(mounts[0].point, path)
    ensures forall n :: n in mounts && Covers(n.point, path) ==> n in mounts[1..]
  {
    assert mounts == [mounts[0]] + mounts[1..];
  }

  /** With a root mounted, every absolute path has exactly one owner, and the search finds it. */
  lemma {:induction false} SearchIsOwner(mounts: seq<Mount>, path: string, m: Mount)
    requires Sorted(mounts) && HasRoot(mounts) && Absolute(path)
    ensures Search(mounts, path) == Some(m) <==> Owns(mounts, m, path)
  {
    SearchFindsOwner(mounts, path);
    var root :| root in mounts && root.point == "";
    assert Covers(root.point, path);
  }

  /** Where do_mount puts a new mount. */
  function Inserted(mounts: seq<Mount>, m: Mount): seq<Mount> {
    if mounts == [] || |mounts[0].point| <= |m.point| then [m] + mounts
    else [mounts[0]] + Inserted(mounts[1..], m)
  }

  lemma {:induction false} InsertedHas(mounts: seq<Mount>, m: Mount, n: Mount)
    ensures n in Inserted(mounts, m) <==> n in mounts || n == m
  {
    if mounts == [] || |mounts[0].point| <= |m.point| {
    } else {
      InsertedHas(mounts[1..], m, n);
      assert mounts == [mounts[0]] + mounts[1..];
    }
  }

  lemma {:induction false} InsertedSorted(mounts: seq<Mount>, m: Mount)
    requires Sorted(mounts) && forall n :: n in mounts ==> n.id < m.id
    ensures Sorted(Inserted(mounts, m))
  {
    if mounts == [] || |mounts[0].point| <= |m.point| {
      var r := [m] + mounts;
      forall i, j | 0 <= i < j < |r| ensures Ahead(r[i], r[j]) {
        if i == 0 {
          assert r[j] == mounts[j - 1] && mounts[j - 1] in mounts;
          assert j > 1 ==> Ahead(mounts[0], mounts[j - 1]);
        } else {
          assert r[i] == mounts[i - 1] && r[j] == mounts[j - 1];
        }
      }
    } else {
      var rest := Inserted(mounts[1..], m);
      InsertedSorted(mounts[1..], m);
      var r := [mounts[0]] + rest;
      forall i, j | 0 <= i < j < |r| ensures Ahead(r[i], r[j]) {
        if i == 0 {
          assert r[j] == rest[j - 1] && rest[j - 1] in rest;
          InsertedHas(mounts[1..], m, rest[j - 1]);
          if rest[j - 1] != m {
            var k :| 0 <= k < |mounts[1..]| && mounts[1..][k] == rest[j - 1];
            assert Ahead(mounts[0], mounts[k + 1]);
          } else {
            assert mounts[0] in mounts;
          }
        } else {
          assert r[i] == rest[i - 1] && r[j] == rest[j - 1];
        }
      }
    }
  }

  // ---------------------------------------------------------------- the operations

  /** The mount a pointer leads to; a mount is allocated exactly while it is on the list. */
  function WithId(mounts: seq<Mount>, id: nat): Option<Mount> {
    if mounts == [] then None else if mounts[0].id == id then Some(mounts[0]) else WithId(mounts[1..], id)
  }

  /** The first mount at a point, as do_umount finds it. */
  function At(mounts: seq<Mount>, point: string): Option<Mount> {
    if mounts == [] then None else if mounts[0].point == point then Some(mounts[0]) else At(mounts[1..], point)
  }

  function Without(mounts: seq<Mount>, id: nat): seq<Mount> {
    if mounts == [] then [] else if mounts[0].id == id then mounts[1..] else [mounts[0]] + Without(mounts[1..], id)
  }

  function Count(refs: map<nat, nat>, id: nat): nat {
    if id in refs then refs[id] else 0
  }

  /** A new mount on the list. */
  function Listed(s: State, point: string): State {
    s.(mounts := Inserted(s.mounts, Mount(s.next, point)), refs := s.refs[s.next := 0], next := s.next + 1)
  }

  /** A mount off the list, and its memory given back. */
  function Freed(s: State, id: nat): State {
    s.(mounts := Without(s.mounts, id), refs := s.refs - {id})
  }

  /** The new version that makes every cache stale. */
  function Bumped(s: State): State {
    s.(version := s.version + 1)
  }

  /** The mount at the point, if there is one and nobody holds it. */
  function Removable(s: State, point: string): Option<Mount> {
    match At(s.mounts, point)
    case Some(m) => if Count(s.refs, m.id) == 0 then Some(m) else None
    case None => None
  }

  function DoMount(s: State, point: string): State {
    Bumped(Listed(s, point))
  }

  function DoUmount(s: State, point: string): (State, int) {
    if At(s.mounts, point).None? then (s, EINVAL)
    else match Removable(s, point)
      case Some(m) => (Bumped(Freed(s, m.id)), 0)
      case None => (s, EBUSY)
  }

  /** The mount a pointer leads to, if it answers for the path; the root answers for none. */
  function Answering(s: State, id: nat, path: string): Option<Mount> {
    match WithId(s.mounts, id)
    case Some(m) => if m.point != "" && Covers(m.point, path) then Some(m) else None
    case None => None
  }

  /** The thread has nothing in its cache that could answer. */
  predicate Fresh(s: State, t: Tid) {
    t !in s.caches || s.caches[t].version != s.version
  }

  /** The cached mount, if the cache may answer for the path. */
  function Hit(s: State, t: Tid, path: string): Option<Mount> {
    if Fresh(s, t) then None else Answering(s, s.caches[t].id, path)
  }

  function Retained(s: State, id: nat): State {
    s.(refs := s.refs[id := Count(s.refs, id) + 1])
  }

  /** The slow path, under the lock: search, take a reference and remember the result. */
  function Searched(s: State, t: Tid, path: string): State {
    match Search(s.mounts, path)
    case None => s
    case Some(m) => Retained(s, m.id).(caches := s.caches[t := Cached(m.id, s.version)])
  }

  /** A whole lookup with nothing in between. */
  function Find(s: State, t: Tid, path: string): (State, Option<Mount>) {
    match Hit(s, t, path)
    case Some(m) => (Retained(s, m.id), Some(m))
    case None => (Searched(s, t, path), Search(s.mounts, path))
  }

  function Release(s: State, id: nat): State {
    if Count(s.refs, id) > 0 then s.(refs := s.refs[id := s.refs[id] - 1]) else s
  }

  // ---------------------------------------------------------------- invariant

  /** A cache of the current version names the newest mount at its point. */
  ghost predicate CacheOk(s: State, t: Tid)
    requires t in s.caches
  {
    && s.caches[t].version <= s.version
    && (s.caches[t].version == s.version ==>
          exists m :: m in s.mounts && m.id == s.caches[t].id && Newest(s.mounts, m))
  }

  ghost predicate Newest(mounts: seq<Mount>, m: Mount) {
    forall n :: n in mounts && n.point == m.point ==> n.id <= m.id
  }

  ghost predicate Inv(s: State) {
    && Sorted(s.mounts)
    && (forall m :: m in s.mounts ==> m.id < s.next)
    && forall t {:trigger CacheOk(s, t)} :: t in s.caches ==> CacheOk(s, t)
  }

  lemma {:induction false} WithIdFinds(mounts: seq<Mount>, m: Mount)
    requires Sorted(mounts) && m in mounts
    ensures WithId(mounts, m.id) == Some(m)
  {
    if mounts[0] != m {
      var i :| 0 <= i < |mounts| && mounts[i] == m;
      assert Ahead(mounts[0], mounts[i]);
      assert mounts[1..][i - 1] == m;
      WithIdFinds(mounts[1..], m);
    }
  }

  lemma {:induction false} WithoutHas(mounts: seq<Mount>, m: Mount, n: Mount)
    requires Sorted(mounts) && m in mounts
    ensures n in Without(mounts, m.id) <==> n in mounts && n != m
  {
    if mounts[0].id == m.id {
      TailHas(mounts, n);
      TailHas(mounts, m);
    } else {
      TailHas(mounts, n);
      TailHas(mounts, m);
      WithoutHas(mounts[1..], m, n);
    }
  }

  /** The tail has what the list has, but for the head, which occurs once. */
  lemma TailHas(mounts: seq<Mount>, n: Mount)
    requires Sorted(mounts) && mounts != []
    ensures n in mounts[1..] <==> n in mounts && n != mounts[0]
    ensures n in mounts[1..] ==> n.id != mounts[0].id
  {
    assert mounts == [mounts[0]] + mounts[1..];
    if n in mounts[1..] {
      var i :| 0 <= i < |mounts[1..]| && mounts[1..][i] == n;
      assert Ahead(mounts[0], mounts[i + 1]);
    }
  }

  lemma {:induction false} WithoutSorted(mounts: seq<Mount>, m: Mount)
    requires Sorted(mounts) && m in mounts
    ensures Sorted(Without(mounts, m.id))
  {
    if mounts[0].id != m.id {
      TailHas(mounts, m);
      var rest := Without(mounts[1..], m.id);
      WithoutSorted(mounts[1..], m);
      var r := [mounts[0]] + rest;
      forall i, j | 0 <= i < j < |r| ensures Ahead(r[i], r[j]) {
        if i == 0 {
          assert r[j] == rest[j - 1] && rest[j - 1] in rest;
          WithoutHas(mounts[1..], m, rest[j - 1]);
          var k :| 0 <= k < |mounts[1..]| && mounts[1..][k] == rest[j - 1];
          assert Ahead(mounts[0], mounts[k + 1]);
        } else {
          assert r[i] == rest[i - 1] && r[j] == rest[j - 1];
        }
      }
    }
  }

  lemma MountKeepsInv(s: State, point: string)
    requires Inv(s)
    ensures Inv(DoMount(s, point))
  {
    var s', m := DoMount(s, point), Mount(s.next, point);
    InsertedSorted(s.mounts, m);
    forall n | n in s'.mounts ensures n.id < s'.next {
      InsertedHas(s.mounts, m, n);
    }
    forall t | t in s'.caches ensures CacheOk(s', t) {
      assert CacheOk(s, t);
    }
  }

  lemma {:induction false} AtFinds(mounts: seq<Mount>, point: string)
    ensures match At(mounts, point)
            case Some(m) => m in mounts && m.point == point
            case None => forall m :: m in mounts ==> m.point != point
  {
    if mounts != [] {
      AtFinds(mounts[1..], point);
      assert mounts == [mounts[0]] + mounts[1..];
    }
  }

  lemma UmountKeepsInv(s: State, point: string)
    requires Inv(s)
    ensures Inv(DoUmount(s, point).0)
  {
    AtFinds(s.mounts, point);
    var s' := DoUmount(s, point).0;
    if s' != s {
      var m := At(s.mounts, point).value;
      WithoutSorted(s.mounts, m);
      forall n | n in s'.mounts ensures n.id < s'.next {
        WithoutHas(s.mounts, m, n);
      }
      forall t | t in s'.caches ensures CacheOk(s', t) {
        assert CacheOk(s, t);
      }
    }
  }

  lemma RetainedKeepsInv(s: State, id: nat)
    requires Inv(s)
    ensures Inv(Retained(s, id))
  {
    forall t | t in s.caches ensures CacheOk(Retained(s, id), t) {
      assert CacheOk(s, t);
    }
  }

  lemma SearchedKeepsInv(s: State, t: Tid, path: string)
    requires Inv(s)
    ensures Inv(Searched(s, t, path))
  {
    var s' := Searched(s, t, path);
    SearchFindsOwner(s.mounts, path);
    forall u | u in s'.caches ensures CacheOk(s', u) {
      if u in s.caches && s'.caches[u] == s.caches[u] {
        assert CacheOk(s, u);
      } else {
        var m := Search(s.mounts, path).value;
        assert m in s'.mounts && Newest(s'.mounts, m);
      }
    }
  }

  lemma FindKeepsInv(s: State, t: Tid, path: string)
    requires Inv(s)
    ensures Inv(Find(s, t, path).0)
  {
    if Hit(s, t, path).Some? {
      RetainedKeepsInv(s, Hit(s, t, path).value.id);
    } else {
      SearchedKeepsInv(s, t, path);
    }
  }

  lemma ReleaseKeepsInv(s: State, id: nat)
    requires Inv(s)
    ensures Inv(Release(s, id))
  {
    forall t | t in s.caches ensures CacheOk(Release(s, id), t) {
      assert CacheOk(s, t);
    }
  }

  /** An unmount takes off the newest mount at the point, if there is one and nobody holds it, and nothing else. */
  lemma UmountMeans(s: State, point: string, m: Mount)
    requires Inv(s)
    ensures (forall n :: n in s.mounts ==> n.point != point) ==> DoUmount(s, point) == (s, -22)
    ensures m in s.mounts && m.point == point && Newest(s.mounts, m) ==>
              if Count(s.refs, m.id) > 0 then DoUmount(s, point) == (s, -16)
              else
                && DoUmount(s, point).1 == 0
                && (forall n :: n in DoUmount(s, point).0.mounts <==> n in s.mounts && n != m)
                && DoUmount(s, point).0.version == s.version + 1
  {
    AtFinds(s.mounts, point);
    if m in s.mounts && m.point == point && Newest(s.mounts, m) {
      AtNewest(s.mounts, m);
      forall n ensures n in Without(s.mounts, m.id) <==> n in s.mounts && n != m {
        WithoutHas(s.mounts, m, n);
      }
    }
  }

  /** A lookup takes one reference, to the mount it returns. */
  lemma FindTakesReference(s: State, t: Tid, path: string, id: nat)
    requires Find(s, t, path).1.Some?
    ensures var now := Find(s, t, path);
            && now.0.mounts == s.mounts
            && Count(now.0.refs, id) == Count(s.refs, id) + if id == now.1.value.id then 1 else 0
  {
  }

  // ---------------------------------------------------------------- what a lookup returns

  /** A longer mount point also covers the path; the cache does not look for it. */
  predicate Shadowed(mounts: seq<Mount>, m: Mount, path: string) {
    exists n :: n in mounts && Covers(n.point, path) && |n.point| > |m.point|
  }

  lemma HitIsNewest(s: State, t: Tid, path: string)
    requires Inv(s) && Hit(s, t, path).Some?
    ensures var m := Hit(s, t, path).value; m in s.mounts && Newest(s.mounts, m) && Covers(m.point, path)
  {
    assert CacheOk(s, t);
    var m :| m in s.mounts && m.id == s.caches[t].id && Newest(s.mounts, m);
    WithIdFinds(s.mounts, m);
  }

  /** An answer from the cache is right exactly if no longer point covers the path. */
  lemma HitIsOwnerIff(s: State, t: Tid, path: string)
    requires Inv(s) && Hit(s, t, path).Some?
    ensures Owns(s.mounts, Hit(s, t, path).value, path) <==> !Shadowed(s.mounts, Hit(s, t, path).value, path)
  {
    HitIsNewest(s, t, path);
    var m := Hit(s, t, path).value;
    if !Shadowed(s.mounts, m, path) {
      forall n | n in s.mounts && Covers(n.point, path) && n != m
        ensures |n.point| < |m.point| || (n.point == m.point && n.id < m.id)
      {
        SamePoint(n.point, m.point, path);
        WithIdFinds(s.mounts, n);
        WithIdFinds(s.mounts, m);
      }
    }
  }

  /** No mount point other than the root has another one below it. */
  predicate Flat(mounts: seq<Mount>) {
    forall m, n :: m in mounts && n in mounts && m.point != "" && Covers(m.point, n.point) ==> n.point == m.point
  }

  /** Without nested points, a lookup returns the owner of the path, cached or not. */
  lemma FindIsOwner(s: State, t: Tid, path: string)
    requires Inv(s) && HasRoot(s.mounts) && Absolute(path) && Flat(s.mounts)
    ensures Find(s, t, path).1.Some? && Owns(s.mounts, Find(s, t, path).1.value, path)
  {
    if Hit(s, t, path).Some? {
      var m := Hit(s, t, path).value;
      HitIsNewest(s, t, path);
      forall n | n in s.mounts && Covers(n.point, path) ensures |n.point| <= |m.point| {
        if |n.point| > |m.point| {
          CoversNested(m.point, n.point, path);
        }
      }
      HitIsOwnerIff(s, t, path);
    } else {
      SearchFindsOwner(s.mounts, path);
      var root :| root in s.mounts && root.point == "";
      assert Covers(root.point, path);
    }
  }

  // ---------------------------------------------------------------- nested points

  predicate AllAbsolute(mounts: seq<Mount>) {
    forall m :: m in mounts ==> Absolute(m.point)
  }

  /** Two lookups in a row by one thread, the second of which returns the owner of its path. */
  ghost predicate RightPair(s: State, t: Tid, p: string, q: string) {
    var m := Find(Find(s, t, p).0, t, q).1;
    m.Some? && Owns(s.mounts, m.value, q)
  }

  ghost predicate AllPairsRight(s: State, t: Tid) {
    forall p, q {:trigger RightPair(s, t, p, q)} :: Absolute(p) && Absolute(q) ==> RightPair(s, t, p, q)
  }

  /** The search for a mount point finds the newest mount there. */
  lemma SearchOfPoint(mounts: seq<Mount>, m: Mount)
    requires Sorted(mounts) && m in mounts
    ensures Search(mounts, m.point).Some? && Search(mounts, m.point).value in mounts
    ensures Search(mounts, m.point).value.point == m.point
  {
    SearchFindsOwner(mounts, m.point);
    assert Covers(m.point, m.point);
    SamePoint(Search(mounts, m.point).value.point, m.point, m.point);
  }

  /**
   Whenever one mount point lies below another: a thread without an answer for the outer point that looks it
   up, and then the inner one, is given the outer mount.
   */
  lemma NestedPointsMislead(s: State, t: Tid, m: Mount, n: Mount)
    requires Inv(s) && m in s.mounts && n in s.mounts
    requires m.point != "" && Covers(m.point, n.point) && n.point != m.point && Hit(s, t, m.point).None?
    ensures var found := Find(Find(s, t, m.point).0, t, n.point).1;
            found.Some? && found.value.point == m.point && !Owns(s.mounts, found.value, n.point)
  {
    SearchOfPoint(s.mounts, m);
    var outer := Search(s.mounts, m.point).value;
    WithIdFinds(s.mounts, outer);
    var s1 := Find(s, t, m.point).0;
    assert Hit(s1, t, n.point) == Some(outer);
    assert Covers(n.point, n.point);
  }

  /** For a table and a thread new to it: every pair of lookups is right exactly if no mount point has another below it. */
  lemma AllPairsRightIff(s: State, t: Tid)
    requires Inv(s) && HasRoot(s.mounts) && AllAbsolute(s.mounts) && Fresh(s, t)
    ensures AllPairsRight(s, t) <==> Flat(s.mounts)
  {
    if Flat(s.mounts) {
      forall p, q | Absolute(p) && Absolute(q) ensures RightPair(s, t, p, q) {
        FindKeepsInv(s, t, p);
        FindIsOwner(Find(s, t, p).0, t, q);
      }
    } else {
      var m, n :| m in s.mounts && n in s.mounts && m.point != "" && Covers(m.point, n.point) && n.point != m.point;
      NestedPointsMislead(s, t, m, n);
      assert !RightPair(s, t, m.point, n.point);
    }
  }

  // ---------------------------------------------------------------- runs

  /** Where a mount or unmount is, which holds the lock: done, or with the list changed and the version not yet. */
  datatype Half = Whole | Adding(mount: Mount) | Freeing(id: nat)

  /**
   The table; the threads whose cache has passed the test of the version, with the pointer they are about to
   follow; and those that have an answer from it and are waiting for the lock.
   */
  datatype Running = Running(table: State, half: Half, testing: map<Tid, nat>, taking: map<Tid, nat>)

  /**
   The fast path is three steps: the version is tested and the pointer followed without the lock, and the
   reference is taken under it.  A mount or unmount changes the list and then announces the new version.
   */
  datatype Step =
    | ListMount(point: string)
    | FreeMount(point: string)
    | Announce
    | Test(t: Tid)
    | Follow(t: Tid, path: string)
    | Take(t: Tid)
    | SearchList(t: Tid, path: string)
    | Put(id: nat)

  predicate Idle(r: Running, t: Tid) {
    t !in r.testing && t !in r.taking
  }

  predicate Enabled(r: Running, step: Step) {
    match step
    case ListMount(point) => r.half.Whole? && Absolute(point)
    case FreeMount(_) => r.half.Whole?
    case Announce => !r.half.Whole?
    case Test(t) => Idle(r, t)
    case Follow(t, _) => t in r.testing
    case Take(t) => r.half.Whole? && t in r.taking
    case SearchList(t, _) => r.half.Whole? && Idle(r, t)
    case Put(_) => r.half.Whole?
  }

  predicate Mounted(s: State, id: nat) {
    WithId(s.mounts, id).Some?
  }

  function Apply(r: Running, step: Step): Running
    requires Enabled(r, step)
  {
    match step
    case ListMount(point) => r.(table := Listed(r.table, point), half := Adding(Mount(r.table.next, point)))
    case FreeMount(point) =>
      (match Removable(r.table, point)
       case Some(m) => r.(table := Freed(r.table, m.id), half := Freeing(m.id))
       case None => r)
    case Announce => r.(table := Bumped(r.table), half := Whole)
    case Test(t) => if Fresh(r.table, t) then r else r.(testing := r.testing[t := r.table.caches[t].id])
    case Follow(t, path) =>
      // what a mount that is gone says is memory that has been freed; here it answers for nothing
      (match Answering(r.table, r.testing[t], path)
       case Some(m) => r.(testing := r.testing - {t}, taking := r.taking[t := m.id])
       case None => r.(testing := r.testing - {t}))
    case Take(t) =>
      // and so is its count
      r.(table := if Mounted(r.table, r.taking[t]) then Retained(r.table, r.taking[t]) else r.table, taking := r.taking - {t})
    case SearchList(t, path) => r.(table := Searched(r.table, t, path))
    case Put(id) => r.(table := Release(r.table, id))
  }

  predicate CanRun(r: Running, steps: seq<Step>)
    decreases |steps|
  {
    steps == [] || (Enabled(r, steps[0]) && CanRun(Apply(r, steps[0]), steps[1..]))
  }

  function Run(r: Running, steps: seq<Step>): Running
    requires CanRun(r, steps)
    decreases |steps|
  {
    if steps == [] then r else Run(Apply(r, steps[0]), steps[1..])
  }

  const INITIAL: State := State([], map[], 0, 0, map[])

  const START: Running := Running(INITIAL, Whole, map[], map[])

  /** No other mount at its point is newer, but for one that is just being added, and it is not that one. */
  ghost predicate NewestBut(mounts: seq<Mount>, m: Mount, half: Half) {
    half != Adding(m) && forall n :: n in mounts && n.point == m.point && half != Adding(n) ==> n.id <= m.id
  }

  /** A cache of the current version names the newest mount at its point, or the one that is just being freed. */
  ghost predicate CacheNames(r: Running, t: Tid)
    requires t in r.table.caches
  {
    var s, c := r.table, r.table.caches[t];
    && c.version <= s.version
    && (c.version == s.version && r.half != Freeing(c.id) ==>
          exists m :: m in s.mounts && m.id == c.id && NewestBut(s.mounts, m, r.half))
  }

  ghost predicate HalfOk(s: State, half: Half) {
    match half
    case Whole => true
    case Adding(n) => n in s.mounts && n.id + 1 == s.next
    case Freeing(id) => id < s.next && forall m :: m in s.mounts ==> m.id != id
  }

  ghost predicate RunInv(r: Running) {
    && Sorted(r.table.mounts)
    && (forall m :: m in r.table.mounts ==> m.id < r.table.next && Absolute(m.point))
    && HalfOk(r.table, r.half)
    && forall t {:trigger CacheNames(r, t)} :: t in r.table.caches ==> CacheNames(r, t)
  }

  /** Between the operations the table is as each of them leaves it. */
  lemma WholeIsInv(r: Running)
    requires r.half.Whole?
    ensures RunInv(r) <==> Inv(r.table) && AllAbsolute(r.table.mounts)
  {
    var s := r.table;
    if RunInv(r) {
      forall t | t in s.caches ensures CacheOk(s, t) {
        assert CacheNames(r, t);
        if s.caches[t].version == s.version {
          var m :| m in s.mounts && m.id == s.caches[t].id && NewestBut(s.mounts, m, r.half);
          assert Newest(s.mounts, m);
        }
      }
    } else if Inv(s) && AllAbsolute(s.mounts) {
      forall t | t in s.caches ensures CacheNames(r, t) {
        assert CacheOk(s, t);
        if s.caches[t].version == s.version {
          var m :| m in s.mounts && m.id == s.caches[t].id && Newest(s.mounts, m);
          assert NewestBut(s.mounts, m, r.half);
        }
      }
    }
  }

  lemma ListKeepsInv(r: Running, point: string)
    requires RunInv(r) && Enabled(r, ListMount(point))
    ensures RunInv(Apply(r, ListMount(point)))
  {
    var s, m := r.table, Mount(r.table.next, point);
    var r' := Apply(r, ListMount(point));
    InsertedSorted(s.mounts, m);
    forall n ensures n in r'.table.mounts <==> n in s.mounts || n == m {
      InsertedHas(s.mounts, m, n);
    }
    forall t | t in s.caches ensures CacheNames(r', t) {
      assert CacheNames(r, t);
      if s.caches[t].version == s.version {
        var was :| was in s.mounts && was.id == s.caches[t].id && NewestBut(s.mounts, was, r.half);
        assert NewestBut(r'.table.mounts, was, r'.half);
      }
    }
  }

  lemma FreeKeepsInv(r: Running, point: string)
    requires RunInv(r) && Enabled(r, FreeMount(point))
    ensures RunInv(Apply(r, FreeMount(point)))
  {
    var s, r' := r.table, Apply(r, FreeMount(point));
    AtFinds(s.mounts, point);
    if Removable(s, point).Some? {
      var gone := Removable(s, point).value;
      WithoutSorted(s.mounts, gone);
      SameIdIsSame(s.mounts, gone);
      forall n ensures n in r'.table.mounts <==> n in s.mounts && n != gone {
        WithoutHas(s.mounts, gone, n);
      }
      forall t | t in s.caches ensures CacheNames(r', t) {
        assert CacheNames(r, t);
        if s.caches[t].version == s.version && s.caches[t].id != gone.id {
          var m :| m in s.mounts && m.id == s.caches[t].id && NewestBut(s.mounts, m, r.half);
          assert NewestBut(r'.table.mounts, m, r'.half);
        }
      }
    }
  }

  lemma AnnounceKeepsInv(r: Running)
    requires RunInv(r) && Enabled(r, Announce)
    ensures RunInv(Apply(r, Announce))
  {
    forall t | t in r.table.caches ensures CacheNames(Apply(r, Announce), t) {
      assert CacheNames(r, t);
    }
  }

  lemma StepKeepsInv(r: Running, step: Step)
    requires RunInv(r) && Enabled(r, step)
    ensures RunInv(Apply(r, step))
  {
    var s, r' := r.table, Apply(r, step);
    match step
    case ListMount(point) => ListKeepsInv(r, point);
    case FreeMount(point) => FreeKeepsInv(r, point);
    case Announce => AnnounceKeepsInv(r);
    case Test(t) => SameTableKeepsInv(r, r');
    case Follow(t, path) => SameTableKeepsInv(r, r');
    case Take(t) =>
      WholeIsInv(r);
      RetainedKeepsInv(s, r.taking[t]);
      WholeIsInv(r');
    case SearchList(t, path) =>
      WholeIsInv(r);
      SearchedKeepsInv(s, t, path);
      WholeIsInv(r');
    case Put(id) =>
      WholeIsInv(r);
      ReleaseKeepsInv(s, id);
      WholeIsInv(r');
  }

  lemma SameTableKeepsInv(r: Running, r': Running)
    requires RunInv(r) && r'.table == r.table && r'.half == r.half
    ensures RunInv(r')
  {
    forall t | t in r.table.caches ensures CacheNames(r', t) {
      assert CacheNames(r, t);
    }
  }

  lemma {:induction false} RunKeepsInv(r: Running, steps: seq<Step>)
    requires RunInv(r) && CanRun(r, steps)
    ensures RunInv(Run(r, steps))
    decreases |steps|
  {
    if steps != [] {
      StepKeepsInv(r, steps[0]);
      RunKeepsInv(Apply(r, steps[0]), steps[1..]);
    }
  }

  // ---------------------------------------------------------------- what is answered during a run

  /**
   In every state of a run, an answer of the cache is right exactly if no longer point covers the path and no mount
   at its point is just being added.
   */
  lemma AnswerIsOwnerIff(r: Running, t: Tid, path: string)
    requires RunInv(r) && Hit(r.table, t, path).Some?
    ensures var m := Hit(r.table, t, path).value;
            Owns(r.table.mounts, m, path)
            <==> !Shadowed(r.table.mounts, m, path) && !(r.half.Adding? && r.half.mount.point == m.point)
  {
    var s := r.table;
    assert CacheNames(r, t);
    var m := Hit(s, t, path).value;
    WithIdIsMember(s.mounts, s.caches[t].id);
    SameIdIsSame(s.mounts, m);
    assert NewestBut(s.mounts, m, r.half);
    if !Shadowed(s.mounts, m, path) && !(r.half.Adding? && r.half.mount.point == m.point) {
      forall n | n in s.mounts && Covers(n.point, path) && n != m
        ensures |n.point| < |m.point| || (n.point == m.point && n.id < m.id)
      {
        SamePoint(n.point, m.point, path);
        SameIdIsSame(s.mounts, n);
      }
    } else if r.half.Adding? && r.half.mount.point == m.point {
      NewIsNotCached(r, t, m);
    }
  }

  lemma NewIsNotCached(r: Running, t: Tid, m: Mount)
    requires RunInv(r) && r.half.Adding? && m in r.table.mounts && !Fresh(r.table, t) && m.id == r.table.caches[t].id
    ensures m != r.half.mount
  {
    assert CacheNames(r, t);
  }

  /**
   After any run, whatever is half-way: an answer of the cache is the owner of the path exactly unless the path is
   shadowed or a mount at the same point is being added; and the search, when the lock is free for it, finds the owner.
   */
  lemma LookupAfterRun(steps: seq<Step>, t: Tid, path: string)
    requires CanRun(START, steps)
    ensures var r := Run(START, steps); var s := r.table;
            match Hit(s, t, path)
            case Some(m) => Owns(s.mounts, m, path)
                            <==> !Shadowed(s.mounts, m, path) && !(r.half.Adding? && r.half.mount.point == m.point)
            case None => HasRoot(s.mounts) && Absolute(path) ==>
                           Search(s.mounts, path).Some? && Owns(s.mounts, Search(s.mounts, path).value, path)
  {
    RunKeepsInv(START, steps);
    var r := Run(START, steps);
    var s := r.table;
    if Hit(s, t, path).Some? {
      AnswerIsOwnerIff(r, t, path);
    } else if HasRoot(s.mounts) && Absolute(path) {
      SearchFindsOwner(s.mounts, path);
      var root :| root in s.mounts && root.point == "";
      assert Covers(root.point, path);
    }
  }

  /** After any run, with the lock free: all pairs of lookups of a thread with a stale cache are right exactly if no points are nested. */
  lemma PairsAfterRunIff(steps: seq<Step>, t: Tid)
    requires CanRun(START, steps) && Run(START, steps).half.Whole?
    requires HasRoot(Run(START, steps).table.mounts) && Fresh(Run(START, steps).table, t)
    ensures AllPairsRight(Run(START, steps).table, t) <==> Flat(Run(START, steps).table.mounts)
  {
    RunKeepsInv(START, steps);
    WholeIsInv(Run(START, steps));
    AllPairsRightIff(Run(START, steps).table, t);
  }

  // ---------------------------------------------------------------- the pointer that is followed

  /** After any run, the pointer in a cache of the current version leads to a mount exactly unless that mount is just being freed. */
  lemma CachedIsMountedIff(steps: seq<Step>, t: Tid)
    requires CanRun(START, steps)
    ensures var r := Run(START, steps);
            !Fresh(r.table, t) ==> (Mounted(r.table, r.table.caches[t].id) <==> r.half != Freeing(r.table.caches[t].id))
  {
    RunKeepsInv(START, steps);
    if !Fresh(Run(START, steps).table, t) {
      TestedIsMountedIff(Run(START, steps), t);
    }
  }

  lemma TestedIsMountedIff(r: Running, t: Tid)
    requires RunInv(r) && !Fresh(r.table, t)
    ensures r.table.caches[t].id < r.table.next
    ensures Mounted(r.table, r.table.caches[t].id) <==> r.half != Freeing(r.table.caches[t].id)
  {
    MountedIs(r.table, r.table.caches[t].id);
    assert CacheNames(r, t);
  }

  /** The step frees this mount. */
  predicate Frees(r: Running, step: Step, id: nat) {
    step.FreeMount? && Removable(r.table, step.point).Some? && Removable(r.table, step.point).value.id == id
  }

  predicate FreedDuring(r: Running, steps: seq<Step>, id: nat)
    requires CanRun(r, steps)
    decreases |steps|
  {
    steps != [] && (Frees(r, steps[0], id) || FreedDuring(Apply(r, steps[0]), steps[1..], id))
  }

  lemma {:induction false} WithIdIsMember(mounts: seq<Mount>, id: nat)
    ensures match WithId(mounts, id)
            case Some(m) => m in mounts && m.id == id
            case None => forall m :: m in mounts ==> m.id != id
  {
    if mounts != [] {
      WithIdIsMember(mounts[1..], id);
      assert mounts == [mounts[0]] + mounts[1..];
    }
  }

  lemma MountedIs(s: State, id: nat)
    ensures Mounted(s, id) <==> exists m :: m in s.mounts && m.id == id
  {
    WithIdIsMember(s.mounts, id);
  }

  /** One step: a mount stays unless the step frees it, and one that is gone does not come back. */
  lemma StepKeepsMounted(r: Running, step: Step, id: nat)
    requires RunInv(r) && Enabled(r, step) && id < r.table.next
    ensures id < Apply(r, step).table.next
    ensures Mounted(Apply(r, step).table, id) <==> Mounted(r.table, id) && !Frees(r, step, id)
  {
    var s, s' := r.table, Apply(r, step).table;
    MountedIs(s, id);
    MountedIs(s', id);
    match step
    case ListMount(point) =>
      forall m ensures m in s'.mounts <==> m in s.mounts || m == Mount(s.next, point) {
        InsertedHas(s.mounts, Mount(s.next, point), m);
      }
    case FreeMount(point) =>
      AtFinds(s.mounts, point);
      if Removable(s, point).Some? {
        var gone := Removable(s, point).value;
        forall m ensures m in s'.mounts <==> m in s.mounts && m != gone {
          WithoutHas(s.mounts, gone, m);
        }
        SameIdIsSame(s.mounts, gone);
      }
    case _ =>
  }

  lemma SameIdIsSame(mounts: seq<Mount>, m: Mount)
    requires Sorted(mounts) && m in mounts
    ensures forall n :: n in mounts && n.id == m.id ==> n == m
  {
    forall n | n in mounts && n.id == m.id ensures n == m {
      WithIdFinds(mounts, n);
      WithIdFinds(mounts, m);
    }
  }

  lemma {:induction false} RunKeepsMounted(r: Running, steps: seq<Step>, id: nat)
    requires RunInv(r) && CanRun(r, steps) && id < r.table.next
    ensures Mounted(Run(r, steps).table, id) <==> Mounted(r.table, id) && !FreedDuring(r, steps, id)
    decreases |steps|
  {
    if steps != [] {
      StepKeepsInv(r, steps[0]);
      StepKeepsMounted(r, steps[0], id);
      RunKeepsMounted(Apply(r, steps[0]), steps[1..], id);
      if Frees(r, steps[0], id) {
        NeverBack(Apply(r, steps[0]), steps[1..], id);
      }
    }
  }

  /** What is not mounted is not freed. */
  lemma {:induction false} NeverBack(r: Running, steps: seq<Step>, id: nat)
    requires RunInv(r) && CanRun(r, steps) && id < r.table.next && !Mounted(r.table, id)
    ensures !FreedDuring(r, steps, id)
    decreases |steps|
  {
    if steps != [] {
      MountedIs(r.table, id);
      if steps[0].FreeMount? {
        AtFinds(r.table.mounts, steps[0].point);
      }
      StepKeepsInv(r, steps[0]);
      StepKeepsMounted(r, steps[0], id);
      NeverBack(Apply(r, steps[0]), steps[1..], id);
    }
  }

  predicate NoFollow(steps: seq<Step>, t: Tid) {
    forall step :: step in steps && step.Follow? ==> step.t != t
  }

  lemma {:induction false} RunKeepsTesting(r: Running, steps: seq<Step>, t: Tid)
    requires CanRun(r, steps) && t in r.testing && NoFollow(steps, t)
    ensures t in Run(r, steps).testing && Run(r, steps).testing[t] == r.testing[t]
    decreases |steps|
  {
    if steps != [] {
      assert steps[0] in steps;
      RunKeepsTesting(Apply(r, steps[0]), steps[1..], t);
    }
  }

  lemma {:induction false} RunKeepsTaking(r: Running, steps: seq<Step>, t: Tid)
    requires CanRun(r, steps) && t in r.taking && t !in r.testing && Take(t) !in steps
    ensures t in Run(r, steps).taking && Run(r, steps).taking[t] == r.taking[t]
    decreases |steps|
  {
    if steps != [] {
      assert steps[0] != Take(t);
      RunKeepsTaking(Apply(r, steps[0]), steps[1..], t);
    }
  }

  /**
   Whatever happens between the test of the version and the use of the pointer: it leads to a mount exactly if
   the mount was not already being freed at the test, and was not freed since.
   */
  lemma FollowedIsMountedIff(r: Running, t: Tid, steps: seq<Step>)
    requires RunInv(r) && Idle(r, t) && !Fresh(r.table, t)
    requires CanRun(Apply(r, Test(t)), steps) && NoFollow(steps, t)
    ensures var r1 := Apply(r, Test(t)); var r2 := Run(r1, steps); var id := r.table.caches[t].id;
            && t in r2.testing && r2.testing[t] == id
            && (Mounted(r2.table, id) <==> r.half != Freeing(id) && !FreedDuring(r1, steps, id))
  {
    var r1, id := Apply(r, Test(t)), r.table.caches[t].id;
    TestedIsMountedIff(r, t);
    StepKeepsInv(r, Test(t));
    RunKeepsTesting(r1, steps, t);
    RunKeepsMounted(r1, steps, id);
  }

  /** Whatever happens between the answer and the reference: the mount taken is still there exactly if it was not freed. */
  lemma TakenIsMountedIff(r: Running, t: Tid, path: string, steps: seq<Step>)
    requires RunInv(r) && t in r.testing && Answering(r.table, r.testing[t], path).Some?
    requires CanRun(Apply(r, Follow(t, path)), steps) && Take(t) !in steps
    ensures var r1 := Apply(r, Follow(t, path)); var r2 := Run(r1, steps); var id := r.testing[t];
            && t in r2.taking && r2.taking[t] == id
            && (Mounted(r2.table, id) <==> !FreedDuring(r1, steps, id))
  {
    var r1, id := Apply(r, Follow(t, path)), r.testing[t];
    WithIdIsMember(r.table.mounts, id);
    StepKeepsInv(r, Follow(t, path));
    RunKeepsTaking(r1, steps, t);
    RunKeepsMounted(r1, steps, id);
  }

  /** A lookup with nothing between its three steps is a whole lookup. */
  lemma FastPathIsFind(r: Running, t: Tid, path: string)
    requires RunInv(r) && r.half.Whole? && Idle(r, t) && Hit(r.table, t, path).Some?
    ensures var r1 := Apply(r, Test(t));
            && Enabled(r1, Follow(t, path))
            && var r2 := Apply(r1, Follow(t, path));
               && Enabled(r2, Take(t)) && Apply(r2, Take(t)) == r.(table := Find(r.table, t, path).0)
  {
    var m := Hit(r.table, t, path).value;
    WithIdIsMember(r.table.mounts, r.table.caches[t].id);
    var r1 := Apply(r, Test(t));
    var r2 := Apply(r1, Follow(t, path));
    assert r1.testing - {t} == r.testing && r2.taking - {t} == r.taking;
  }

  // ---------------------------------------------------------------- how it goes wrong

  /** A thread whose cache would answer for the mount, which nobody holds, while no mount or unmount is under way. */
  ghost predicate Waiting(r: Running, t: Tid, m: Mount) {
    && RunInv(r) && r.half.Whole? && Idle(r, t) && !Fresh(r.table, t)
    && m.point != "" && m in r.table.mounts && r.table.caches[t].id == m.id && Count(r.table.refs, m.id) == 0
  }

  lemma WaitingIsRemovable(r: Running, t: Tid, m: Mount)
    requires Waiting(r, t, m)
    ensures Removable(r.table, m.point) == Some(m) && WithId(r.table.mounts, m.id) == Some(m)
    ensures Mounted(r.table, m.id) && !Mounted(Freed(r.table, m.id), m.id)
  {
    assert CacheNames(r, t);
    SameIdIsSame(r.table.mounts, m);
    assert Newest(r.table.mounts, m);
    AtNewest(r.table.mounts, m);
    WithIdFinds(r.table.mounts, m);
    StepKeepsMounted(r, FreeMount(m.point), m.id);
  }

  /** The mount is freed and the version not yet announced: the test passes, and the pointer leads to freed memory. */
  lemma FreedBeforeTest(r: Running, t: Tid, m: Mount)
    requires Waiting(r, t, m)
    ensures var r1 := Apply(r, FreeMount(m.point));
            && Enabled(r1, Test(t))
            && var r2 := Apply(r1, Test(t));
               t in r2.testing && r2.testing[t] == m.id && !Mounted(r2.table, m.id)
  {
    WaitingIsRemovable(r, t, m);
  }

  /** The mount is freed between the test and the use of the pointer: even an announcement comes too late. */
  lemma FreedBeforeFollow(r: Running, t: Tid, m: Mount)
    requires Waiting(r, t, m)
    ensures var r1 := Apply(r, Test(t));
            && Enabled(r1, FreeMount(m.point))
            && var r2 := Apply(r1, FreeMount(m.point));
               && Enabled(r2, Announce)
               && var r3 := Apply(r2, Announce);
                  t in r3.testing && r3.testing[t] == m.id && !Mounted(r3.table, m.id)
  {
    WaitingIsRemovable(r, t, m);
  }

  /** The mount is freed between the answer and the reference: the reference is counted in freed memory. */
  lemma FreedBeforeTake(r: Running, t: Tid, m: Mount)
    requires Waiting(r, t, m)
    ensures var r1 := Apply(r, Test(t));
            && Enabled(r1, Follow(t, m.point))
            && var r2 := Apply(r1, Follow(t, m.point));
               && Enabled(r2, FreeMount(m.point))
               && var r3 := Apply(r2, FreeMount(m.point));
                  t in r3.taking && r3.taking[t] == m.id && !Mounted(r3.table, m.id)
  {
    WaitingIsRemovable(r, t, m);
    assert Covers(m.point, m.point);
  }

  /** Such a state after a run: a thread has looked below a mount and given it back. */
  lemma WaitingHappens(t: Tid)
    ensures var steps := [ListMount(""), Announce, ListMount("/a"), Announce, SearchList(t, "/a"), Put(1)];
            CanRun(START, steps) && Waiting(Run(START, steps), t, Mount(1, "/a"))
  {
    var r1 := Apply(START, ListMount(""));
    var r2 := Apply(r1, Announce);
    var r3 := Apply(r2, ListMount("/a"));
    var r4 := Apply(r3, Announce);
    var used := [SearchList(t, "/a"), Put(1)];
    UsedAndGivenBack(r4, t);
    RunCons(r3, Announce, used);
    RunCons(r2, ListMount("/a"), [Announce] + used);
    RunCons(r1, Announce, [ListMount("/a")] + ([Announce] + used));
    RunCons(START, ListMount(""), [Announce] + ([ListMount("/a")] + ([Announce] + used)));
    var steps := [ListMount(""), Announce, ListMount("/a"), Announce, SearchList(t, "/a"), Put(1)];
    assert steps == [ListMount("")] + ([Announce] + ([ListMount("/a")] + ([Announce] + used)));
    RunKeepsInv(START, steps);
  }

  lemma UsedAndGivenBack(r: Running, t: Tid)
    requires r.table.mounts == [Mount(1, "/a"), Mount(0, "")] && r.half.Whole? && Idle(r, t) && Count(r.table.refs, 1) == 0
    ensures var steps := [SearchList(t, "/a"), Put(1)];
            && CanRun(r, steps)
            && var r2 := Run(r, steps);
               && r2.half.Whole? && Idle(r2, t) && r2.table.mounts == r.table.mounts
               && !Fresh(r2.table, t) && r2.table.caches[t].id == 1 && Count(r2.table.refs, 1) == 0
  {
    assert "/a"[..2] == "/a";
    assert Search(r.table.mounts, "/a") == Some(Mount(1, "/a"));
    var r1 := Apply(r, SearchList(t, "/a"));
    RunCons(r1, Put(1), []);
    RunCons(r, SearchList(t, "/a"), [Put(1)]);
    assert [Put(1)] + [] == [Put(1)] && [SearchList(t, "/a")] + [Put(1)] == [SearchList(t, "/a"), Put(1)];
  }

  lemma RunCons(r: Running, step: Step, rest: seq<Step>)
    requires Enabled(r, step) && CanRun(Apply(r, step), rest)
    ensures CanRun(r, [step] + rest) && Run(r, [step] + rest) == Run(Apply(r, step), rest)
  {
    assert ([step] + rest)[1..] == rest;
  }

  /** A mount over another one, not yet announced: the cache still answers with the one below. */
  lemma AddedButNotAnnounced(r: Running, t: Tid, m: Mount)
    requires Waiting(r, t, m) && Absolute(m.point)
    ensures var r1 := Apply(r, ListMount(m.point));
            Hit(r1.table, t, m.point) == Some(m) && !Owns(r1.table.mounts, m, m.point)
  {
    var r1, n := Apply(r, ListMount(m.point)), Mount(r.table.next, m.point);
    StepKeepsInv(r, ListMount(m.point));
    InsertedHas(r.table.mounts, n, m);
    InsertedHas(r.table.mounts, n, n);
    WithIdFinds(r1.table.mounts, m);
    assert Covers(m.point, m.point);
  }

  /** Two nested points and a thread that has looked nothing up: an instance of `NestedPointsMislead`. */
  lemma NestedPointsMisleadHere(t: Tid)
    ensures var s := DoMount(DoMount(DoMount(INITIAL, ""), "/a"), "/a/b");
            var found := Find(Find(s, t, "/a").0, t, "/a/b").1;
            found.Some? && found.value.point == "/a" && !Owns(s.mounts, found.value, "/a/b")
  {
    var s1 := DoMount(INITIAL, "");
    var s2 := DoMount(s1, "/a");
    var s3 := DoMount(s2, "/a/b");
    MountKeepsInv(INITIAL, "");
    MountKeepsInv(s1, "/a");
    MountKeepsInv(s2, "/a/b");
    assert s3.mounts == [Mount(2, "/a/b"), Mount(1, "/a"), Mount(0, "")];
    assert "/a/b"[..2] == "/a";
    NestedPointsMislead(s3, t, Mount(1, "/a"), Mount(2, "/a/b"));
  }

  lemma {:induction false} AtNewest(mounts: seq<Mount>, m: Mount)
    requires Sorted(mounts) && m in mounts && Newest(mounts, m)
    ensures At(mounts, m.point) == Some(m)
  {
    if mounts[0] == m {
    } else {
      TailHas(mounts, m);
      var i :| 0 <= i < |mounts| && mounts[i] == m;
      assert Ahead(mounts[0], mounts[i]);
      forall n | n in mounts[1..] ensures n in mounts {
        TailHas(mounts, n);
      }
      AtNewest(mounts[1..], m);
    }
  }

  // ---------------------------------------------------------------- the table

  class Mounts {
    var mounts: seq<Mount>
    var refs: map<nat, nat>
    var version: nat
    var next: nat
    var caches: map<Tid, Cached>

    ghost function View(): State
      reads this
    {
      State(mounts, refs, version, next, caches)
    }

    constructor ()
      ensures View() == INITIAL && Inv(View())
    {
      mounts, refs, version, next, caches := [], map[], 0, 0, map[];
    }

    method MountAtPoint(point: string)
      requires Inv(View())
      modifies this
      ensures View() == DoMount(old(View()), point) && Inv(View())
    {
      MountKeepsInv(View(), point);
      var m := Mount(next, point);
      var i := 0;
      while i < |mounts| && |mounts[i].point| > |point|
        invariant 0 <= i <= |mounts| && forall k :: 0 <= k < i ==> |mounts[k].point| > |point|
      {
        i := i + 1;
      }
      InsertedAt(mounts, m, i);
      mounts := mounts[..i] + ([m] + mounts[i..]);
      refs := refs[next := 0];
      version, next := version + 1, next + 1;
    }

    method UmountPoint(point: string) returns (err: int)
      requires Inv(View())
      modifies this
      ensures View() == DoUmount(old(View()), point).0 && err == DoUmount(old(View()), point).1 && Inv(View())
    {
      UmountKeepsInv(View(), point);
      var i := 0;
      while i < |mounts| && mounts[i].point != point
        invariant 0 <= i <= |mounts|
        invariant At(mounts, point) == At(mounts[i..], point)
      {
        assert mounts[i..][1..] == mounts[i + 1..];
        i := i + 1;
      }
      if i == |mounts| {
        return EINVAL;
      }
      if Count(refs, mounts[i].id) != 0 {
        return EBUSY;
      }
      WithoutAt(mounts, i);
      refs := refs - {mounts[i].id};
      mounts := mounts[..i] + mounts[i + 1..];
      version := version + 1;
      return 0;
    }

    method CacheCheck(t: Tid, path: string) returns (cached: Option<Mount>)
      requires Inv(View())
      ensures cached == Hit(View(), t, path)
    {
      if t !in caches || caches[t].version != version {
        return None;
      }
      assert CacheOk(View(), t);
      ghost var g :| g in mounts && g.id == caches[t].id && Newest(mounts, g);
      WithIdFinds(mounts, g);
      var m := WithId(mounts, caches[t].id).value;
      if |m.point| == 0 {
        return None;
      }
      if Covers(m.point, path) {
        return Some(m);
      }
      return None;
    }

    method SlowSearch(path: string) returns (m: Mount)
      requires Sorted(mounts) && HasRoot(mounts) && Absolute(path)
      ensures Search(mounts, path) == Some(m)
    {
      RootCovers(mounts, path);
      var i := 0;
      while !Covers(mounts[i].point, path)
        invariant 0 <= i < |mounts|
        invariant Search(mounts, path) == Search(mounts[i..], path) && Search(mounts, path).Some?
        decreases |mounts| - i
      {
        assert mounts[i..][1..] == mounts[i + 1..];
        i := i + 1;
      }
      m := mounts[i];
    }

    method FindMount(t: Tid, path: string) returns (m: Mount)
      requires Inv(View()) && HasRoot(mounts) && Absolute(path)
      modifies this
      ensures View() == Find(old(View()), t, path).0 && Some(m) == Find(old(View()), t, path).1
      ensures Inv(View())
    {
      FindKeepsInv(View(), t, path);
      var cached := CacheCheck(t, path);
      if cached.Some? {
        m := cached.value;
        refs := refs[m.id := Count(refs, m.id) + 1];
        return;
      }
      m := SlowSearch(path);
      refs := refs[m.id := Count(refs, m.id) + 1];
      caches := caches[t := Cached(m.id, version)];
    }

    /** Whether a path is a mount point or has one below it. */
    method ContainsMountPoint(path: string) returns (found: bool)
      ensures found <==> exists m :: m in mounts && Covers(path, m.point)
    {
      var i := 0;
      while i < |mounts|
        invariant 0 <= i <= |mounts| && forall k :: 0 <= k < i ==> !Covers(path, mounts[k].point)
      {
        if Covers(path, mounts[i].point) {
          return true;
        }
        i := i + 1;
      }
      return false;
    }
  }

  lemma RootCovers(mounts: seq<Mount>, path: string)
    requires Sorted(mounts) && HasRoot(mounts) && Absolute(path)
    ensures Search(mounts, path).Some?
  {
    SearchFindsOwner(mounts, path);
    var root :| root in mounts && root.point == "";
    assert Covers(root.point, path);
  }

  lemma {:induction false} InsertedAt(mounts: seq<Mount>, m: Mount, i: nat)
    requires i <= |mounts| && (i < |mounts| ==> |mounts[i].point| <= |m.point|)
    requires forall k :: 0 <= k < i ==> |mounts[k].point| > |m.point|
    ensures Inserted(mounts, m) == mounts[..i] + ([m] + mounts[i..])
  {
    if i == 0 {
      assert mounts[0..] == mounts;
    } else {
      InsertedAt(mounts[1..], m, i - 1);
      assert [mounts[0]] + (mounts[1..][..i - 1] + ([m] + mounts[1..][i - 1..])) == mounts[..i] + ([m] + mounts[i..]);
    }
  }

  lemma {:induction false} WithoutAt(mounts: seq<Mount>, i: nat)
    requires Sorted(mounts) && i < |mounts|
    ensures Without(mounts, mounts[i].id) == mounts[..i] + mounts[i + 1..]
  {
    if i > 0 {
      assert Ahead(mounts[0], mounts[i]);
      WithoutAt(mounts[1..], i - 1);
      assert [mounts[0]] + (mounts[1..][..i - 1] + mounts[1..][i..]) == mounts[..i] + mounts[i + 1..];
    }
  }

  /** Moves the text behind `from` to the front. */
  method MoveUp(path: array<char>, n: nat, from: nat) returns (rest: nat)
    requires from <= n <= path.Length
    modifies path
    ensures rest <= path.Length && path[..rest] == old(path[..n])[from..]
  {
    ghost var was := path[..n];
    var dst, src := 0, from;
    while src < n
      invariant from <= src <= n && dst == src - from
      invariant forall k :: 0 <= k < dst ==> path[k] == was[from + k]
      invariant forall k :: src <= k < n ==> path[k] == was[k]
    {
      path[dst] := path[src];
      dst, src := dst + 1, src + 1;
    }
    rest := dst;
    assert path[..rest] == was[from..];
  }

  lemma PointAndRest(point: string, path: string)
    requires Covers(point, path)
    ensures point + path[|point|..] == path && Absolute(path[|point|..])
  {
    assert path == path[..|point|] + path[|point|..];
  }

  /** Cutting the mount point off a path, in place: point and rest make the path again. */
  method TrimPath(path: array<char>, n: nat, m: Mount) returns (rest: nat)
    requires n <= path.Length && Covers(m.point, path[..n])
    modifies path
    ensures rest <= path.Length && m.point + path[..rest] == old(path[..n])
    ensures Absolute(path[..rest])
  {
    PointAndRest(m.point, path[..n]);
    rest := MoveUp(path, n, |m.point|);
  }
}
