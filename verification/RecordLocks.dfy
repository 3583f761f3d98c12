/**
 POSIX advisory record locks of one inode (fs/lock.c).

 The kernel keeps one list of locks per inode, grouped by owner, and edits it in a single pass in which
 locks are merged, cut, split and deleted while the request itself grows.  What the list stands for is a
 map from (owner, offset) to a lock type; `TypeAt` reads that map off the list.  The main results say that
 the pass sets exactly the requested range for the requesting owner (`AcquireMeaning`), keeps the list
 canonical (`AcquireKeepsValid`), and that every run of requests, refusals included, agrees with a plain
 map that knows nothing about lists (`RunRefinesMap`).
 */
module RecordLocks {
  import opened Common

  datatype LockType = Read | Write | Unlocked

  datatype FileLock = FileLock(start: int, end: int, kind: LockType, pid: int, owner: nat)

  // ---------------------------------------------------------------- predicates of fs/lock.c

  predicate Overlap(a: FileLock, b: FileLock) {
    a.end >= b.start && b.end >= a.start
  }

  predicate Conflict(a: FileLock, b: FileLock) {
    && a.owner != b.owner
    && Overlap(a, b)
    && (a.kind == Write || b.kind == Write)
  }

  predicate Adjacent(a: FileLock, b: FileLock) {
    a.end == b.start - 1 || b.end == a.start - 1
  }

  predicate Covers(l: FileLock, x: int) {
    l.start <= x <= l.end
  }

  // ---------------------------------------------------------------- what a list means, and when it is canonical

  /** The type `o` holds at offset `x`; `Unlocked` when it holds nothing there. */
  function TypeAt(locks: seq<FileLock>, o: nat, x: int): LockType {
    if locks == [] then Unlocked
    else if locks[0].owner == o && Covers(locks[0], x) then locks[0].kind
    else TypeAt(locks[1..], o, x)
  }

  predicate WellFormed(l: FileLock) {
    l.start <= l.end && l.kind != Unlocked
  }

  /** Two locks may sit in one list: no conflict, and for one owner disjoint and already merged. */
  predicate Compatible(a: FileLock, b: FileLock) {
    && !Conflict(a, b)
    && (a.owner == b.owner ==> !Overlap(a, b))
    && (a.owner == b.owner && a.kind == b.kind ==> !Adjacent(a, b))
  }

  ghost predicate AllCompatible(locks: seq<FileLock>) {
    forall i, j :: 0 <= i < j < |locks| ==> Compatible(locks[i], locks[j])
  }

  ghost predicate CompatibleWithAll(q: FileLock, locks: seq<FileLock>) {
    forall i :: 0 <= i < |locks| ==> Compatible(q, locks[i])
  }

  ghost predicate AllWellFormed(locks: seq<FileLock>) {
    forall i :: 0 <= i < |locks| ==> WellFormed(locks[i])
  }

  ghost predicate AllOwnedBy(locks: seq<FileLock>, o: nat) {
    forall i :: 0 <= i < |locks| ==> locks[i].owner == o
  }

  ghost predicate NoneOwnedBy(locks: seq<FileLock>, o: nat) {
    forall i :: 0 <= i < |locks| ==> locks[i].owner != o
  }

  /** The lock at `j` belongs to the owner found on both sides of it, if there is one. */
  predicate Between(locks: seq<FileLock>, i: nat, j: nat, k: nat)
    requires i < j < k < |locks|
  {
    locks[i].owner == locks[k].owner ==> locks[j].owner == locks[i].owner
  }

  /** All locks of one owner are next to each other. */
  ghost predicate Grouped(locks: seq<FileLock>) {
    forall i: nat, j: nat, k: nat :: i < j < k < |locks| ==> Between(locks, i, j, k)
  }

  ghost predicate Valid(locks: seq<FileLock>) {
    AllWellFormed(locks) && AllCompatible(locks) && Grouped(locks)
  }

  // ---------------------------------------------------------------- the pass, as a function

  /** What one lock of the requesting owner turns into, and what the request grows to. */
  function Edit(lock: FileLock, r: FileLock): (res: (seq<FileLock>, FileLock)) {
    if r.kind == lock.kind then
      if !Overlap(lock, r) && !Adjacent(r, lock) then ([lock], r)
      else ([], r.(start := if lock.start < r.start then lock.start else r.start,
                   end := if lock.end > r.end then lock.end else r.end))
    else if !Overlap(lock, r) then ([lock], r)
    else if r.start > lock.start && r.end < lock.end then
      ([lock.(end := r.start - 1), lock.(start := r.end + 1)], r)
    else if r.start <= lock.start && r.end >= lock.end then ([], r)
    else if lock.start < r.start then ([lock.(end := r.start - 1)], r)
    else ([lock.(start := r.end + 1)], r)
  }

  /** The pass over the locks of the requesting owner. */
  function Sweep(mine: seq<FileLock>, r: FileLock): (res: (seq<FileLock>, FileLock)) {
    if mine == [] then ([], r)
    else
      var (pieces, grown) := Edit(mine[0], r);
      var (rest, final) := Sweep(mine[1..], grown);
      (pieces + rest, final)
  }

  /** Index of the first lock of `o`, or the length. */
  function GroupStart(locks: seq<FileLock>, o: nat): (n: nat)
    ensures n <= |locks|
    ensures NoneOwnedBy(locks[..n], o)
    ensures n < |locks| ==> locks[n].owner == o
  {
    if locks == [] || locks[0].owner == o then 0
    else
      var n := GroupStart(locks[1..], o);
      assert locks[..n + 1] == [locks[0]] + locks[1..][..n];
      n + 1
  }

  /** Length of the run of locks of `o` at the front. */
  function GroupLength(locks: seq<FileLock>, o: nat): (n: nat)
    ensures n <= |locks|
    ensures AllOwnedBy(locks[..n], o)
    ensures n < |locks| ==> locks[n].owner != o
  {
    if locks == [] || locks[0].owner != o then 0
    else
      var n := GroupLength(locks[1..], o);
      assert locks[..n + 1] == [locks[0]] + locks[1..][..n];
      n + 1
  }

  /** What the locks of the requesting owner turn into: the edited ones, then the grown request. */
  function Replaced(mine: seq<FileLock>, r: FileLock): seq<FileLock> {
    var (kept, grown) := Sweep(mine, r);
    kept + if r.kind == Unlocked then [] else [grown]
  }

  /** The list after a request that was not refused. */
  function Placed(locks: seq<FileLock>, r: FileLock): seq<FileLock> {
    var n := GroupStart(locks, r.owner);
    var m := GroupLength(locks[n..], r.owner);
    locks[..n] + (Replaced(locks[n..n + m], r) + locks[n + m..])
  }

  /** The request is refused: some lock of another owner is in the way. */
  predicate Refused(locks: seq<FileLock>, r: FileLock) {
    r.kind != Unlocked && exists i :: 0 <= i < |locks| && Conflict(locks[i], r)
  }

  /** The request cuts a lock of another type; it grows on the way as it does in the sweep. */
  predicate Cuts(mine: seq<FileLock>, r: FileLock) {
    mine != [] && ((mine[0].kind != r.kind && Overlap(mine[0], r)) || Cuts(mine[1..], Edit(mine[0], r).1))
  }

  /** The request wakes the threads that wait for a lock. */
  predicate Wakes(locks: seq<FileLock>, r: FileLock) {
    !Refused(locks, r) && CutsGroup(locks, r)
  }

  predicate CutsGroup(locks: seq<FileLock>, r: FileLock) {
    var n := GroupStart(locks, r.owner);
    var m := GroupLength(locks[n..], r.owner);
    Cuts(locks[n..n + m], r)
  }

  function Acquired(locks: seq<FileLock>, r: FileLock): seq<FileLock> {
    if Refused(locks, r) then locks else Placed(locks, r)
  }

  function WithoutOwner(locks: seq<FileLock>, o: nat): seq<FileLock> {
    if locks == [] then []
    else (if locks[0].owner == o then [] else [locks[0]]) + WithoutOwner(locks[1..], o)
  }

  // ---------------------------------------------------------------- reading the map off a list

  lemma {:induction false} TypeAtConcat(a: seq<FileLock>, b: seq<FileLock>, o: nat, x: int)
    ensures TypeAt(a + b, o, x) == if TypeAt(a, o, x) == Unlocked then TypeAt(b, o, x) else TypeAt(a, o, x)
    requires AllWellFormed(a)
  {
    if a == [] {
      assert a + b == b;
    } else {
      assert (a + b)[1..] == a[1..] + b;
      TypeAtConcat(a[1..], b, o, x);
    }
  }

  lemma {:induction false} TypeAtForeign(a: seq<FileLock>, o: nat, x: int)
    requires NoneOwnedBy(a, o)
    ensures TypeAt(a, o, x) == Unlocked
  {
    if a != [] {
      TypeAtForeign(a[1..], o, x);
    }
  }

  /** A type is held exactly when some lock of the list says so. */
  lemma {:induction false} TypeAtWitness(a: seq<FileLock>, o: nat, x: int) returns (i: nat)
    requires TypeAt(a, o, x) != Unlocked
    ensures i < |a| && a[i].owner == o && Covers(a[i], x) && a[i].kind == TypeAt(a, o, x)
  {
    if a[0].owner == o && Covers(a[0], x) {
      i := 0;
    } else {
      var k := TypeAtWitness(a[1..], o, x);
      i := k + 1;
    }
  }

  lemma {:induction false} TypeAtMember(a: seq<FileLock>, i: nat, x: int)
    requires AllWellFormed(a) && AllCompatible(a)
    requires i < |a| && Covers(a[i], x)
    ensures TypeAt(a, a[i].owner, x) == a[i].kind
  {
    if i == 0 {
    } else {
      assert Compatible(a[0], a[i]);
      TypeAtMember(a[1..], i - 1, x);
    }
  }

  // ---------------------------------------------------------------- one edit

  lemma TypeAtOne(l: FileLock, x: int)
    ensures TypeAt([l], l.owner, x) == if Covers(l, x) then l.kind else Unlocked
  {
    assert [l][1..] == [];
  }

  /** The map seen through a pending request: its range shows its type, the rest shows the list. */
  function Through(locks: seq<FileLock>, r: FileLock, x: int): LockType {
    if Covers(r, x) then r.kind else TypeAt(locks, r.owner, x)
  }

  lemma EditMeaning(lock: FileLock, r: FileLock, x: int)
    requires WellFormed(lock) && r.start <= r.end && lock.owner == r.owner
    ensures var (pieces, grown) := Edit(lock, r);
            && Through(pieces, grown, x) == Through([lock], r, x)
            && grown.start <= grown.end && grown.owner == r.owner && grown.kind == r.kind
            && (Covers(r, x) ==> Covers(grown, x))
            && (Covers(grown, x) ==> Covers(r, x) || (Covers(lock, x) && lock.kind == r.kind))
  {
    var (pieces, grown) := Edit(lock, r);
    TypeAtOne(lock, x);
    if |pieces| == 1 {
      assert pieces == [pieces[0]];
      TypeAtOne(pieces[0], x);
    } else if |pieces| == 2 {
      TypeAtOne(pieces[0], x);
      TypeAtOne(pieces[1], x);
      assert pieces == [pieces[0]] + [pieces[1]];
      TypeAtConcat([pieces[0]], [pieces[1]], r.owner, x);
    }
  }

  /** `q` is out of the way of a request that was granted; an unlock request stops nobody. */
  predicate Clear(q: FileLock, r: FileLock) {
    Compatible(q, r) || (r.kind == Unlocked && q.owner != r.owner)
  }

  lemma EditKeepsApart(q: FileLock, lock: FileLock, r: FileLock)
    requires WellFormed(q) && WellFormed(lock) && r.start <= r.end && lock.owner == r.owner
    requires Clear(q, r) && Compatible(q, lock)
    ensures var (pieces, grown) := Edit(lock, r); CompatibleWithAll(q, pieces) && Clear(q, grown)
  {
  }

  lemma EditPieces(lock: FileLock, r: FileLock)
    requires WellFormed(lock) && r.start <= r.end && lock.owner == r.owner
    ensures var (pieces, grown) := Edit(lock, r);
            && AllWellFormed(pieces) && AllCompatible(pieces) && AllOwnedBy(pieces, r.owner)
            && forall i :: 0 <= i < |pieces| ==> Clear(pieces[i], grown)
  {
  }

  /** A piece cut from a lock fits wherever the lock fitted. */
  lemma PieceFits(lock: FileLock, r: FileLock, q: FileLock, i: nat)
    requires WellFormed(lock) && WellFormed(q) && r.start <= r.end && lock.owner == r.owner
    requires i < |Edit(lock, r).0| && Compatible(lock, q)
    ensures Compatible(Edit(lock, r).0[i], q)
  {
  }

  // ---------------------------------------------------------------- the whole sweep

  lemma {:induction false} SweepMeaning(mine: seq<FileLock>, r: FileLock, x: int)
    requires AllWellFormed(mine) && AllOwnedBy(mine, r.owner) && r.start <= r.end
    requires AllCompatible(mine)
    ensures var (kept, grown) := Sweep(mine, r);
            && Through(kept, grown, x) == Through(mine, r, x)
            && grown.start <= grown.end && grown.owner == r.owner && grown.kind == r.kind
            && (r.kind == Unlocked ==> grown == r)
            && (Covers(r, x) ==> Covers(grown, x))
            && (Covers(grown, x) ==> Covers(r, x) || TypeAt(mine, r.owner, x) == r.kind)
    decreases |mine|
  {
    if mine != [] {
      var lock, rest := mine[0], mine[1..];
      var (pieces, r1) := Edit(lock, r);
      var (kept, grown) := Sweep(rest, r1);
      EditMeaning(lock, r, x);
      EditPieces(lock, r);
      SweepMeaning(rest, r1, x);
      TypeAtConcat(pieces, kept, r.owner, x);
      assert Sweep(mine, r) == (pieces + kept, grown);
      if Covers(lock, x) && TypeAt(rest, r.owner, x) != Unlocked {
        var k := TypeAtWitness(rest, r.owner, x);
        assert false;
      }
      if Covers(grown, x) && !Covers(r1, x) {
        // the request grew over x later on, so x belongs to a later lock and no piece lies there
        assert TypeAt(rest, r.owner, x) == r.kind;
      } else if !Covers(grown, x) && TypeAt(pieces, r.owner, x) == Unlocked {
        assert TypeAt(rest, r.owner, x) == TypeAt(kept, r.owner, x);
      }
    }
  }

  lemma {:induction false} SweepKeepsApart(q: FileLock, mine: seq<FileLock>, r: FileLock)
    requires WellFormed(q) && AllWellFormed(mine) && AllOwnedBy(mine, r.owner) && r.start <= r.end
    requires Clear(q, r) && CompatibleWithAll(q, mine)
    ensures var (kept, grown) := Sweep(mine, r); CompatibleWithAll(q, kept) && Clear(q, grown)
    decreases |mine|
  {
    if mine != [] {
      var (pieces, r1) := Edit(mine[0], r);
      EditKeepsApart(q, mine[0], r);
      EditMeaning(mine[0], r, 0);
      SweepKeepsApart(q, mine[1..], r1);
    }
  }

  lemma {:induction false} SweepKeepsValid(mine: seq<FileLock>, r: FileLock)
    requires AllWellFormed(mine) && AllOwnedBy(mine, r.owner) && AllCompatible(mine) && r.start <= r.end
    ensures var (kept, grown) := Sweep(mine, r);
            && AllWellFormed(kept) && AllCompatible(kept) && AllOwnedBy(kept, r.owner)
            && forall i :: 0 <= i < |kept| ==> Clear(kept[i], grown)
    decreases |mine|
  {
    if mine != [] {
      var lock, rest := mine[0], mine[1..];
      var (pieces, r1) := Edit(lock, r);
      var (kept, grown) := Sweep(rest, r1);
      EditPieces(lock, r);
      EditMeaning(lock, r, 0);
      SweepKeepsValid(rest, r1);
      forall i | 0 <= i < |pieces|
        ensures CompatibleWithAll(pieces[i], kept) && Clear(pieces[i], grown)
      {
        forall j | 0 <= j < |rest| ensures Compatible(pieces[i], rest[j]) {
          assert Compatible(mine[0], mine[j + 1]);
          PieceFits(lock, r, rest[j], i);
        }
        SweepKeepsApart(pieces[i], rest, r1);
      }
    }
  }

  // ---------------------------------------------------------------- main results about one request

  /** Past the group of an owner there is no lock of that owner. */
  lemma GroupIsAll(locks: seq<FileLock>, o: nat, n: nat, e: nat)
    requires Grouped(locks) && n < e < |locks|
    requires locks[n].owner == o && locks[e].owner != o
    ensures NoneOwnedBy(locks[e..], o)
  {
    forall k | 0 <= k < |locks[e..]| ensures locks[e..][k].owner != o {
      assert locks[e..][k] == locks[e + k];
      assert k > 0 ==> Between(locks, n, e, e + k);
    }
  }

  /** The three stretches of a grouped list: before, of, and after the locks of one owner. */
  lemma GroupSplit(locks: seq<FileLock>, o: nat) returns (before: seq<FileLock>, mine: seq<FileLock>, after: seq<FileLock>)
    requires Grouped(locks)
    ensures var n := GroupStart(locks, o);
            var m := GroupLength(locks[n..], o);
            before == locks[..n] && mine == locks[n..n + m] && after == locks[n + m..]
    ensures locks == before + (mine + after)
    ensures NoneOwnedBy(before, o) && AllOwnedBy(mine, o) && NoneOwnedBy(after, o)
    ensures mine == [] ==> after == []
  {
    before, mine, after := SplitAtGroup(locks, o);
    var n, e := GroupStart(locks, o), |locks| - |after|;
    if after != [] {
      GroupIsAll(locks, o, n, e);
    }
  }

  lemma SplitAtGroup(locks: seq<FileLock>, o: nat) returns (before: seq<FileLock>, mine: seq<FileLock>, after: seq<FileLock>)
    ensures var n := GroupStart(locks, o);
            var m := GroupLength(locks[n..], o);
            before == locks[..n] && mine == locks[n..n + m] && after == locks[n + m..]
    ensures locks == before + (mine + after)
    ensures NoneOwnedBy(before, o) && AllOwnedBy(mine, o)
    ensures after != [] ==> mine != [] && after[0].owner != o && locks[|before|].owner == o
  {
    var n := GroupStart(locks, o);
    var m := GroupLength(locks[n..], o);
    before, mine, after := locks[..n], locks[n..n + m], locks[n + m..];
    CutTwice(locks, n, m);
  }

  lemma CutTwice(locks: seq<FileLock>, n: nat, m: nat)
    requires n + m <= |locks|
    ensures locks == locks[..n] + (locks[n..n + m] + locks[n + m..])
    ensures locks[n..n + m] == locks[n..][..m]
    ensures m < |locks[n..]| ==> locks[n + m] == locks[n..][m]
  {
  }

  ghost predicate NoneInTheWay(others: seq<FileLock>, r: FileLock) {
    forall i :: 0 <= i < |others| ==> Clear(others[i], r)
  }

  lemma PlacedMeaning(before: seq<FileLock>, mine: seq<FileLock>, after: seq<FileLock>, r: FileLock, o: nat, x: int)
    requires AllWellFormed(before) && AllWellFormed(mine) && AllCompatible(mine) && r.start <= r.end
    requires NoneOwnedBy(before, r.owner) && AllOwnedBy(mine, r.owner) && NoneOwnedBy(after, r.owner)
    ensures TypeAt(before + (Replaced(mine, r) + after), o, x)
         == if o == r.owner && Covers(r, x) then r.kind else TypeAt(before + (mine + after), o, x)
  {
    var (kept, grown) := Sweep(mine, r);
    var placed := if r.kind == Unlocked then [] else [grown];
    SweepKeepsValid(mine, r);
    SweepMeaning(mine, r, x);
    assert Replaced(mine, r) + after == kept + (placed + after);
    TypeAtConcat(before, kept + (placed + after), o, x);
    TypeAtConcat(before, mine + after, o, x);
    TypeAtConcat(kept, placed + after, o, x);
    TypeAtConcat(mine, after, o, x);
    TypeAtConcat(placed, after, o, x);
    if o == r.owner {
      TypeAtForeign(before, o, x);
      TypeAtForeign(after, o, x);
      if r.kind != Unlocked {
        TypeAtOne(grown, x);
      }
      if Covers(grown, x) && TypeAt(kept, o, x) != Unlocked {
        var k := TypeAtWitness(kept, o, x);
        assert false;
      }
    } else {
      TypeAtForeign(kept, o, x);
      TypeAtForeign(mine, o, x);
      TypeAtForeign(placed, o, x);
    }
  }

  /** A granted request sets exactly its own range for its own owner. */
  lemma AcquireMeaning(locks: seq<FileLock>, r: FileLock, o: nat, x: int)
    requires Valid(locks) && r.start <= r.end && !Refused(locks, r)
    ensures TypeAt(Acquired(locks, r), o, x)
         == if o == r.owner && Covers(r, x) then r.kind else TypeAt(locks, o, x)
  {
    var before, mine, after := GroupSplit(locks, r.owner);
    PartsValid(before, mine, after);
    PlacedMeaning(before, mine, after, r, o, x);
  }

  lemma PartsValid(before: seq<FileLock>, mine: seq<FileLock>, after: seq<FileLock>)
    requires AllWellFormed(before + (mine + after)) && AllCompatible(before + (mine + after))
    ensures AllWellFormed(before) && AllWellFormed(mine) && AllCompatible(mine)
  {
    var locks := before + (mine + after);
    forall i | 0 <= i < |before| ensures WellFormed(before[i]) {
      assert before[i] == locks[i];
    }
    forall i | 0 <= i < |mine| ensures WellFormed(mine[i]) {
      assert mine[i] == locks[|before| + i];
    }
    forall i, j | 0 <= i < j < |mine| ensures Compatible(mine[i], mine[j]) {
      assert mine[i] == locks[|before| + i] && mine[j] == locks[|before| + j];
    }
  }

  ghost predicate Separate(a: seq<FileLock>, b: seq<FileLock>) {
    forall i, j :: 0 <= i < |a| && 0 <= j < |b| ==> Compatible(a[i], b[j])
  }

  lemma Disassemble(a: seq<FileLock>, b: seq<FileLock>)
    requires AllWellFormed(a + b) && AllCompatible(a + b)
    ensures AllWellFormed(a) && AllWellFormed(b) && AllCompatible(a) && AllCompatible(b) && Separate(a, b)
  {
    var c := a + b;
    assert forall i :: 0 <= i < |a| ==> a[i] == c[i];
    assert forall i :: 0 <= i < |b| ==> b[i] == c[|a| + i];
  }

  lemma Assemble(a: seq<FileLock>, b: seq<FileLock>)
    requires AllWellFormed(a) && AllWellFormed(b) && AllCompatible(a) && AllCompatible(b) && Separate(a, b)
    ensures AllWellFormed(a + b) && AllCompatible(a + b)
  {
  }

  lemma PlacedCompatible(before: seq<FileLock>, mine: seq<FileLock>, after: seq<FileLock>, r: FileLock)
    requires AllWellFormed(before + (mine + after)) && AllCompatible(before + (mine + after)) && r.start <= r.end
    requires AllOwnedBy(mine, r.owner) && NoneInTheWay(before, r) && NoneInTheWay(after, r)
    ensures var ours := Replaced(mine, r);
            AllOwnedBy(ours, r.owner) && AllWellFormed(before + (ours + after)) && AllCompatible(before + (ours + after))
  {
    Disassemble(before, mine + after);
    Disassemble(mine, after);
    SeparateParts(before, mine, after);
    SweepKeepsValid(mine, r);
    SweepMeaning(mine, r, 0);
    var ours := Replaced(mine, r);
    OursSeparate(before, mine, r);
    OursSeparate(after, mine, r);
    Assemble(ours, after);
    Assemble(before, ours + after);
  }

  lemma SeparateParts(a: seq<FileLock>, b: seq<FileLock>, c: seq<FileLock>)
    requires Separate(a, b + c)
    ensures Separate(a, b) && Separate(a, c)
  {
    assert forall i :: 0 <= i < |b| ==> b[i] == (b + c)[i];
    assert forall i :: 0 <= i < |c| ==> c[i] == (b + c)[|b| + i];
  }

  lemma OursSeparate(others: seq<FileLock>, mine: seq<FileLock>, r: FileLock)
    requires AllWellFormed(others) && AllWellFormed(mine) && AllOwnedBy(mine, r.owner) && r.start <= r.end
    requires NoneInTheWay(others, r) && (Separate(others, mine) || Separate(mine, others))
    ensures Separate(others, Replaced(mine, r)) && Separate(Replaced(mine, r), others)
  {
    forall k | 0 <= k < |others|
      ensures CompatibleWithAll(others[k], Sweep(mine, r).0) && Clear(others[k], Sweep(mine, r).1)
    {
      SweepKeepsApart(others[k], mine, r);
    }
    SweepKeepsKind(mine, r);
  }

  lemma {:induction false} SweepKeepsKind(mine: seq<FileLock>, r: FileLock)
    ensures Sweep(mine, r).1.kind == r.kind && Sweep(mine, r).1.owner == r.owner
    decreases |mine|
  {
    if mine != [] {
      SweepKeepsKind(mine[1..], Edit(mine[0], r).1);
    }
  }

  /** No other owner has locks on both sides of a group. */
  lemma NobodyOnBothSides(before: seq<FileLock>, mine: seq<FileLock>, after: seq<FileLock>, o: nat, i: nat, k: nat)
    requires Grouped(before + (mine + after)) && NoneOwnedBy(before, o) && AllOwnedBy(mine, o) && mine != []
    requires i < |before| && k < |after|
    ensures before[i].owner != after[k].owner
  {
    var locks := before + (mine + after);
    assert locks[i] == before[i] && locks[|before|] == mine[0] && locks[|before| + |mine| + k] == after[k];
    assert Between(locks, i, |before|, |before| + |mine| + k);
  }

  lemma GroupedParts(a: seq<FileLock>, b: seq<FileLock>)
    requires Grouped(a + b)
    ensures Grouped(a) && Grouped(b)
  {
    forall i: nat, j: nat, k: nat | i < j < k < |a| ensures Between(a, i, j, k) {
      assert Between(a + b, i, j, k);
    }
    forall i: nat, j: nat, k: nat | i < j < k < |b| ensures Between(b, i, j, k) {
      assert Between(a + b, |a| + i, |a| + j, |a| + k);
    }
  }

  /** Replacing the whole group of one owner by other locks of that owner keeps the list grouped. */
  lemma RegroupKeepsGrouped(before: seq<FileLock>, mine: seq<FileLock>, ours: seq<FileLock>, after: seq<FileLock>, o: nat)
    requires Grouped(before + (mine + after))
    requires NoneOwnedBy(before, o) && AllOwnedBy(mine, o) && NoneOwnedBy(after, o) && AllOwnedBy(ours, o)
    requires mine == [] ==> after == []
    ensures Grouped(before + (ours + after))
  {
    GroupedParts(before, mine + after);
    GroupedParts(mine, after);
    forall i, k | 0 <= i < |before| && 0 <= k < |after| ensures before[i].owner != after[k].owner {
      NobodyOnBothSides(before, mine, after, o, i, k);
    }
    JoinGrouped(before, ours, after, o);
  }

  lemma JoinGrouped(before: seq<FileLock>, ours: seq<FileLock>, after: seq<FileLock>, o: nat)
    requires Grouped(before) && Grouped(after)
    requires NoneOwnedBy(before, o) && NoneOwnedBy(after, o) && AllOwnedBy(ours, o)
    requires forall i, k :: 0 <= i < |before| && 0 <= k < |after| ==> before[i].owner != after[k].owner
    ensures Grouped(before + (ours + after))
  {
    var res, a, b := before + (ours + after), |before|, |before| + |ours|;
    forall i: nat, j: nat, k: nat | i < j < k < |res| ensures Between(res, i, j, k) {
      if k < a {
        assert Between(before, i, j, k);
      } else if i >= b {
        assert Between(after, i - b, j - b, k - b);
      }
    }
  }

  /** Canonical lists stay canonical, whatever the request. */
  lemma AcquireKeepsValid(locks: seq<FileLock>, r: FileLock)
    requires Valid(locks) && r.start <= r.end
    ensures Valid(Acquired(locks, r))
  {
    if !Refused(locks, r) {
      var before, mine, after := GroupSplit(locks, r.owner);
      OthersClear(before, mine, after, r);
      PlacedCompatible(before, mine, after, r);
      RegroupKeepsGrouped(before, mine, Replaced(mine, r), after, r.owner);
    }
  }

  lemma OthersClear(before: seq<FileLock>, mine: seq<FileLock>, after: seq<FileLock>, r: FileLock)
    requires !Refused(before + (mine + after), r)
    requires NoneOwnedBy(before, r.owner) && NoneOwnedBy(after, r.owner)
    ensures NoneInTheWay(before, r) && NoneInTheWay(after, r)
  {
    var locks := before + (mine + after);
    assert forall i :: 0 <= i < |before| ==> before[i] == locks[i];
    assert forall i :: 0 <= i < |after| ==> after[i] == locks[|before| + |mine| + i];
  }

  // ---------------------------------------------------------------- refusal and removal, in terms of the map

  /** A type held by somebody else rules out a type that is asked for. */
  predicate Excludes(held: LockType, wanted: LockType) {
    wanted != Unlocked && held != Unlocked && (held == Write || wanted == Write)
  }

  /** The list scan refuses exactly when the map shows an excluding byte of another owner. */
  lemma RefusedMeaning(locks: seq<FileLock>, r: FileLock)
    requires Valid(locks) && r.start <= r.end
    ensures Refused(locks, r)
       <==> exists o: nat, x: int :: o != r.owner && Covers(r, x) && Excludes(TypeAt(locks, o, x), r.kind)
  {
    if Refused(locks, r) {
      var i :| 0 <= i < |locks| && Conflict(locks[i], r);
      var x := if locks[i].start > r.start then locks[i].start else r.start;
      TypeAtMember(locks, i, x);
      assert locks[i].owner != r.owner && Covers(r, x) && Excludes(TypeAt(locks, locks[i].owner, x), r.kind);
    }
    if o: nat, x: int :| o != r.owner && Covers(r, x) && Excludes(TypeAt(locks, o, x), r.kind) {
      ExcludedIsRefused(locks, r, o, x);
    }
  }

  lemma ExcludedIsRefused(locks: seq<FileLock>, r: FileLock, o: nat, x: int)
    requires o != r.owner && Covers(r, x) && Excludes(TypeAt(locks, o, x), r.kind)
    ensures Refused(locks, r)
  {
    var i := TypeAtWitness(locks, o, x);
    assert Conflict(locks[i], r);
  }

  lemma {:induction false} RemovalConcat(a: seq<FileLock>, b: seq<FileLock>, o: nat)
    ensures WithoutOwner(a + b, o) == WithoutOwner(a, o) + WithoutOwner(b, o)
  {
    if a == [] {
      assert a + b == b;
    } else {
      assert (a + b)[1..] == a[1..] + b;
      RemovalConcat(a[1..], b, o);
    }
  }

  lemma {:induction false} RemovalOfNone(a: seq<FileLock>, o: nat)
    requires NoneOwnedBy(a, o)
    ensures WithoutOwner(a, o) == a
  {
    if a != [] {
      RemovalOfNone(a[1..], o);
    }
  }

  lemma {:induction false} RemovalOfAll(a: seq<FileLock>, o: nat)
    requires AllOwnedBy(a, o)
    ensures WithoutOwner(a, o) == []
  {
    if a != [] {
      RemovalOfAll(a[1..], o);
    }
  }

  lemma RemovalJoins(before: seq<FileLock>, mine: seq<FileLock>, after: seq<FileLock>, gone: nat)
    requires NoneOwnedBy(before, gone) && AllOwnedBy(mine, gone) && NoneOwnedBy(after, gone)
    ensures WithoutOwner(before + (mine + after), gone) == before + ([] + after)
  {
    RemovalConcat(before, mine + after, gone);
    RemovalConcat(mine, after, gone);
    RemovalOfNone(before, gone);
    RemovalOfNone(after, gone);
    RemovalOfAll(mine, gone);
    assert [] + after == after;
  }

  lemma CutCompatible(before: seq<FileLock>, mine: seq<FileLock>, after: seq<FileLock>)
    requires AllWellFormed(before + (mine + after)) && AllCompatible(before + (mine + after))
    ensures AllWellFormed(before) && AllWellFormed(mine)
    ensures AllWellFormed(before + ([] + after)) && AllCompatible(before + ([] + after))
  {
    Disassemble(before, mine + after);
    Disassemble(mine, after);
    SeparateParts(before, mine, after);
    Assemble(before, after);
    assert [] + after == after;
  }

  lemma CutMeaning(before: seq<FileLock>, mine: seq<FileLock>, after: seq<FileLock>, gone: nat, o: nat, x: int)
    requires AllWellFormed(before) && AllWellFormed(mine)
    requires NoneOwnedBy(before, gone) && AllOwnedBy(mine, gone) && NoneOwnedBy(after, gone)
    ensures TypeAt(before + ([] + after), o, x) == if o == gone then Unlocked else TypeAt(before + (mine + after), o, x)
  {
    assert [] + after == after;
    TypeAtConcat(before, after, o, x);
    TypeAtConcat(before, mine + after, o, x);
    TypeAtConcat(mine, after, o, x);
    if o == gone {
      TypeAtForeign(before, o, x);
      TypeAtForeign(after, o, x);
    } else {
      TypeAtForeign(mine, o, x);
    }
  }

  /** Removal by owner empties the map of that owner and nothing else, and keeps the list canonical. */
  lemma RemovalMeaning(locks: seq<FileLock>, gone: nat)
    requires Valid(locks)
    ensures Valid(WithoutOwner(locks, gone))
    ensures forall o, x :: TypeAt(WithoutOwner(locks, gone), o, x) == if o == gone then Unlocked else TypeAt(locks, o, x)
  {
    var before, mine, after := GroupSplit(locks, gone);
    RemovalJoins(before, mine, after, gone);
    CutCompatible(before, mine, after);
    RegroupKeepsGrouped(before, mine, [], after, gone);
    forall o: nat, x: int
      ensures TypeAt(WithoutOwner(locks, gone), o, x) == if o == gone then Unlocked else TypeAt(locks, o, x)
    {
      CutMeaning(before, mine, after, gone, o, x);
    }
  }

  // ---------------------------------------------------------------- runs

  datatype Op = SetLock(r: FileLock) | RemoveOwnedBy(owner: nat)

  function Step(locks: seq<FileLock>, op: Op): seq<FileLock> {
    match op
    case SetLock(r) => Acquired(locks, r)
    case RemoveOwnedBy(o) => WithoutOwner(locks, o)
  }

  /** The list after a run from the empty list. */
  function Run(ops: seq<Op>): seq<FileLock> {
    if ops == [] then [] else Step(Run(ops[..|ops| - 1]), ops[|ops| - 1])
  }

  type LockMap = (nat, int) -> LockType

  ghost predicate MapRefuses(m: LockMap, r: FileLock) {
    exists o: nat, x: int :: o != r.owner && Covers(r, x) && Excludes(m(o, x), r.kind)
  }

  /** The specification: a request either overwrites its range in the map or, if excluded, does nothing. */
  ghost function MapStep(m: LockMap, op: Op): LockMap {
    match op
    case SetLock(r) =>
      if MapRefuses(m, r) then m
      else ((o: nat, x: int) => if o == r.owner && Covers(r, x) then r.kind else m(o, x))
    case RemoveOwnedBy(gone) => ((o: nat, x: int) => if o == gone then Unlocked else m(o, x))
  }

  ghost function MapRun(ops: seq<Op>): LockMap {
    if ops == [] then ((o: nat, x: int) => Unlocked) else MapStep(MapRun(ops[..|ops| - 1]), ops[|ops| - 1])
  }

  ghost predicate Proper(ops: seq<Op>) {
    forall i :: 0 <= i < |ops| && ops[i].SetLock? ==> ops[i].r.start <= ops[i].r.end
  }

  lemma RefusalsAgree(locks: seq<FileLock>, m: LockMap, r: FileLock)
    requires Valid(locks) && r.start <= r.end
    requires forall o, x :: TypeAt(locks, o, x) == m(o, x)
    ensures Refused(locks, r) <==> MapRefuses(m, r)
  {
    RefusedMeaning(locks, r);
    if Refused(locks, r) {
      var o: nat, x: int :| o != r.owner && Covers(r, x) && Excludes(TypeAt(locks, o, x), r.kind);
      assert o != r.owner && Covers(r, x) && Excludes(m(o, x), r.kind);
    }
    if MapRefuses(m, r) {
      var o: nat, x: int :| o != r.owner && Covers(r, x) && Excludes(m(o, x), r.kind);
      ExcludedIsRefused(locks, r, o, x);
    }
  }

  /** Every run keeps the list canonical and agrees with the plain map, refusals included. */
  lemma {:induction false} RunRefinesMap(ops: seq<Op>)
    requires Proper(ops)
    ensures Valid(Run(ops))
    ensures forall o, x :: TypeAt(Run(ops), o, x) == MapRun(ops)(o, x)
  {
    if ops != [] {
      var prior, op := ops[..|ops| - 1], ops[|ops| - 1];
      RunRefinesMap(prior);
      var locks, m := Run(prior), MapRun(prior);
      match op
      case SetLock(r) =>
        RefusalsAgree(locks, m, r);
        AcquireKeepsValid(locks, r);
        if !Refused(locks, r) {
          forall o, x ensures TypeAt(Run(ops), o, x) == MapRun(ops)(o, x) {
            AcquireMeaning(locks, r, o, x);
          }
        }
      case RemoveOwnedBy(gone) =>
        RemovalMeaning(locks, gone);
    }
  }

  /** After any run, a byte write-locked by one owner is not locked by any other. */
  lemma WritersAreAlone(ops: seq<Op>, o1: nat, o2: nat, x: int)
    requires Proper(ops) && o1 != o2
    requires TypeAt(Run(ops), o1, x) == Write
    ensures TypeAt(Run(ops), o2, x) == Unlocked
  {
    RunRefinesMap(ops);
    var locks := Run(ops);
    if TypeAt(locks, o2, x) != Unlocked {
      var i := TypeAtWitness(locks, o1, x);
      var j := TypeAtWitness(locks, o2, x);
      assert Conflict(locks[i], locks[j]) && Conflict(locks[j], locks[i]);
      assert false;
    }
  }

  // ---------------------------------------------------------------- waiting

  lemma {:induction false} CutsMember(mine: seq<FileLock>, r: FileLock, i: nat, x: int)
    requires i < |mine| && mine[i].kind != r.kind && Covers(mine[i], x) && Covers(r, x)
    ensures Cuts(mine, r)
  {
    if i > 0 {
      CutsMember(mine[1..], Edit(mine[0], r).1, i - 1, x);
    }
  }

  /** A lock of an owner is one of its group. */
  lemma InGroup(locks: seq<FileLock>, before: seq<FileLock>, mine: seq<FileLock>, after: seq<FileLock>, o: nat, i: nat)
    requires locks == before + (mine + after) && NoneOwnedBy(before, o) && NoneOwnedBy(after, o)
    requires i < |locks| && locks[i].owner == o
    ensures |before| <= i < |before| + |mine| && mine[i - |before|] == locks[i]
  {
  }

  /** A byte where the lock that was in the way of `q` has given way to the request. */
  lemma GivesWay(locks: seq<FileLock>, r: FileLock, q: FileLock) returns (i: nat, x: int)
    requires Valid(locks) && r.start <= r.end && !Refused(locks, r)
    requires Refused(locks, q) && !Refused(Acquired(locks, r), q) && q.start <= q.end
    ensures i < |locks| && locks[i].owner == r.owner && locks[i].kind != r.kind && Covers(locks[i], x) && Covers(r, x)
  {
    i :| 0 <= i < |locks| && Conflict(locks[i], q);
    var o := locks[i].owner;
    x := if locks[i].start > q.start then locks[i].start else q.start;
    TypeAtMember(locks, i, x);
    AcquireMeaning(locks, r, o, x);
    if Excludes(TypeAt(Acquired(locks, r), o, x), q.kind) {
      ExcludedIsRefused(Acquired(locks, r), q, o, x);
    }
  }

  lemma MemberIsCut(locks: seq<FileLock>, r: FileLock, i: nat, x: int)
    requires Grouped(locks) && i < |locks| && locks[i].owner == r.owner
    requires locks[i].kind != r.kind && Covers(locks[i], x) && Covers(r, x)
    ensures CutsGroup(locks, r)
  {
    var before, mine, after := GroupSplit(locks, r.owner);
    InGroup(locks, before, mine, after, r.owner, i);
    var k := i - |before|;
    assert mine[k] == locks[i];
    CutsMember(mine, r, k, x);
  }

  /** A request that lets another one through that was refused before it wakes the waiting threads. */
  lemma LetThroughIsWoken(locks: seq<FileLock>, r: FileLock, q: FileLock)
    requires Valid(locks) && r.start <= r.end && q.start <= q.end
    requires Refused(locks, q) && !Refused(Acquired(locks, r), q)
    ensures Wakes(locks, r)
  {
    var i, x := GivesWay(locks, r, q);
    MemberIsCut(locks, r, i, x);
  }

  predicate StepWakes(locks: seq<FileLock>, op: Op) {
    op.SetLock? && Wakes(locks, op.r)
  }

  /** Whenever a step lets a refused request through: it wakes the waiting threads exactly if it is no removal by owner. */
  lemma LetThroughIsWokenIff(locks: seq<FileLock>, op: Op, q: FileLock)
    requires Valid(locks) && q.start <= q.end && (op.SetLock? ==> op.r.start <= op.r.end)
    requires Refused(locks, q) && !Refused(Step(locks, op), q)
    ensures StepWakes(locks, op) <==> !op.RemoveOwnedBy?
  {
    if op.SetLock? {
      LetThroughIsWoken(locks, op.r, q);
    }
  }

  /** The list, and the requests whose threads sleep until they are woken. */
  datatype Waiting = Waiting(locks: seq<FileLock>, asleep: set<FileLock>)

  /** A thread asks and goes to sleep if it is refused; any other step wakes all or none of those asleep. */
  datatype Turn = Ask(r: FileLock) | Other(op: Op) | Interrupt(r: FileLock)

  function Next(w: Waiting, turn: Turn): Waiting {
    match turn
    case Ask(r) => if Refused(w.locks, r) then w.(asleep := w.asleep + {r}) else After(w, SetLock(r))
    case Other(op) => After(w, op)
    case Interrupt(r) => w.(asleep := w.asleep - {r})
  }

  function After(w: Waiting, op: Op): Waiting {
    Waiting(Step(w.locks, op), if StepWakes(w.locks, op) then {} else w.asleep)
  }

  function Wait(turns: seq<Turn>): Waiting {
    if turns == [] then Waiting([], {}) else Next(Wait(turns[..|turns| - 1]), turns[|turns| - 1])
  }

  ghost predicate ProperTurn(turn: Turn) {
    match turn
    case Ask(r) => r.start <= r.end
    case Other(op) => op.SetLock? ==> op.r.start <= op.r.end
    case Interrupt(_) => true
  }

  predicate Removes(turn: Turn) {
    turn.Other? && turn.op.RemoveOwnedBy?
  }

  ghost predicate WaitInv(w: Waiting) {
    Valid(w.locks) && forall q :: q in w.asleep ==> q.start <= q.end
  }

  lemma AfterKeepsInv(w: Waiting, op: Op)
    requires WaitInv(w) && (op.SetLock? ==> op.r.start <= op.r.end)
    ensures WaitInv(After(w, op))
    ensures op.SetLock? ==> forall q :: q in After(w, op).asleep && Refused(w.locks, q) ==> Refused(After(w, op).locks, q)
  {
    match op
    case SetLock(r) =>
      AcquireKeepsValid(w.locks, r);
      forall q | q in After(w, op).asleep && Refused(w.locks, q) ensures Refused(After(w, op).locks, q) {
        if !Refused(After(w, op).locks, q) {
          LetThroughIsWoken(w.locks, r, q);
        }
      }
    case RemoveOwnedBy(o) => RemovalMeaning(w.locks, o);
  }

  lemma {:induction false} WaitKeepsInv(turns: seq<Turn>)
    requires forall i :: 0 <= i < |turns| ==> ProperTurn(turns[i])
    ensures WaitInv(Wait(turns))
  {
    if turns != [] {
      var prior, turn := turns[..|turns| - 1], turns[|turns| - 1];
      WaitKeepsInv(prior);
      if turn.Other? {
        AfterKeepsInv(Wait(prior), turn.op);
      } else if turn.Ask? && !Refused(Wait(prior).locks, turn.r) {
        AfterKeepsInv(Wait(prior), SetLock(turn.r));
      }
    }
  }

  /** In every run without a removal by owner, a thread sleeps only while its request is refused. */
  lemma {:induction false} NobodySleepsInVain(turns: seq<Turn>, q: FileLock)
    requires forall i :: 0 <= i < |turns| ==> ProperTurn(turns[i]) && !Removes(turns[i])
    requires q in Wait(turns).asleep
    ensures Refused(Wait(turns).locks, q)
  {
    var prior, turn := turns[..|turns| - 1], turns[|turns| - 1];
    var w := Wait(prior);
    WaitKeepsInv(prior);
    if q in w.asleep {
      NobodySleepsInVain(prior, q);
    }
    if turn.Other? {
      AfterKeepsInv(w, turn.op);
    } else if turn.Ask? && !Refused(w.locks, turn.r) {
      AfterKeepsInv(w, SetLock(turn.r));
    }
  }

  /** With one, it may sleep on: the owner of the only lock is gone, and nobody wakes the thread that waits for it. */
  lemma SleepsInVain(r: FileLock, q: FileLock)
    requires r.start <= r.end && r.kind != Unlocked && q.kind != Unlocked && Conflict(r, q)
    ensures var w := Wait([Other(SetLock(r)), Ask(q), Other(RemoveOwnedBy(r.owner))]);
            q in w.asleep && w.locks == [] && !Refused(w.locks, q)
  {
    var turns := [Other(SetLock(r)), Ask(q), Other(RemoveOwnedBy(r.owner))];
    assert turns[..2] == [Other(SetLock(r)), Ask(q)] && turns[..2][..1] == [Other(SetLock(r))] && turns[..1][..0] == [];
    assert Acquired([], r) == [r] by {
      assert Replaced([], r) == [r];
    }
    assert Wait(turns[..1]) == Waiting([r], {});
    assert Conflict([r][0], q);
    assert turns[..2][..1] == turns[..1];
    assert Wait(turns[..2]) == Waiting([r], {q});
    assert [r][1..] == [];
    assert WithoutOwner([r], r.owner) == [];
  }

  // ---------------------------------------------------------------- fcntl's view of a lock

  const OFF_T_MAX: int := 0x7fff_ffff_ffff_ffff
  const EBADF := -9
  const EAGAIN := -11
  const EINVAL := -22
  const LSEEK_SET := 0
  const LSEEK_CUR := 1
  const LSEEK_END := 2

  /** struct flock_; the type word is 0 for a read lock, 1 for a write lock, 2 for an unlock. */
  datatype Flock = Flock(kind: int, whence: int, start: int, len: int, pid: int)

  datatype Result<T> = Ok(value: T) | Err(errno: int)

  function KindOf(word: int): LockType {
    if word == 0 then Read else if word == 1 then Write else Unlocked
  }

  function WordOf(kind: LockType): int {
    match kind case Read => 0 case Write => 1 case Unlocked => 2
  }

  /** A read lock through a write-only descriptor (O_WRONLY_ is 1), or a write lock through a read-only one. */
  predicate WrongMode(f: Flock, accessMode: int) {
    (f.kind == 0 && accessMode == 1) || (f.kind == 1 && accessMode == 0)
  }

  /** What the file tells a conversion: its position and its size, each of which may fail to be read. */
  datatype FileInfo = FileInfo(position: Result<int>, size: Result<int>)

  function Origin(f: Flock, info: FileInfo): Result<int> {
    if f.whence == LSEEK_SET then Ok(0)
    else if f.whence == LSEEK_CUR then info.position
    else if f.whence == LSEEK_END then info.size
    else Err(EINVAL)
  }

  function FromFlock(f: Flock, info: FileInfo, owner: nat, pid: int): Result<FileLock> {
    match Origin(f, info)
    case Err(e) => Err(e)
    case Ok(offset) =>
      var start := f.start + offset;
      if f.len > 0 then Ok(FileLock(start, start + f.len - 1, KindOf(f.kind), pid, owner))
      else if f.len < 0 then Ok(FileLock(start - 1 + f.len + 1, start - 1, KindOf(f.kind), pid, owner))
      else Ok(FileLock(start, OFF_T_MAX, KindOf(f.kind), pid, owner))
  }

  function ToFlock(lock: FileLock): Flock {
    Flock(WordOf(lock.kind), LSEEK_SET, lock.start,
          if lock.end != OFF_T_MAX then lock.end - lock.start + 1 else 0, lock.pid)
  }

  /** The bytes from a start on: so many of them, so many before it, or all to the largest offset. */
  predicate InSpan(start: int, len: int, x: int) {
    if len > 0 then start <= x < start + len
    else if len < 0 then start + len <= x < start
    else start <= x <= 0x7fff_ffff_ffff_ffff
  }

  /**
   The bytes a request is about, as POSIX.1-2017 has it: measured from the beginning of the file for whence 0, from
   the file position for 1, and from the size of the file for 2.
   */
  predicate Asks(f: Flock, info: FileInfo, x: int) {
    || (f.whence == 0 && InSpan(f.start, f.len, x))
    || (f.whence == 1 && info.position.Ok? && InSpan(f.start + info.position.value, f.len, x))
    || (f.whence == 2 && info.size.Ok? && InSpan(f.start + info.size.value, f.len, x))
  }

  /** The request ends within the offsets there are. */
  predicate InOffsets(start: int, len: int) {
    start <= 0x7fff_ffff_ffff_ffff && (len > 0 ==> start + len - 1 <= 0x7fff_ffff_ffff_ffff)
  }

  predicate Fits(f: Flock, info: FileInfo) {
    && (f.whence == 0 ==> InOffsets(f.start, f.len))
    && (f.whence == 1 && info.position.Ok? ==> InOffsets(f.start + info.position.value, f.len))
    && (f.whence == 2 && info.size.Ok? ==> InOffsets(f.start + info.size.value, f.len))
  }

  /** Somebody else holds a byte of the request for writing, or holds one at all and the request is for writing. */
  ghost predicate InTheWay(locks: seq<FileLock>, f: Flock, info: FileInfo, owner: nat) {
    exists o: nat, x: int :: o != owner && HoldsOff(locks, f, info, o, x)
  }

  predicate HoldsOff(locks: seq<FileLock>, f: Flock, info: FileInfo, o: nat, x: int) {
    Asks(f, info, x) && (TypeAt(locks, o, x) == Write || (TypeAt(locks, o, x) == Read && f.kind == 1))
  }

  /** The offset the request is measured from can be told. */
  predicate Located(f: Flock, info: FileInfo) {
    f.whence == 0 || (f.whence == 1 && info.position.Ok?) || (f.whence == 2 && info.size.Ok?)
  }

  /** What a converted request covers, and what it is for: type word 0 is a shared lock, 1 an exclusive one, 2 none. */
  lemma ConvertedAsks(f: Flock, info: FileInfo, owner: nat, pid: int)
    requires FromFlock(f, info, owner, pid).Ok? && Fits(f, info)
    ensures var r := FromFlock(f, info, owner, pid).value;
            && r.owner == owner && r.pid == pid && r.start <= r.end
            && (forall x :: Covers(r, x) <==> Asks(f, info, x))
            && (r.kind == Read <==> f.kind == 0) && (r.kind == Write <==> f.kind == 1)
  {
  }

  /** Converting a request and back keeps the bytes, whatever the sign of the length. */
  lemma ConversionKeepsBytes(f: Flock, info: FileInfo, owner: nat, pid: int, x: int)
    requires FromFlock(f, info, owner, pid).Ok? && Fits(f, info)
    ensures var lock := FromFlock(f, info, owner, pid).value;
            && lock.start <= lock.end <= 0x7fff_ffff_ffff_ffff
            && (Covers(lock, x) <==> Asks(f, info, x))
            && (Asks(ToFlock(lock), info, x) <==> Asks(f, info, x))
  {
    ConvertedAsks(f, info, owner, pid);
  }

  /** Which conversions fail, and how. */
  lemma ConversionFailsIff(f: Flock, info: FileInfo, owner: nat, pid: int)
    ensures FromFlock(f, info, owner, pid).Ok? <==> Located(f, info)
    ensures f.whence == 1 && info.position.Err? ==> FromFlock(f, info, owner, pid) == Err(info.position.errno)
    ensures f.whence == 2 && info.size.Err? ==> FromFlock(f, info, owner, pid) == Err(info.size.errno)
    ensures f.whence !in {0, 1, 2} ==> FromFlock(f, info, owner, pid) == Err(-22)
  {
  }

  /** A request is refused exactly if somebody is in its way. */
  lemma RefusedIsInTheWay(locks: seq<FileLock>, f: Flock, info: FileInfo, owner: nat, pid: int)
    requires Valid(locks) && FromFlock(f, info, owner, pid).Ok? && Fits(f, info) && f.kind in {0, 1}
    ensures Refused(locks, FromFlock(f, info, owner, pid).value) <==> InTheWay(locks, f, info, owner)
  {
    var r := FromFlock(f, info, owner, pid).value;
    ConvertedAsks(f, info, owner, pid);
    RefusedMeaning(locks, r);
    if InTheWay(locks, f, info, owner) {
      var o: nat, x: int :| o != owner && HoldsOff(locks, f, info, o, x);
      ExcludedIsRefused(locks, r, o, x);
    }
    if Refused(locks, r) {
      var o: nat, x: int :| o != r.owner && Covers(r, x) && Excludes(TypeAt(locks, o, x), r.kind);
      assert o != owner && HoldsOff(locks, f, info, o, x);
    }
  }

  /** The type that type word asks for. */
  predicate IsKind(kind: LockType, word: int) {
    (kind == Read <==> word == 0) && (kind == Write <==> word == 1)
  }

  /** A granted request sets the bytes it asks for to the type it asks for, for its owner, and no others. */
  lemma GrantedSets(locks: seq<FileLock>, f: Flock, info: FileInfo, owner: nat, pid: int, o: nat, x: int)
    requires Valid(locks) && FromFlock(f, info, owner, pid).Ok? && Fits(f, info)
    requires !Refused(locks, FromFlock(f, info, owner, pid).value)
    ensures var now := TypeAt(Acquired(locks, FromFlock(f, info, owner, pid).value), o, x);
            if o == owner && Asks(f, info, x) then IsKind(now, f.kind) else now == TypeAt(locks, o, x)
  {
    ConvertedAsks(f, info, owner, pid);
    AcquireMeaning(locks, FromFlock(f, info, owner, pid).value, o, x);
  }

  /** A lock that is reported to the guest reads back as the same lock. */
  lemma ReportReadsBack(lock: FileLock, info: FileInfo)
    requires lock.start <= lock.end <= OFF_T_MAX
    ensures FromFlock(ToFlock(lock), info, lock.owner, lock.pid) == Ok(lock)
  {
  }

  /** F_GETLK finds a lock in the way exactly when F_SETLK of the same request is refused. */
  lemma GetAgreesWithSet(locks: seq<FileLock>, r: FileLock)
    requires r.kind != Unlocked
    ensures FirstConflict(locks, r).Some? <==> Refused(locks, r)
    ensures FirstConflict(locks, r).Some? ==>
              exists i :: 0 <= i < |locks| && Conflict(locks[i], r) && FirstConflict(locks, r) == Some(locks[i])
                && forall j :: 0 <= j < i ==> !Conflict(locks[j], r)
  {
    FirstConflictIndex(locks, r);
  }

  function FirstConflict(locks: seq<FileLock>, r: FileLock): Option<FileLock> {
    if locks == [] then None
    else if Conflict(locks[0], r) then Some(locks[0])
    else FirstConflict(locks[1..], r)
  }

  lemma {:induction false} FirstConflictIndex(locks: seq<FileLock>, r: FileLock)
    ensures FirstConflict(locks, r).None? ==> forall i :: 0 <= i < |locks| ==> !Conflict(locks[i], r)
    ensures FirstConflict(locks, r).Some? ==>
              exists i :: 0 <= i < |locks| && Conflict(locks[i], r) && FirstConflict(locks, r) == Some(locks[i])
                && forall j :: 0 <= j < i ==> !Conflict(locks[j], r)
  {
    if locks != [] && !Conflict(locks[0], r) {
      var rest := locks[1..];
      FirstConflictIndex(rest, r);
      assert forall i :: 0 < i < |locks| ==> locks[i] == rest[i - 1];
      if FirstConflict(rest, r).Some? {
        var i :| 0 <= i < |rest| && Conflict(rest[i], r) && FirstConflict(rest, r) == Some(rest[i])
                && forall j :: 0 <= j < i ==> !Conflict(rest[j], r);
        assert Conflict(locks[i + 1], r);
      }
    }
  }

  // ---------------------------------------------------------------- the code

  /** A reply that tells the guest of this lock. */
  predicate Reports(reply: Flock, lock: FileLock) {
    && reply.whence == 0 && reply.start == lock.start && reply.pid == lock.pid && IsKind(lock.kind, reply.kind)
    && reply.len == if lock.end == 0x7fff_ffff_ffff_ffff then 0 else lock.end - lock.start + 1
  }

  /** struct inode_data, as far as record locks go. */
  class InodeData {
    var posixLocks: seq<FileLock>

    constructor ()
      ensures posixLocks == [] && Valid(posixLocks)
    {
      posixLocks := [];
    }

    /** file_lock_test */
    method Test(request: FileLock) returns (found: Option<FileLock>)
      ensures found == FirstConflict(posixLocks, request)
    {
      var i := 0;
      while i < |posixLocks|
        invariant 0 <= i <= |posixLocks|
        invariant FirstConflict(posixLocks, request) == FirstConflict(posixLocks[i..], request)
      {
        if Conflict(posixLocks[i], request) {
          return Some(posixLocks[i]);
        }
        i := i + 1;
      }
      return None;
    }

    /** One round of the pass: merge the lock at `i` into the request, or cut the request out of it and wake who waits. */
    method MergeOrCut(i: nat, request: FileLock) returns (next: nat, r: FileLock, woken: bool)
      requires i < |posixLocks|
      modifies this
      ensures r == Edit(old(posixLocks[i]), request).1
      ensures posixLocks == old(posixLocks[..i]) + Edit(old(posixLocks[i]), request).0 + old(posixLocks[i + 1..])
      ensures next == i + |Edit(old(posixLocks[i]), request).0|
      ensures woken <==> old(posixLocks[i]).kind != request.kind && Overlap(old(posixLocks[i]), request)
    {
      var lock := posixLocks[i];
      r, woken := request, false;
      next := i + 1;
      if r.kind == lock.kind {
        if Overlap(lock, r) || Adjacent(r, lock) {
          if lock.start < r.start { r := r.(start := lock.start); }
          if lock.end > r.end { r := r.(end := lock.end); }
          posixLocks := posixLocks[..i] + posixLocks[i + 1..];
          next := i;
        }
      } else if Overlap(lock, r) {
        woken := true;
        if r.start > lock.start && r.end < lock.end {
          posixLocks := posixLocks[..i] + [lock.(end := r.start - 1), lock.(start := r.end + 1)] + posixLocks[i + 1..];
          next := i + 2;
        } else if r.start <= lock.start && r.end >= lock.end {
          posixLocks := posixLocks[..i] + posixLocks[i + 1..];
          next := i;
        } else if lock.start < r.start {
          posixLocks := posixLocks[i := lock.(end := r.start - 1)];
        } else if lock.end > r.end {
          posixLocks := posixLocks[i := lock.(start := r.end + 1)];
        }
      }
    }

    /** MergeOrCut, seen as progress of the sweep. */
    method Round(i: nat, request: FileLock, ghost front: seq<FileLock>, ghost todo: seq<FileLock>, ghost after: seq<FileLock>)
      returns (next: nat, r: FileLock, woken: bool, ghost front': seq<FileLock>, ghost todo': seq<FileLock>)
      requires todo != [] && i == |front| && posixLocks == front + todo + after
      modifies this
      ensures todo' == todo[1..] && next == |front'| && posixLocks == front' + todo' + after
      ensures front' + Sweep(todo', r).0 == front + Sweep(todo, request).0
      ensures Sweep(todo', r).1 == Sweep(todo, request).1
      ensures woken || Cuts(todo', r) <==> Cuts(todo, request)
    {
      ghost var pieces := Edit(todo[0], request).0;
      SpliceFirst(front, todo, after, pieces);
      SweepFirst(front, todo, request);
      front', todo' := front + pieces, todo[1..];
      next, r, woken := MergeOrCut(i, request);
    }

    /** file_lock_acquire */
    method Acquire(request: FileLock) returns (err: int, woken: bool)
      modifies this
      ensures err == if Refused(old(posixLocks), request) then EAGAIN else 0
      ensures posixLocks == Acquired(old(posixLocks), request)
      ensures woken <==> Wakes(old(posixLocks), request)
      ensures Valid(old(posixLocks)) && request.start <= request.end ==> Valid(posixLocks)
    {
      if Valid(posixLocks) && request.start <= request.end {
        AcquireKeepsValid(posixLocks, request);
      }
      if request.kind != Unlocked {
        for k := 0 to |posixLocks|
          invariant forall j :: 0 <= j < k ==> !Conflict(posixLocks[j], request)
          invariant posixLocks == old(posixLocks)
        {
          if Conflict(posixLocks[k], request) {
            return EAGAIN, false;
          }
        }
      }
      woken := Place(request);
      return 0, woken;
    }

    /** The second half of file_lock_acquire. */
    method Place(request: FileLock) returns (woken: bool)
      modifies this
      ensures posixLocks == Placed(old(posixLocks), request)
      ensures woken <==> CutsGroup(old(posixLocks), request)
    {
      ghost var before, mine, after := SplitAtGroup(posixLocks, request.owner);
      assert posixLocks == before + mine + after;
      woken := Pass(request, before, mine, after);
    }

    /** One pass that edits the list while the request grows. */
    method Pass(request: FileLock, ghost before: seq<FileLock>, ghost mine: seq<FileLock>, ghost after: seq<FileLock>)
      returns (woken: bool)
      requires posixLocks == before + mine + after
      requires NoneOwnedBy(before, request.owner) && AllOwnedBy(mine, request.owner)
      requires after != [] ==> mine != [] && after[0].owner != request.owner
      modifies this
      ensures posixLocks == before + (Replaced(mine, request) + after)
      ensures woken <==> Cuts(mine, request)
    {
      ghost var front, todo := before, mine;   // the edited front of the list, and our locks still to come
      var r, foundOurLocks, i := request, false, 0;
      woken := false;
      while i < |posixLocks|
        invariant posixLocks == front + todo + after
        invariant if foundOurLocks then i == |front| else 0 <= i <= |front| && front == before && todo == mine
        invariant AllOwnedBy(todo, request.owner)
        invariant front + Sweep(todo, r).0 == before + Sweep(mine, request).0
        invariant Sweep(todo, r).1 == Sweep(mine, request).1
        invariant woken || Cuts(todo, r) <==> Cuts(mine, request)
        decreases |todo|, if foundOurLocks then 0 else |posixLocks| - i
      {
        if !foundOurLocks {
          if posixLocks[i].owner != request.owner {
            SkipForeign(before, mine, after, request.owner, i);
            i := i + 1;
            continue;
          }
          StopAtGroup(before, mine, after, request.owner, i);
          foundOurLocks := true;
        } else if posixLocks[i].owner != request.owner {
          break;
        }
        var cut;
        i, r, cut, front, todo := Round(i, r, front, todo, after);
        woken := woken || cut;
      }
      assert todo == [] && i == |front|;
      ghost var edited := posixLocks;
      if request.kind != Unlocked {
        posixLocks := posixLocks[..i] + [r] + posixLocks[i..];
      }
      InsertAfterKept(before, front, after, mine, request, edited);
    }

    /** fcntl_getlk: report the first lock in the way of the request, or mark the request as grantable. */
    method GetLk(f: Flock, info: FileInfo, owner: nat, pid: int) returns (err: int, reply: Flock)
      requires Valid(posixLocks)
      ensures f.kind !in {0, 1} ==> err == EINVAL && reply == f
      ensures f.kind in {0, 1} && Origin(f, info).Err? ==> err == Origin(f, info).errno && reply == f
      ensures f.kind in {0, 1} && Origin(f, info).Ok? ==>
                var request := FromFlock(f, info, owner, pid).value;
                && err == 0
                && (reply.kind != 2 <==> Refused(posixLocks, request))
                && (FirstConflict(posixLocks, request).Some? ==>
                      reply == ToFlock(FirstConflict(posixLocks, request).value))
                && (FirstConflict(posixLocks, request).None? ==> reply == f.(kind := 2))
      ensures f.kind in {0, 1} && Located(f, info) && Fits(f, info) ==>
                err == 0 && (reply.kind == 2 <==> !InTheWay(posixLocks, f, info, owner))
      ensures f.kind in {0, 1} && Located(f, info) && reply.kind != 2 ==> exists i :: 0 <= i < |posixLocks| && Reports(reply, posixLocks[i])
    {
      if f.kind != 0 && f.kind != 1 {
        return EINVAL, f;
      }
      var converted := FromFlock(f, info, owner, pid);
      if converted.Err? {
        return converted.errno, f;
      }
      var found := Test(converted.value);
      GetAgreesWithSet(posixLocks, converted.value);
      if Fits(f, info) {
        RefusedIsInTheWay(posixLocks, f, info, owner, pid);
      }
      if found.Some? {
        return 0, ToFlock(found.value);
      }
      return 0, f.(kind := 2);
    }

    /** fcntl_setlk without waiting. */
    method SetLk(f: Flock, info: FileInfo, accessMode: int, owner: nat, pid: int) returns (err: int, woken: bool)
      modifies this
      ensures f.kind !in {0, 1, 2} ==> err == EINVAL
      ensures f.kind in {0, 1, 2} && WrongMode(f, accessMode) ==> err == EBADF
      ensures f.kind in {0, 1, 2} && !WrongMode(f, accessMode) ==>
                match FromFlock(f, info, owner, pid)
                case Err(e) => err == e && posixLocks == old(posixLocks)
                case Ok(request) =>
                  && err == (if Refused(old(posixLocks), request) then EAGAIN else 0)
                  && posixLocks == Acquired(old(posixLocks), request)
                  && (woken <==> Wakes(old(posixLocks), request))
      ensures Valid(old(posixLocks)) && Fits(f, info) && err == 0 ==>
                forall o: nat, x: int ::
                  if o == owner && Asks(f, info, x) then IsKind(TypeAt(posixLocks, o, x), f.kind)
                  else TypeAt(posixLocks, o, x) == TypeAt(old(posixLocks), o, x)
      ensures Valid(old(posixLocks)) && Fits(f, info) && err == 0 && f.kind in {0, 1} ==> !InTheWay(old(posixLocks), f, info, owner)
      ensures err in {EINVAL, EBADF, EAGAIN} ==> posixLocks == old(posixLocks)
    {
      if f.kind != 0 && f.kind != 1 && f.kind != 2 {
        return EINVAL, false;
      }
      if f.kind == 0 && accessMode == 1 {
        return EBADF, false;
      }
      if f.kind == 1 && accessMode == 0 {
        return EBADF, false;
      }
      var converted := FromFlock(f, info, owner, pid);
      if converted.Err? {
        return converted.errno, false;
      }
      if Valid(posixLocks) && Fits(f, info) && !Refused(posixLocks, converted.value) {
        SetsWhatItAsks(posixLocks, f, info, owner, pid);
      }
      err, woken := Acquire(converted.value);
    }

    /** file_lock_remove_owned_by */
    method RemoveOwnedBy(owner: nat)
      modifies this
      ensures posixLocks == WithoutOwner(old(posixLocks), owner)
    {
      ghost var front, todo := [], posixLocks;
      var i := 0;
      while i < |posixLocks|
        invariant i == |front| && posixLocks == front + todo
        invariant front + WithoutOwner(todo, owner) == WithoutOwner(old(posixLocks), owner)
        decreases |todo|
      {
        assert posixLocks[i] == todo[0];
        if posixLocks[i].owner == owner {
          posixLocks := posixLocks[..i] + posixLocks[i + 1..];
        } else {
          front := front + [todo[0]];
          i := i + 1;
        }
        todo := todo[1..];
      }
    }
  }

  lemma SetsWhatItAsks(locks: seq<FileLock>, f: Flock, info: FileInfo, owner: nat, pid: int)
    requires Valid(locks) && FromFlock(f, info, owner, pid).Ok? && Fits(f, info)
    requires !Refused(locks, FromFlock(f, info, owner, pid).value)
    ensures var now := Acquired(locks, FromFlock(f, info, owner, pid).value);
            forall o: nat, x: int :: if o == owner && Asks(f, info, x) then IsKind(TypeAt(now, o, x), f.kind)
                                     else TypeAt(now, o, x) == TypeAt(locks, o, x)
    ensures f.kind in {0, 1} ==> !InTheWay(locks, f, info, owner)
  {
    var now := Acquired(locks, FromFlock(f, info, owner, pid).value);
    forall o: nat, x: int
      ensures if o == owner && Asks(f, info, x) then IsKind(TypeAt(now, o, x), f.kind) else TypeAt(now, o, x) == TypeAt(locks, o, x)
    {
      GrantedSets(locks, f, info, owner, pid, o, x);
    }
    if f.kind in {0, 1} {
      RefusedIsInTheWay(locks, f, info, owner, pid);
    }
  }

  lemma SpliceFirst(front: seq<FileLock>, todo: seq<FileLock>, after: seq<FileLock>, pieces: seq<FileLock>)
    requires todo != []
    ensures var s := front + todo + after;
            && s[|front|] == todo[0]
            && s[..|front|] + pieces + s[|front| + 1..] == (front + pieces) + todo[1..] + after
  {
  }

  lemma SweepFirst(front: seq<FileLock>, todo: seq<FileLock>, r: FileLock)
    requires todo != []
    ensures var (pieces, grown) := Edit(todo[0], r);
            && front + Sweep(todo, r).0 == (front + pieces) + Sweep(todo[1..], grown).0
            && Sweep(todo, r).1 == Sweep(todo[1..], grown).1
  {
    var (pieces, grown) := Edit(todo[0], r);
    assert Sweep(todo, r).0 == pieces + Sweep(todo[1..], grown).0;
  }

  lemma InsertAfterKept(before: seq<FileLock>, front: seq<FileLock>, after: seq<FileLock>, mine: seq<FileLock>,
                        request: FileLock, s: seq<FileLock>)
    requires before + Sweep(mine, request).0 == front && s == front + [] + after
    ensures before + (Replaced(mine, request) + after)
         == if request.kind == Unlocked then s else s[..|front|] + [Sweep(mine, request).1] + s[|front|..]
  {
    var tail := if request.kind == Unlocked then [] else [Sweep(mine, request).1];
    JoinParts(before, Sweep(mine, request).0, tail, after);
    CutAtFront(front, after, s);
  }

  lemma JoinParts(before: seq<FileLock>, kept: seq<FileLock>, tail: seq<FileLock>, after: seq<FileLock>)
    ensures before + ((kept + tail) + after) == (before + kept) + tail + after
  {
  }

  lemma CutAtFront(front: seq<FileLock>, after: seq<FileLock>, s: seq<FileLock>)
    requires s == front + [] + after
    ensures s[..|front|] == front && s[|front|..] == after
  {
  }

  lemma SkipForeign(before: seq<FileLock>, mine: seq<FileLock>, after: seq<FileLock>, o: nat, i: nat)
    requires AllOwnedBy(mine, o) && (after != [] ==> mine != []) && i <= |before|
    requires i < |before + mine + after| && (before + mine + after)[i].owner != o
    ensures i < |before|
  {
  }

  lemma StopAtGroup(before: seq<FileLock>, mine: seq<FileLock>, after: seq<FileLock>, o: nat, i: nat)
    requires NoneOwnedBy(before, o) && i <= |before|
    requires i < |before + mine + after| && (before + mine + after)[i].owner == o
    ensures i == |before|
  {
  }
}
