/**
 Renaming in the path table of a fakefs database (fs/fake-db.c).  Paths are keys compared byte by byte, and a
 rename updates every key in the range from the source plus '/' up to the source plus '0', the character
 after '/'.  The range turns out to be the subtree below the source, and the update to be a rename of it.
 */
module SubtreeRename {
  import opened Common

  type Path = seq<byte>
  type Ino = nat
  type Paths = map<Path, Ino>

  const SLASH: byte := 47
  const ZERO: byte := 48

  // ---------------------------------------------------------------- key ranges

  /** The order of keys: byte by byte, and a key before its extensions. */
  predicate Less(a: Path, b: Path) {
    b != [] && (a == [] || a[0] < b[0] || (a[0] == b[0] && Less(a[1..], b[1..])))
  }

  predicate Below(src: Path, k: Path) {
    |src| < |k| && k[..|src|] == src && k[|src|] == SLASH
  }

  /** The condition of the rename statement. */
  predicate Selected(src: Path, k: Path) {
    (!Less(k, src + [SLASH]) && Less(k, src + [ZERO])) || k == src
  }

  lemma {:induction false} LessAfterPrefix(src: Path, k: Path, c: byte)
    requires |src| <= |k| && k[..|src|] == src
    ensures Less(k, src + [c]) <==> |k| == |src| || k[|src|] < c
  {
    if src == [] {
      assert [] + [c] == [c];
      assert |k| > 0 && k[0] == c ==> !Less(k[1..], [c][1..]);
    } else {
      assert (src + [c])[1..] == src[1..] + [c] && k[0] == src[0];
      assert k[1..][..|src| - 1] == k[..|src|][1..] == src[1..];
      LessAfterPrefix(src[1..], k[1..], c);
    }
  }

  lemma PrefixOfTails(src: Path, k: Path)
    requires src != [] && k != [] && k[0] == src[0]
    ensures (|src| <= |k| && k[..|src|] == src) <==> (|src[1..]| <= |k[1..]| && k[1..][..|src[1..]|] == src[1..])
  {
    if |src| <= |k| {
      assert k[..|src|] == [k[0]] + k[1..][..|src| - 1];
      assert src == [src[0]] + src[1..];
    }
  }

  /** A key without the prefix is on the same side of every extension of it. */
  lemma {:induction false} LessWithoutPrefix(src: Path, k: Path, c: byte, d: byte)
    requires !(|src| <= |k| && k[..|src|] == src)
    ensures Less(k, src + [c]) <==> Less(k, src + [d])
  {
    assert src != [];
    if k != [] && k[0] == src[0] {
      assert (src + [c])[1..] == src[1..] + [c] && (src + [d])[1..] == src[1..] + [d];
      PrefixOfTails(src, k);
      LessWithoutPrefix(src[1..], k[1..], c, d);
    }
  }

  /** The statement selects the source and what is below it, and nothing else. */
  lemma RangeIsSubtree(src: Path, k: Path)
    ensures Selected(src, k) <==> k == src || Below(src, k)
  {
    if |src| <= |k| && k[..|src|] == src {
      LessAfterPrefix(src, k, SLASH);
      LessAfterPrefix(src, k, ZERO);
      assert |k| == |src| ==> k == src;
    } else {
      LessWithoutPrefix(src, k, SLASH, ZERO);
    }
  }

  // ---------------------------------------------------------------- renaming

  predicate Within(top: Path, k: Path) {
    k == top || Below(top, k)
  }

  /** Neither path is the other or below it. */
  predicate Apart(src: Path, dst: Path) {
    !Within(src, dst) && !Within(dst, src)
  }

  function ChangePrefix(k: Path, n: nat, dst: Path): Path
    requires n <= |k|
  {
    dst + k[n..]
  }

  lemma ChangedIsWithin(src: Path, dst: Path, k: Path)
    requires Within(src, k)
    ensures Within(dst, ChangePrefix(k, |src|, dst))
    ensures ChangePrefix(ChangePrefix(k, |src|, dst), |dst|, src) == k
  {
    var moved := ChangePrefix(k, |src|, dst);
    assert moved[|dst|..] == k[|src|..];
    assert k == k[..|src|] + k[|src|..];
  }

  /** The subtrees of paths that are apart have nothing in common. */
  lemma ApartSubtrees(src: Path, dst: Path, k: Path)
    requires Apart(src, dst)
    ensures !(Within(src, k) && Within(dst, k))
  {
    if Within(src, k) && Within(dst, k) {
      CommonSubtree(src, dst, k);
    }
  }

  lemma CommonSubtree(src: Path, dst: Path, k: Path)
    requires Within(src, k) && Within(dst, k)
    ensures Within(src, dst) || Within(dst, src)
  {
    if |src| <= |dst| {
      assert dst[..|src|] == k[..|dst|][..|src|] == k[..|src|] == src;
      assert |src| < |dst| ==> dst[|src|] == k[|src|];
    } else {
      assert src[..|dst|] == k[..|src|][..|dst|] == k[..|dst|] == dst;
      assert src[|dst|] == k[|dst|];
    }
  }

  /** The table a rename should give: what is at k was at the path that moves to k, or was there and stays. */
  function Renamed(paths: Paths, src: Path, dst: Path): Paths {
    (map k | k in paths && !Within(src, k) :: paths[k])
    + (map k | k in Arrivals(paths, src, dst) :: paths[ChangePrefix(k, |dst|, src)])
  }

  function Arrivals(paths: Paths, src: Path, dst: Path): (r: set<Path>)
    ensures forall k :: k in r <==> Within(dst, k) && ChangePrefix(k, |dst|, src) in paths
  {
    var r := set k | k in paths && Within(src, k) :: ChangePrefix(k, |src|, dst);
    assert forall k :: k in r <==> Within(dst, k) && ChangePrefix(k, |dst|, src) in paths by {
      forall k ensures k in r <==> Within(dst, k) && ChangePrefix(k, |dst|, src) in paths {
        if k in r {
          var o :| o in paths && Within(src, o) && ChangePrefix(o, |src|, dst) == k;
          ChangedIsWithin(src, dst, o);
        } else if Within(dst, k) && ChangePrefix(k, |dst|, src) in paths {
          ChangedIsWithin(dst, src, k);
        }
      }
    }
    r
  }

  /** A rename moves the whole subtree, inodes included, and leaves what is in neither subtree. */
  lemma RenameMovesSubtree(paths: Paths, src: Path, dst: Path, k: Path)
    requires Apart(src, dst) && k in paths
    ensures Within(src, k) ==>
              && k !in Renamed(paths, src, dst)
              && ChangePrefix(k, |src|, dst) in Renamed(paths, src, dst)
              && Renamed(paths, src, dst)[ChangePrefix(k, |src|, dst)] == paths[k]
    ensures !Within(src, k) && !Within(dst, k) ==> k in Renamed(paths, src, dst) && Renamed(paths, src, dst)[k] == paths[k]
  {
    ApartSubtrees(src, dst, k);
    if Within(src, k) {
      ChangedIsWithin(src, dst, k);
    }
  }

  /** The source and what begins with it and a slash, by the bytes of the key. */
  lemma WithinMeans(top: Path, k: Path)
    ensures Within(top, k) <==> k == top || (|k| > |top| && k[..|top|] == top && k[|top|] == 47)
  {
  }

  /** What is at the source or below it, behind a slash, is at the destination with the same rest, and no longer at the source. */
  lemma RenameMovesKey(paths: Paths, src: Path, dst: Path, rest: Path)
    requires Apart(src, dst) && src + rest in paths && (rest == [] || rest[0] == 47)
    ensures src + rest !in Renamed(paths, src, dst)
    ensures dst + rest in Renamed(paths, src, dst) && Renamed(paths, src, dst)[dst + rest] == paths[src + rest]
  {
    var k := src + rest;
    assert k[..|src|] == src && k[|src|..] == rest;
    RenameMovesSubtree(paths, src, dst, k);
  }

  /** Renaming back restores the table exactly if nothing was in the way of the first rename. */
  lemma RenameBackIff(paths: Paths, src: Path, dst: Path)
    requires Apart(src, dst)
    ensures Renamed(Renamed(paths, src, dst), dst, src) == paths <==> forall k :: k in paths ==> !Within(dst, k)
  {
    var there := Renamed(paths, src, dst);
    var back := Renamed(there, dst, src);
    if forall k :: k in paths ==> !Within(dst, k) {
      RenameBack(paths, src, dst);
    } else {
      var k :| k in paths && Within(dst, k);
      ApartSubtrees(src, dst, k);
      assert k !in back;
    }
  }

  lemma RenameBack(paths: Paths, src: Path, dst: Path)
    requires Apart(src, dst) && forall k :: k in paths ==> !Within(dst, k)
    ensures Renamed(Renamed(paths, src, dst), dst, src) == paths
  {
    var there := Renamed(paths, src, dst);
    var back := Renamed(there, dst, src);
    forall k ensures k in back <==> k in paths
             ensures k in paths ==> back[k] == paths[k] {
      ApartSubtrees(src, dst, k);
      if Within(src, k) {
        ChangedIsWithin(src, dst, k);
        ApartSubtrees(src, dst, ChangePrefix(k, |src|, dst));
      }
    }
  }

  // ---------------------------------------------------------------- the statement

  /** The function the statement calls for each key, filling its output from two buffers. */
  method ChangedPrefix(k: Path, n: nat, dst: Path) returns (out: Path)
    requires n <= |k|
    ensures out == ChangePrefix(k, n, dst)
  {
    var size := |k| - n + |dst|;
    var blob := new byte[size](_ => 0);
    var i := 0;
    while i < |dst|
      invariant 0 <= i <= |dst| && blob[..i] == dst[..i]
    {
      blob[i] := dst[i];
      i := i + 1;
    }
    i := 0;
    while i < |k| - n
      invariant 0 <= i <= |k| - n && blob[..|dst|] == dst && blob[|dst|..|dst| + i] == k[n..n + i]
    {
      blob[|dst| + i] := k[n + i];
      assert blob[..|dst|] == dst && blob[|dst|..|dst| + i] == k[n..n + i];
      i := i + 1;
    }
    assert blob[..] == blob[..|dst|] + blob[|dst|..|dst| + i];
    out := blob[..];
  }

  /** The table while some of the selected rows, `left`, have still to be updated. */
  ghost predicate Halfway(now: Paths, paths: Paths, src: Path, dst: Path, left: set<Path>) {
    forall k :: (k in now <==> HalfwayHas(paths, src, dst, left, k))
                && (k in now ==> now[k] == HalfwayAt(paths, src, dst, left, k))
  }

  predicate Arrived(paths: Paths, src: Path, dst: Path, left: set<Path>, k: Path) {
    Within(dst, k) && ChangePrefix(k, |dst|, src) in paths && ChangePrefix(k, |dst|, src) !in left
  }

  predicate HalfwayHas(paths: Paths, src: Path, dst: Path, left: set<Path>, k: Path) {
    Arrived(paths, src, dst, left, k) || (k in paths && (k in left || !Within(src, k)))
  }

  function HalfwayAt(paths: Paths, src: Path, dst: Path, left: set<Path>, k: Path): Ino
    requires HalfwayHas(paths, src, dst, left, k)
  {
    if Arrived(paths, src, dst, left, k) then paths[ChangePrefix(k, |dst|, src)] else paths[k]
  }

  /** One row updated: the old key goes, and the new one replaces what is there. */
  lemma HalfwayStep(now: Paths, paths: Paths, src: Path, dst: Path, left: set<Path>, row: Path)
    requires Apart(src, dst) && row in left && row in paths && Within(src, row)
    requires forall k :: k in left ==> Within(src, k)
    requires Halfway(now, paths, src, dst, left)
    ensures row in now && now[row] == paths[row]
    ensures Halfway((now - {row})[ChangePrefix(row, |src|, dst) := now[row]], paths, src, dst, left - {row})
  {
    var target := ChangePrefix(row, |src|, dst);
    ChangedIsWithin(src, dst, row);
    ApartSubtrees(src, dst, row);
    ApartSubtrees(src, dst, target);
    assert HalfwayHas(paths, src, dst, left, row);
    var next := (now - {row})[target := now[row]];
    forall k ensures (k in next <==> HalfwayHas(paths, src, dst, left - {row}, k))
                     && (k in next ==> next[k] == HalfwayAt(paths, src, dst, left - {row}, k)) {
      if Within(dst, k) {
        ChangedIsWithin(dst, src, k);
        ApartSubtrees(src, dst, k);
        assert ChangePrefix(k, |dst|, src) == row <==> k == target;
      }
      assert k in now <==> HalfwayHas(paths, src, dst, left, k);
    }
  }

  lemma HalfwayStart(paths: Paths, src: Path, dst: Path, left: set<Path>)
    requires forall k :: k in left <==> k in paths && Within(src, k)
    ensures Halfway(paths, paths, src, dst, left)
  {
    forall k | Within(dst, k) && ChangePrefix(k, |dst|, src) in paths ensures ChangePrefix(k, |dst|, src) in left {
      ChangedIsWithin(dst, src, k);
    }
  }

  lemma HalfwayDone(now: Paths, paths: Paths, src: Path, dst: Path)
    requires Halfway(now, paths, src, dst, {})
    ensures now == Renamed(paths, src, dst)
  {
    forall k ensures k in now <==> k in Renamed(paths, src, dst)
             ensures k in now ==> now[k] == Renamed(paths, src, dst)[k] {
      assert k in now <==> HalfwayHas(paths, src, dst, {}, k);
    }
  }

  lemma PutBack(src: Path, k: Path)
    requires Within(src, k)
    ensures ChangePrefix(k, |src|, src) == k
  {
    assert k == k[..|src|] + k[|src|..];
  }

  /** Each row of a rename to the same path is put back where it was. */
  lemma RenamedToItself(paths: Paths, src: Path)
    ensures Renamed(paths, src, src) == paths
  {
    forall k | Within(src, k) ensures ChangePrefix(k, |src|, src) == k {
      PutBack(src, k);
    }
  }

  /** What is in neither subtree is as it was. */
  ghost predicate SameOutside(now: Paths, paths: Paths, src: Path, dst: Path) {
    forall k :: !Within(src, k) && !Within(dst, k) ==> (k in now <==> k in paths) && (k in now ==> now[k] == paths[k])
  }

  /** No row is made up: every inode in the table was there before. */
  ghost predicate OnlyOld(now: Paths, paths: Paths) {
    forall k :: k in now ==> exists o :: o in paths && paths[o] == now[k]
  }

  /** One row updated, if it is still there. */
  function Updated(now: Paths, src: Path, dst: Path, row: Path): Paths
    requires Within(src, row)
  {
    if row in now then (now - {row})[ChangePrefix(row, |src|, dst) := now[row]] else now
  }

  /** The loop of the statement has updated all selected rows but `left`. */
  ghost predicate Updating(now: Paths, paths: Paths, src: Path, dst: Path, left: set<Path>) {
    && (forall k :: k in left ==> k in paths && Within(src, k))
    && (Apart(src, dst) ==> Halfway(now, paths, src, dst, left))
    && (src == dst ==> now == paths)
    && SameOutside(now, paths, src, dst) && OnlyOld(now, paths)
  }

  lemma UpdatePutsBack(paths: Paths, src: Path, row: Path)
    requires row in paths && Within(src, row)
    ensures Updated(paths, src, src, row) == paths
  {
    PutBack(src, row);
    assert (paths - {row})[row := paths[row]] == paths;
  }

  lemma UpdateKeepsOutside(now: Paths, paths: Paths, src: Path, dst: Path, row: Path)
    requires Within(src, row) && SameOutside(now, paths, src, dst)
    ensures SameOutside(Updated(now, src, dst, row), paths, src, dst)
  {
    ChangedIsWithin(src, dst, row);
  }

  lemma UpdateKeepsOld(now: Paths, paths: Paths, src: Path, dst: Path, row: Path)
    requires Within(src, row) && OnlyOld(now, paths)
    ensures OnlyOld(Updated(now, src, dst, row), paths)
  {
    var next := Updated(now, src, dst, row);
    forall k | k in next ensures exists o :: o in paths && paths[o] == next[k] {
      if k in now && next[k] == now[k] {
      } else {
        assert next[k] == now[row];
      }
    }
  }

  lemma UpdateKeepsHalfway(now: Paths, paths: Paths, src: Path, dst: Path, left: set<Path>, row: Path)
    requires Apart(src, dst) && Halfway(now, paths, src, dst, left) && row in left
    requires forall k :: k in left ==> k in paths && Within(src, k)
    ensures Halfway(Updated(now, src, dst, row), paths, src, dst, left - {row})
  {
    HalfwayStep(now, paths, src, dst, left, row);
  }

  lemma UpdateStep(now: Paths, paths: Paths, src: Path, dst: Path, left: set<Path>, row: Path)
    requires Updating(now, paths, src, dst, left) && row in left
    ensures Updating(Updated(now, src, dst, row), paths, src, dst, left - {row})
  {
    UpdateKeepsOutside(now, paths, src, dst, row);
    UpdateKeepsOld(now, paths, src, dst, row);
    if Apart(src, dst) {
      UpdateKeepsHalfway(now, paths, src, dst, left, row);
    }
    if src == dst {
      UpdatePutsBack(paths, src, row);
    }
  }

  lemma UpdatesDone(now: Paths, paths: Paths, src: Path, dst: Path)
    requires Updating(now, paths, src, dst, {})
    ensures Apart(src, dst) || src == dst ==> now == Renamed(paths, src, dst)
  {
    if Apart(src, dst) {
      HalfwayDone(now, paths, src, dst);
    }
    if src == dst {
      RenamedToItself(paths, src);
    }
  }

  lemma UpdatesStart(paths: Paths, src: Path, dst: Path, left: set<Path>)
    requires forall k :: k in left <==> k in paths && Selected(src, k)
    ensures Updating(paths, paths, src, dst, left)
  {
    forall k ensures k in left <==> k in paths && Within(src, k) {
      RangeIsSubtree(src, k);
    }
    HalfwayStart(paths, src, dst, left);
  }

  /**
   path_rename: the rows the condition selects, in any order, each replacing what has its new key; a row that
   has been replaced itself by then is gone.
   */
  method Rename(paths: Paths, src: Path, dst: Path) returns (now: Paths)
    ensures Apart(src, dst) || src == dst ==> now == Renamed(paths, src, dst)
    ensures SameOutside(now, paths, src, dst) && OnlyOld(now, paths)
  {
    now := paths;
    var left := set k | k in paths && Selected(src, k);
    UpdatesStart(paths, src, dst, left);
    while left != {}
      invariant Updating(now, paths, src, dst, left)
      decreases |left|
    {
      var row :| row in left;
      UpdateStep(now, paths, src, dst, left, row);
      if row in now {
        var target := ChangedPrefix(row, |src|, dst);
        var ino := now[row];
        now := now - {row};
        now := now[target := ino];
      }
      left := left - {row};
    }
    UpdatesDone(now, paths, src, dst);
  }

  /**
   fakefs_rename: the table is renamed first, and rolled back if the host refuses.  The host refuses to move a
   directory below itself or over one that is not empty.
   */
  method RenameWithHost(paths: Paths, src: Path, dst: Path, hostErr: int) returns (now: Paths, err: int)
    requires hostErr >= 0 ==> Apart(src, dst) || src == dst
    ensures err == (if hostErr < 0 then hostErr else 0) && now == if hostErr < 0 then paths else Renamed(paths, src, dst)
  {
    now := Rename(paths, src, dst);
    if hostErr < 0 {
      now := paths;
      return now, hostErr;
    }
    return now, 0;
  }
}
