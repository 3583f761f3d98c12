/**
 The life of an inode in a fakefs mount: a path table and a table of stat rows in the database (fs/fake-db.c,
 fs/fake.c), and the inodes in memory, counted by the files open on them (fs/inode.c, fs/generic.c).

 A database transaction is one step, and so is what is done to the inodes in memory between two of them.
 inodes_lock is part of the state, because a thread that holds it runs transactions of its own while other
 threads run theirs.
 */
module InodeLifetime {
  import opened Common
  import opened BucketTable

  type Ino = nat
  type Fd = nat
  type Tid = nat
  type Stat = nat

  const INODES_HASH_SIZE: nat := 1024

  datatype Phase =
    | Idle
    | Opening(file: File)   // fakefs_open has committed
    | Getting(file: File)   // holds inodes_lock, fstat has found the row
    | Unlinking(ino: Ino)   // fakefs_unlink has committed
    | Cleaning(ino: Ino)    // holds inodes_lock, is about to run the cleanup

  /** A row of the stat table, and the host file it was made for; host files are numbered as they are made. */
  datatype Row = Row(stat: Stat, host: nat)

  /** What a descriptor holds: the number of the inode, and the host file that is open. */
  datatype File = File(ino: Ino, host: nat)

  datatype State = State(paths: map<string, Ino>, stats: map<Ino, Row>, hosts: nat,
                         refs: map<Ino, nat>, table: Table, fds: map<Fd, File>,
                         lock: Option<Tid>, threads: map<Tid, Phase>)

  // ---------------------------------------------------------------- invariant

  function KeyMap(refs: map<Ino, nat>): map<Ino, nat> {
    map ino | ino in refs :: ino % INODES_HASH_SIZE
  }

  ghost predicate TableInv(s: State) {
    |s.table| == INODES_HASH_SIZE && TableOk(s.table, KeyMap(s.refs))
  }

  predicate HasPath(paths: map<string, Ino>, ino: Ino) {
    exists p :: p in paths && paths[p] == ino
  }

  ghost function OpenOn(fds: map<Fd, File>, ino: Ino): set<Fd> {
    set fd | fd in fds && fds[fd].ino == ino
  }

  /** A thread that has seen the inode go and has not cleaned up after it yet. */
  predicate WillClean(phase: Phase, ino: Ino) {
    phase == Unlinking(ino) || phase == Cleaning(ino)
  }

  predicate Pending(threads: map<Tid, Phase>, ino: Ino) {
    exists t :: t in threads && WillClean(threads[t], ino)
  }

  ghost predicate InodeOk(s: State, ino: Ino)
    requires ino in s.refs
  {
    ino in s.stats && s.refs[ino] == |OpenOn(s.fds, ino)| && s.refs[ino] > 0
  }

  ghost predicate ThreadOk(s: State, t: Tid)
    requires t in s.threads
  {
    && (s.lock == Some(t) <==> s.threads[t].Getting? || s.threads[t].Cleaning?)
    && (s.threads[t].Getting? ==> s.threads[t].file.ino in s.stats)
    && (s.threads[t].Cleaning? ==> s.threads[t].ino !in s.refs)
  }

  predicate Accounted(s: State, ino: Ino) {
    HasPath(s.paths, ino) || ino in s.refs || Pending(s.threads, ino)
  }

  ghost predicate Inv(s: State) {
    && TableInv(s)
    && 0 !in s.stats
    && (forall ino {:trigger InodeOk(s, ino)} :: ino in s.refs ==> InodeOk(s, ino))
    && (forall fd :: fd in s.fds ==> s.fds[fd].ino in s.refs)
    && (forall ino :: ino in s.stats ==> s.stats[ino].host < s.hosts)
    && (forall p :: p in s.paths ==> s.paths[p] in s.stats)
    && (forall t {:trigger ThreadOk(s, t)} :: t in s.threads ==> ThreadOk(s, t))
    && (s.lock.Some? ==> s.lock.value in s.threads)
    && (forall ino {:trigger Accounted(s, ino)} :: ino in s.stats ==> Accounted(s, ino))
  }

  // ---------------------------------------------------------------- the steps

  /** inode_get_data: the scan of one bucket. */
  predicate InMemory(s: State, ino: Ino) {
    ino % INODES_HASH_SIZE < |s.table| && ino in s.table[ino % INODES_HASH_SIZE]
  }

  lemma InMemoryIsTable(s: State, ino: Ino)
    requires TableInv(s)
    ensures InMemory(s, ino) <==> ino in s.refs
  {
    var h, key := ino % INODES_HASH_SIZE, KeyMap(s.refs);
    assert BucketOk(s.table[h], h, key);
    assert ino in s.refs <==> ino in key;
  }

  /** inode_get_unlocked, for a file being opened */
  function Retained(s: State, file: File, fd: Fd): State {
    var ino, s1 := file.ino, s.(fds := s.fds[fd := file]);
    if InMemory(s, ino) && ino in s.refs then s1.(refs := s.refs[ino := s.refs[ino] + 1])
    else s1.(refs := s.refs[ino := 1], table := Push(s.table, ino % INODES_HASH_SIZE, ino))
  }

  /** The counting half of inode_release. */
  function Dropped(s: State, fd: Fd): State
    requires fd in s.fds
  {
    var ino := s.fds[fd].ino;
    var s1 := s.(fds := s.fds - {fd});
    if ino !in s.refs || s.refs[ino] == 0 then s1
    else if s.refs[ino] > 1 then s1.(refs := s.refs[ino := s.refs[ino] - 1])
    else s1.(refs := s.refs - {ino}, table := Drop(s.table, ino % INODES_HASH_SIZE, ino))
  }

  /** The cleanup statement: the row goes if no path names the inode. */
  function Cleaned(s: State, ino: Ino): State {
    if HasPath(s.paths, ino) then s else s.(stats := s.stats - {ino})
  }

  function Created(s: State, path: string, ino: Ino, stat: Stat): State {
    s.(stats := s.stats[ino := Row(stat, s.hosts)], hosts := s.hosts + 1, paths := s.paths[path := ino])
  }

  function InodeAt(s: State, path: string): Ino {
    if path in s.paths then s.paths[path] else 0
  }

  /** The file that an inode stands for now. */
  function FileAt(s: State, ino: Ino): File {
    File(ino, if ino in s.stats then s.stats[ino].host else 0)
  }

  function With(s: State, t: Tid, phase: Phase): State {
    s.(threads := s.threads[t := phase])
  }

  function WithStat(s: State, ino: Ino, stat: Stat): State
    requires ino in s.stats
  {
    s.(stats := s.stats[ino := s.stats[ino].(stat := stat)])
  }

  datatype Step =
    | Spawn(t: Tid)
    | OpenTransaction(t: Tid, path: string, creat: bool, ino: Ino, stat: Stat)
    | OpenStat(t: Tid)
    | OpenGet(t: Tid, fd: Fd)
    | CreatePath(t: Tid, path: string, ino: Ino, stat: Stat)
    | LinkPath(t: Tid, src: string, dst: string)
    | UnlinkPath(t: Tid, path: string)
    | CheckOrphaned(t: Tid)
    | CloseFile(t: Tid, fd: Fd)
    | CleanUp(t: Tid)
    | SetAttr(t: Tid, fd: Fd, stat: Stat)

  predicate Enabled(s: State, step: Step) {
    if step.Spawn? then step.t !in s.threads
    else
      && step.t in s.threads
      && match step
         case OpenTransaction(t, path, creat, ino, stat) => s.threads[t].Idle? && ino !in s.stats && ino != 0
         case OpenStat(t) => s.threads[t].Opening? && s.lock.None?
         case OpenGet(t, fd) => s.threads[t].Getting? && fd !in s.fds
         case CreatePath(t, path, ino, stat) => s.threads[t].Idle? && path !in s.paths && ino !in s.stats && ino != 0
         case LinkPath(t, src, dst) => s.threads[t].Idle? && src in s.paths && dst !in s.paths
         case UnlinkPath(t, path) => s.threads[t].Idle?
         case CheckOrphaned(t) => s.threads[t].Unlinking? && s.lock.None?
         case CloseFile(t, fd) => s.threads[t].Idle? && fd in s.fds && s.lock.None?
         case CleanUp(t) => s.threads[t].Cleaning?
         case SetAttr(t, fd, stat) => s.threads[t].Idle? && fd in s.fds
         case Spawn(t) => true
  }

  function Apply(s: State, step: Step): State
    requires Enabled(s, step)
  {
    match step
    case Spawn(t) => With(s, t, Idle)
    case OpenTransaction(t, path, creat, ino, stat) =>
      if path in s.paths then With(s, t, Opening(FileAt(s, s.paths[path])))
      else if creat then With(Created(s, path, ino, stat), t, Opening(File(ino, s.hosts)))
      else s
    case OpenStat(t) =>
      var file := s.threads[t].file;
      if file.ino in s.stats then With(s, t, Getting(file)).(lock := Some(t)) else With(s, t, Idle)
    case OpenGet(t, fd) => With(Retained(s, s.threads[t].file, fd), t, Idle).(lock := None)
    case CreatePath(t, path, ino, stat) => Created(s, path, ino, stat)
    case LinkPath(t, src, dst) => s.(paths := s.paths[dst := s.paths[src]])
    case UnlinkPath(t, path) => With(s.(paths := s.paths - {path}), t, Unlinking(InodeAt(s, path)))
    case CheckOrphaned(t) =>
      var ino := s.threads[t].ino;
      if InMemory(s, ino) then With(s, t, Idle) else With(s, t, Cleaning(ino)).(lock := Some(t))
    case CloseFile(t, fd) =>
      var ino, s1 := s.fds[fd].ino, Dropped(s, fd);
      if ino in s1.refs then s1 else With(s1, t, Cleaning(ino)).(lock := Some(t))
    case CleanUp(t) => With(Cleaned(s, s.threads[t].ino), t, Idle).(lock := None)
    case SetAttr(t, fd, stat) => if s.fds[fd].ino in s.stats then WithStat(s, s.fds[fd].ino, stat) else s
  }

  // ---------------------------------------------------------------- every step keeps the invariant

  /** A thread that moves on owes the books nothing if it owed nothing before or its inode is accounted for. */
  lemma MoveOnKeepsInv(s: State, t: Tid, phase: Phase, lock: Option<Tid>)
    requires Inv(s) && t in s.threads
    requires ThreadOk(With(s, t, phase).(lock := lock), t)
    requires s.lock == None || s.lock == Some(t)
    requires lock == None || lock == Some(t)
    requires forall ino :: ino in s.stats && WillClean(s.threads[t], ino) ==>
               HasPath(s.paths, ino) || ino in s.refs || WillClean(phase, ino)
    ensures Inv(With(s, t, phase).(lock := lock))
  {
    var s' := With(s, t, phase).(lock := lock);
    forall u | u in s'.threads ensures ThreadOk(s', u) {
      if u != t {
        assert ThreadOk(s, u);
      }
    }
    forall ino | ino in s'.refs ensures InodeOk(s', ino) {
      assert InodeOk(s, ino);
    }
    forall ino | ino in s'.stats ensures Accounted(s', ino) {
      assert Accounted(s, ino);
      if !HasPath(s.paths, ino) && ino !in s.refs {
        var u :| u in s.threads && WillClean(s.threads[u], ino);
        if u == t {
          assert WillClean(s'.threads[t], ino);
        } else {
          assert WillClean(s'.threads[u], ino);
        }
      }
    }
  }

  /** The same while another thread may hold the lock. */
  lemma StartKeepsInv(s: State, t: Tid, phase: Phase)
    requires Inv(s) && (t in s.threads ==> s.threads[t].Idle?)
    requires phase.Idle? || phase.Opening? || phase.Unlinking?
    ensures Inv(With(s, t, phase))
  {
    var s' := With(s, t, phase);
    assert t in s.threads ==> ThreadOk(s, t);
    forall u | u in s'.threads ensures ThreadOk(s', u) {
      if u != t {
        assert ThreadOk(s, u);
      }
    }
    forall ino | ino in s'.refs ensures InodeOk(s', ino) {
      assert InodeOk(s, ino);
    }
    forall ino | ino in s'.stats ensures Accounted(s', ino) {
      assert Accounted(s, ino);
      if !HasPath(s.paths, ino) && ino !in s.refs {
        var u :| u in s.threads && WillClean(s.threads[u], ino);
        assert u != t && WillClean(s'.threads[u], ino);
      }
    }
  }

  lemma CreatedKeepsInv(s: State, path: string, ino: Ino, stat: Stat)
    requires Inv(s) && path !in s.paths && ino !in s.stats && ino != 0
    ensures Inv(Created(s, path, ino, stat))
  {
    var s' := Created(s, path, ino, stat);
    forall u | u in s'.threads ensures ThreadOk(s', u) {
      assert ThreadOk(s, u);
    }
    forall i | i in s'.refs ensures InodeOk(s', i) {
      assert InodeOk(s, i);
    }
    forall i | i in s'.stats ensures Accounted(s', i) {
      if i == ino {
        assert path in s'.paths && s'.paths[path] == ino;
      } else {
        assert Accounted(s, i);
        MorePaths(s.paths, s'.paths, i);
      }
    }
  }

  lemma MorePaths(paths: map<string, Ino>, paths': map<string, Ino>, ino: Ino)
    requires forall p :: p in paths ==> p in paths' && paths'[p] == paths[p]
    ensures HasPath(paths, ino) ==> HasPath(paths', ino)
  {
    if HasPath(paths, ino) {
      var p :| p in paths && paths[p] == ino;
      assert p in paths' && paths'[p] == ino;
    }
  }

  lemma LinkKeepsInv(s: State, src: string, dst: string)
    requires Inv(s) && src in s.paths && dst !in s.paths
    ensures Inv(s.(paths := s.paths[dst := s.paths[src]]))
  {
    var s' := s.(paths := s.paths[dst := s.paths[src]]);
    forall u | u in s'.threads ensures ThreadOk(s', u) {
      assert ThreadOk(s, u);
    }
    forall i | i in s'.refs ensures InodeOk(s', i) {
      assert InodeOk(s, i);
    }
    forall i | i in s'.stats ensures Accounted(s', i) {
      assert Accounted(s, i);
      MorePaths(s.paths, s'.paths, i);
    }
  }

  /** Removing a path is safe because the thread that did it will look after the inode. */
  lemma UnlinkKeepsInv(s: State, t: Tid, path: string)
    requires Inv(s) && t in s.threads && s.threads[t].Idle?
    ensures Inv(Apply(s, UnlinkPath(t, path)))
  {
    var s' := Apply(s, UnlinkPath(t, path));
    assert ThreadOk(s, t);
    forall u | u in s'.threads ensures ThreadOk(s', u) {
      if u != t {
        assert ThreadOk(s, u);
      }
    }
    forall i | i in s'.refs ensures InodeOk(s', i) {
      assert InodeOk(s, i);
    }
    forall i | i in s'.stats ensures Accounted(s', i) {
      assert Accounted(s, i);
      if path in s.paths && s.paths[path] == i {
        assert WillClean(s'.threads[t], i);
      } else if HasPath(s.paths, i) {
        var p :| p in s.paths && s.paths[p] == i;
        assert p in s'.paths && s'.paths[p] == i;
      } else if i !in s.refs {
        var u :| u in s.threads && WillClean(s.threads[u], i);
        assert u != t && WillClean(s'.threads[u], i);
      }
    }
  }

  /** The cleanup takes a row only when nothing refers to the inode any more. */
  lemma CleanUpKeepsInv(s: State, t: Tid)
    requires Inv(s) && t in s.threads && s.threads[t].Cleaning?
    ensures Inv(Apply(s, CleanUp(t)))
  {
    var ino := s.threads[t].ino;
    assert ThreadOk(s, t);
    if HasPath(s.paths, ino) {
      MoveOnKeepsInv(s, t, Idle, None);
    } else {
      var s' := Apply(s, CleanUp(t));
      assert forall p :: p in s.paths ==> s.paths[p] != ino;
      forall u | u in s'.threads ensures ThreadOk(s', u) {
        if u != t {
          assert ThreadOk(s, u);
        }
      }
      forall i | i in s'.refs ensures InodeOk(s', i) {
        assert InodeOk(s, i);
      }
      forall i | i in s'.stats ensures Accounted(s', i) {
        assert Accounted(s, i);
        if !HasPath(s.paths, i) && i !in s.refs {
          var u :| u in s.threads && WillClean(s.threads[u], i);
          assert u != t && WillClean(s'.threads[u], i);
        }
      }
    }
  }

  lemma RetainedKeepsTable(s: State, file: File, fd: Fd)
    requires TableInv(s)
    ensures TableInv(Retained(s, file, fd))
    ensures Retained(s, file, fd).refs == s.refs[file.ino := if file.ino in s.refs then s.refs[file.ino] + 1 else 1]
  {
    var ino, s' := file.ino, Retained(s, file, fd);
    InMemoryIsTable(s, ino);
    if ino in s.refs {
      assert KeyMap(s'.refs) == KeyMap(s.refs);
    } else {
      PushOk(s.table, KeyMap(s.refs), ino % INODES_HASH_SIZE, ino);
      assert KeyMap(s'.refs) == KeyMap(s.refs)[ino := ino % INODES_HASH_SIZE];
    }
  }

  lemma OneMoreOpen(fds: map<Fd, File>, fd: Fd, file: File, i: Ino)
    requires fd !in fds
    ensures |OpenOn(fds[fd := file], i)| == |OpenOn(fds, i)| + if i == file.ino then 1 else 0
  {
    if i == file.ino {
      assert OpenOn(fds[fd := file], i) == OpenOn(fds, i) + {fd};
    } else {
      assert OpenOn(fds[fd := file], i) == OpenOn(fds, i);
    }
  }

  lemma RetainedCounts(s: State, file: File, fd: Fd, i: Ino)
    requires Inv(s) && fd !in s.fds && file.ino in s.stats && i in Retained(s, file, fd).refs
    ensures InodeOk(Retained(s, file, fd), i)
  {
    RetainedKeepsTable(s, file, fd);
    assert i in s.refs ==> InodeOk(s, i);
    NoneOpen(s, i);
    OneMoreOpen(s.fds, fd, file, i);
    assert Retained(s, file, fd).fds == s.fds[fd := file];
  }

  lemma RetainedKeepsInv(s: State, t: Tid, fd: Fd)
    requires Inv(s) && t in s.threads && s.threads[t].Getting? && fd !in s.fds
    ensures Inv(Retained(s, s.threads[t].file, fd))
  {
    var file := s.threads[t].file;
    var s' := Retained(s, file, fd);
    assert ThreadOk(s, t);
    RetainedKeepsTable(s, file, fd);
    forall u | u in s'.threads ensures ThreadOk(s', u) {
      assert ThreadOk(s, u);
    }
    forall i | i in s'.refs ensures InodeOk(s', i) {
      RetainedCounts(s, file, fd, i);
    }
    forall i | i in s'.stats ensures Accounted(s', i) {
      assert Accounted(s, i);
    }
  }

  lemma NoneOpen(s: State, ino: Ino)
    requires Inv(s)
    ensures ino !in s.refs ==> OpenOn(s.fds, ino) == {}
  {
  }

  lemma DroppedKeepsTable(s: State, fd: Fd)
    requires TableInv(s) && fd in s.fds && s.fds[fd].ino in s.refs && s.refs[s.fds[fd].ino] > 0
    ensures TableInv(Dropped(s, fd))
  {
    var s', ino := Dropped(s, fd), s.fds[fd].ino;
    if s.refs[ino] > 1 {
      assert KeyMap(s'.refs) == KeyMap(s.refs);
    } else {
      DropOk(s.table, KeyMap(s.refs), ino);
      assert KeyMap(s'.refs) == KeyMap(s.refs) - {ino};
    }
  }

  lemma DroppedCounts(s: State, fd: Fd, ino: Ino)
    requires Inv(s) && fd in s.fds && ino in s.refs
    ensures var s' := Dropped(s, fd); (if ino in s'.refs then s'.refs[ino] else 0) == |OpenOn(s'.fds, ino)|
    ensures ino in Dropped(s, fd).refs ==> Dropped(s, fd).refs[ino] > 0
  {
    var s' := Dropped(s, fd);
    assert InodeOk(s, ino);
    if ino == s.fds[fd].ino {
      assert OpenOn(s'.fds, ino) == OpenOn(s.fds, ino) - {fd};
    } else {
      assert OpenOn(s'.fds, ino) == OpenOn(s.fds, ino);
    }
  }

  lemma DroppedKeepsFiles(s: State, fd: Fd, f: Fd)
    requires Inv(s) && fd in s.fds && f in s.fds && f != fd
    ensures s.fds[f].ino in Dropped(s, fd).refs
  {
    DroppedCounts(s, fd, s.fds[f].ino);
    assert f in OpenOn(Dropped(s, fd).fds, s.fds[f].ino);
  }

  lemma CloseKeepsInv(s: State, t: Tid, fd: Fd)
    requires Inv(s) && t in s.threads && s.threads[t].Idle? && fd in s.fds && s.lock.None?
    ensures Inv(Apply(s, CloseFile(t, fd)))
  {
    var ino, s' := s.fds[fd].ino, Apply(s, CloseFile(t, fd));
    assert InodeOk(s, ino);
    DroppedKeepsTable(s, fd);
    forall u | u in s'.threads ensures ThreadOk(s', u) {
      assert ThreadOk(s, u);
    }
    forall i | i in s'.refs ensures InodeOk(s', i) {
      assert InodeOk(s, i);
      DroppedCounts(s, fd, i);
    }
    forall f | f in s'.fds ensures s'.fds[f].ino in s'.refs {
      DroppedKeepsFiles(s, fd, f);
    }
    forall i | i in s'.stats ensures Accounted(s', i) {
      assert Accounted(s, i);
      if i == ino {
        assert ino !in s'.refs ==> WillClean(s'.threads[t], i);
      } else if !HasPath(s.paths, i) && i !in s.refs {
        var u :| u in s.threads && WillClean(s.threads[u], i);
        assert WillClean(s'.threads[u], i);
      }
    }
  }

  lemma SetAttrKeepsInv(s: State, ino: Ino, stat: Stat)
    requires Inv(s) && ino in s.stats
    ensures Inv(WithStat(s, ino, stat))
  {
    var s' := WithStat(s, ino, stat);
    forall u | u in s'.threads ensures ThreadOk(s', u) {
      assert ThreadOk(s, u);
    }
    forall i | i in s'.refs ensures InodeOk(s', i) {
      assert InodeOk(s, i);
    }
    forall i | i in s'.stats ensures Accounted(s', i) {
      assert Accounted(s, i);
    }
  }

  lemma StepKeepsInv(s: State, step: Step)
    requires Inv(s) && Enabled(s, step)
    ensures Inv(Apply(s, step))
  {
    assert !step.Spawn? ==> ThreadOk(s, step.t);
    match step
    case Spawn(t) => StartKeepsInv(s, t, Idle);
    case OpenTransaction(t, path, creat, ino, stat) =>
      if path in s.paths {
        StartKeepsInv(s, t, Opening(FileAt(s, s.paths[path])));
      } else if creat {
        CreatedKeepsInv(s, path, ino, stat);
        StartKeepsInv(Created(s, path, ino, stat), t, Opening(File(ino, s.hosts)));
      }
    case OpenStat(t) =>
      var file := s.threads[t].file;
      if file.ino in s.stats {
        MoveOnKeepsInv(s, t, Getting(file), Some(t));
      } else {
        MoveOnKeepsInv(s, t, Idle, None);
      }
    case OpenGet(t, fd) =>
      RetainedKeepsInv(s, t, fd);
      MoveOnKeepsInv(Retained(s, s.threads[t].file, fd), t, Idle, None);
    case CreatePath(t, path, ino, stat) => CreatedKeepsInv(s, path, ino, stat);
    case LinkPath(t, src, dst) => LinkKeepsInv(s, src, dst);
    case UnlinkPath(t, path) => UnlinkKeepsInv(s, t, path);
    case CheckOrphaned(t) =>
      var ino := s.threads[t].ino;
      InMemoryIsTable(s, ino);
      if ino in s.refs {
        MoveOnKeepsInv(s, t, Idle, None);
      } else {
        MoveOnKeepsInv(s, t, Cleaning(ino), Some(t));
      }
    case CloseFile(t, fd) => CloseKeepsInv(s, t, fd);
    case CleanUp(t) => CleanUpKeepsInv(s, t);
    case SetAttr(t, fd, stat) =>
      assert InodeOk(s, s.fds[fd].ino);
      SetAttrKeepsInv(s, s.fds[fd].ino, stat);
  }

  // ---------------------------------------------------------------- runs

  predicate CanRun(s: State, steps: seq<Step>)
    decreases |steps|
  {
    steps == [] || (Enabled(s, steps[0]) && CanRun(Apply(s, steps[0]), steps[1..]))
  }

  function Run(s: State, steps: seq<Step>): State
    requires CanRun(s, steps)
    decreases |steps|
  {
    if steps == [] then s else Run(Apply(s, steps[0]), steps[1..])
  }

  lemma {:induction false} RunKeepsInv(s: State, steps: seq<Step>)
    requires Inv(s) && CanRun(s, steps)
    ensures Inv(Run(s, steps))
    decreases |steps|
  {
    if steps != [] {
      StepKeepsInv(s, steps[0]);
      RunKeepsInv(Apply(s, steps[0]), steps[1..]);
    }
  }

  /** A mount that has just been swept: every path has a row, every row a path, and nothing is open. */
  ghost predicate Mounted(s: State) {
    && s.refs == map[] && s.fds == map[] && s.threads == map[] && s.lock == None
    && s.table == seq(INODES_HASH_SIZE, _ => []) && 0 !in s.stats
    && (forall p :: p in s.paths ==> s.paths[p] in s.stats)
    && forall ino :: ino in s.stats ==> HasPath(s.paths, ino) && s.stats[ino].host < s.hosts
  }

  lemma MountedInv(s: State)
    requires Mounted(s)
    ensures Inv(s)
  {
    forall h | 0 <= h < |s.table| ensures BucketOk(s.table[h], h, KeyMap(s.refs)) {
      assert s.table[h] == [];
    }
    assert |s.table| == INODES_HASH_SIZE;
  }

  /** Whatever the threads do, an open file and a path always have their stat row: reading it never dies. */
  lemma StatNeverMissing(s: State, steps: seq<Step>)
    requires Mounted(s) && CanRun(s, steps)
    ensures var s' := Run(s, steps);
            && (forall fd :: fd in s'.fds ==> s'.fds[fd].ino in s'.refs && s'.fds[fd].ino in s'.stats)
            && (forall p :: p in s'.paths ==> s'.paths[p] in s'.stats)
  {
    MountedInv(s);
    RunKeepsInv(s, steps);
    var s' := Run(s, steps);
    forall fd | fd in s'.fds ensures s'.fds[fd].ino in s'.refs && s'.fds[fd].ino in s'.stats {
      assert InodeOk(s', s'.fds[fd].ino);
    }
  }

  /** No row outlives its inode: once no unlink or close is under way, every row has a path or an open file. */
  lemma NoOrphanRows(s: State, steps: seq<Step>)
    requires Mounted(s) && CanRun(s, steps)
    requires forall t :: t in Run(s, steps).threads ==> !Run(s, steps).threads[t].Unlinking? && !Run(s, steps).threads[t].Cleaning?
    ensures var s' := Run(s, steps);
            forall ino :: ino in s'.stats ==> HasPath(s'.paths, ino) || OpenOn(s'.fds, ino) != {}
  {
    MountedInv(s);
    RunKeepsInv(s, steps);
    var s' := Run(s, steps);
    forall ino | ino in s'.stats ensures HasPath(s'.paths, ino) || OpenOn(s'.fds, ino) != {} {
      assert Accounted(s', ino);
      if ino in s'.refs {
        assert InodeOk(s', ino);
      }
    }
  }

  // ---------------------------------------------------------------- what the steps do to paths and rows

  /** A new link names the inode of the old path; no other path and no row changes. */
  lemma LinkNamesSame(s: State, t: Tid, src: string, dst: string)
    requires Enabled(s, LinkPath(t, src, dst))
    ensures var now := Apply(s, LinkPath(t, src, dst));
            && dst in now.paths && src in now.paths && now.paths[dst] == s.paths[src] == now.paths[src]
            && (forall p :: p != dst ==> (p in now.paths <==> p in s.paths) && (p in s.paths ==> now.paths[p] == s.paths[p]))
            && now.stats == s.stats && now.fds == s.fds
  {
  }

  /** An unlink takes away one path and no row; the thread has the inode it named to look after. */
  lemma UnlinkTakesPath(s: State, t: Tid, path: string)
    requires Enabled(s, UnlinkPath(t, path))
    ensures var now := Apply(s, UnlinkPath(t, path));
            && path !in now.paths && now.stats == s.stats && now.fds == s.fds
            && (forall p :: p != path ==> (p in now.paths <==> p in s.paths) && (p in s.paths ==> now.paths[p] == s.paths[p]))
            && now.threads[t] == Unlinking(if path in s.paths then s.paths[path] else 0)
  {
  }

  /** An open finds the inode of its path, or makes one with the given attributes; it changes nothing else. */
  lemma OpenFindsOrMakes(s: State, t: Tid, path: string, creat: bool, ino: Ino, stat: Stat)
    requires Inv(s) && Enabled(s, OpenTransaction(t, path, creat, ino, stat))
    ensures var now := Apply(s, OpenTransaction(t, path, creat, ino, stat));
            if path in s.paths then
              && now.paths == s.paths && now.stats == s.stats
              && now.threads[t] == Opening(File(s.paths[path], s.stats[s.paths[path]].host))
            else if creat then
              && now.paths == s.paths[path := ino] && now.stats == s.stats[ino := Row(stat, s.hosts)]
              && now.threads[t] == Opening(File(ino, s.hosts))
            else now == s
  {
  }

  /** Setting attributes through a descriptor changes those of its inode and nothing else. */
  lemma SetAttrSetsRow(s: State, t: Tid, fd: Fd, stat: Stat, i: Ino)
    requires Inv(s) && Enabled(s, SetAttr(t, fd, stat)) && i in s.stats
    ensures var now := Apply(s, SetAttr(t, fd, stat));
            && i in now.stats && now.stats[i].host == s.stats[i].host
            && now.stats[i].stat == if i == s.fds[fd].ino then stat else s.stats[i].stat
  {
    assert InodeOk(s, s.fds[fd].ino);
  }

  // ---------------------------------------------------------------- the row an open attaches to

  /** The step removes the row of an inode. */
  predicate RemovesRow(s: State, step: Step, ino: Ino)
    requires Enabled(s, step)
  {
    step.CleanUp? && s.threads[step.t].ino == ino && !HasPath(s.paths, ino)
  }

  predicate RowRemovedDuring(s: State, steps: seq<Step>, ino: Ino)
    requires CanRun(s, steps)
    decreases |steps|
  {
    steps != [] && (RemovesRow(s, steps[0], ino) || RowRemovedDuring(Apply(s, steps[0]), steps[1..], ino))
  }

  /** The row of the inode is the one that was made for the host file. */
  predicate RowIsFor(s: State, file: File) {
    file.ino in s.stats && s.stats[file.ino].host == file.host
  }

  /** One step: the row of a file stays unless the step removes it, and one that is gone does not come back. */
  lemma StepKeepsRow(s: State, step: Step, file: File)
    requires Enabled(s, step) && file.host < s.hosts
    ensures file.host < Apply(s, step).hosts
    ensures RowIsFor(Apply(s, step), file) <==> RowIsFor(s, file) && !RemovesRow(s, step, file.ino)
  {
    var s' := Apply(s, step);
    match step
    case OpenTransaction(t, path, creat, ino, stat) =>
    case CreatePath(t, path, ino, stat) =>
    case SetAttr(t, fd, stat) =>
    case CleanUp(t) =>
    case _ => assert s'.stats == s.stats && s'.hosts == s.hosts;
  }

  /** Over any run: the row is still the one made for the file exactly if no cleanup has removed it. */
  lemma {:induction false} RowStaysIff(s: State, steps: seq<Step>, file: File)
    requires Inv(s) && CanRun(s, steps) && RowIsFor(s, file)
    ensures RowIsFor(Run(s, steps), file) <==> !RowRemovedDuring(s, steps, file.ino)
    decreases |steps|
  {
    if steps != [] {
      StepKeepsInv(s, steps[0]);
      StepKeepsRow(s, steps[0], file);
      if RemovesRow(s, steps[0], file.ino) {
        RowNeverBack(Apply(s, steps[0]), steps[1..], file);
      } else {
        RowStaysIff(Apply(s, steps[0]), steps[1..], file);
      }
    }
  }

  lemma {:induction false} RowNeverBack(s: State, steps: seq<Step>, file: File)
    requires Inv(s) && CanRun(s, steps) && file.host < s.hosts && !RowIsFor(s, file)
    ensures !RowIsFor(Run(s, steps), file)
    decreases |steps|
  {
    if steps != [] {
      StepKeepsInv(s, steps[0]);
      StepKeepsRow(s, steps[0], file);
      RowNeverBack(Apply(s, steps[0]), steps[1..], file);
    }
  }

  /** None of the steps is the thread's own. */
  predicate Others(steps: seq<Step>, t: Tid) {
    forall i :: 0 <= i < |steps| ==> steps[i].t != t
  }

  lemma OtherKeepsPhase(s: State, step: Step, t: Tid)
    requires Enabled(s, step) && t in s.threads && step.t != t
    ensures t in Apply(s, step).threads && Apply(s, step).threads[t] == s.threads[t]
  {
    match step
    case CloseFile(u, fd) => assert Dropped(s, fd).threads == s.threads;
    case OpenGet(u, fd) => assert Retained(s, s.threads[u].file, fd).threads == s.threads;
    case _ =>
  }

  lemma {:induction false} OthersKeepPhase(s: State, steps: seq<Step>, t: Tid)
    requires CanRun(s, steps) && t in s.threads && Others(steps, t)
    ensures t in Run(s, steps).threads && Run(s, steps).threads[t] == s.threads[t]
    decreases |steps|
  {
    if steps != [] {
      OtherKeepsPhase(s, steps[0], t);
      OthersKeepPhase(Apply(s, steps[0]), steps[1..], t);
    }
  }

  /** While a thread holds inodes_lock, no other thread removes a row. */
  lemma LockKeepsRow(s: State, step: Step, t: Tid, ino: Ino)
    requires Inv(s) && Enabled(s, step) && t in s.threads && s.threads[t].Getting? && step.t != t
    ensures !RemovesRow(s, step, ino)
  {
    assert ThreadOk(s, t) && (step.Spawn? || ThreadOk(s, step.t));
  }

  lemma {:induction false} LockKeepsRows(s: State, steps: seq<Step>, t: Tid, ino: Ino)
    requires Inv(s) && CanRun(s, steps) && t in s.threads && s.threads[t].Getting? && Others(steps, t)
    ensures !RowRemovedDuring(s, steps, ino)
    decreases |steps|
  {
    if steps != [] {
      LockKeepsRow(s, steps[0], t, ino);
      StepKeepsInv(s, steps[0]);
      OtherKeepsPhase(s, steps[0], t);
      LockKeepsRows(Apply(s, steps[0]), steps[1..], t, ino);
    }
  }

  lemma OpenFileStays(s: State, step: Step, fd: Fd)
    requires Inv(s) && Enabled(s, step) && fd in s.fds && !(step.CloseFile? && step.fd == fd)
    ensures fd in Apply(s, step).fds && Apply(s, step).fds[fd] == s.fds[fd]
    ensures !RemovesRow(s, step, s.fds[fd].ino)
  {
    match step
    case CloseFile(t, other) => assert Dropped(s, other).fds == s.fds - {other};
    case CleanUp(t) => assert ThreadOk(s, t);
    case _ =>
  }

  /** A file open on the inode the whole time is enough: its row is never removed. */
  lemma {:induction false} OpenFileKeepsRow(s: State, steps: seq<Step>, fd: Fd)
    requires Inv(s) && CanRun(s, steps) && fd in s.fds
    requires forall i :: 0 <= i < |steps| ==> !(steps[i].CloseFile? && steps[i].fd == fd)
    ensures fd in Run(s, steps).fds && Run(s, steps).fds[fd] == s.fds[fd]
    ensures !RowRemovedDuring(s, steps, s.fds[fd].ino)
    decreases |steps|
  {
    if steps != [] {
      OpenFileStays(s, steps[0], fd);
      StepKeepsInv(s, steps[0]);
      OpenFileKeepsRow(Apply(s, steps[0]), steps[1..], fd);
    }
  }

  /** An open that has committed, what others do until its stat, and what they do until it has its inode. */
  ghost predicate OpenRuns(s: State, t: Tid, between: seq<Step>, inside: seq<Step>, fd: Fd) {
    && t in s.threads && s.threads[t].Opening?
    && CanRun(s, between) && Others(between, t)
    && Enabled(Run(s, between), OpenStat(t))
    && var s2 := Apply(Run(s, between), OpenStat(t));
       && s2.threads[t].Getting?
       && CanRun(s2, inside) && Others(inside, t)
       && Enabled(Run(s2, inside), OpenGet(t, fd))
  }

  function OpenRan(s: State, t: Tid, between: seq<Step>, inside: seq<Step>, fd: Fd): State
    requires OpenRuns(s, t, between, inside, fd)
  {
    Apply(Run(Apply(Run(s, between), OpenStat(t)), inside), OpenGet(t, fd))
  }

  lemma LockHolderKeepsRow(s: State, t: Tid, steps: seq<Step>, file: File)
    requires Inv(s) && CanRun(s, steps) && t in s.threads && s.threads[t].Getting? && Others(steps, t) && file.host < s.hosts
    ensures RowIsFor(Run(s, steps), file) <==> RowIsFor(s, file)
  {
    if RowIsFor(s, file) {
      LockKeepsRows(s, steps, t, file.ino);
      RowStaysIff(s, steps, file);
    } else {
      RowNeverBack(s, steps, file);
    }
  }

  /** The descriptor has the host file it opened, and the row of that file exactly if no cleanup removed it before the stat. */
  lemma OpenedRowIff(s: State, t: Tid, between: seq<Step>, inside: seq<Step>, fd: Fd)
    requires Inv(s) && OpenRuns(s, t, between, inside, fd) && RowIsFor(s, s.threads[t].file)
    ensures var s' := OpenRan(s, t, between, inside, fd); var file := s.threads[t].file;
            && fd in s'.fds && s'.fds[fd] == file
            && (RowIsFor(s', file) <==> !RowRemovedDuring(s, between, file.ino))
  {
    var file, s1 := s.threads[t].file, Run(s, between);
    var s2 := Apply(s1, OpenStat(t));
    OthersKeepPhase(s, between, t);
    RunKeepsInv(s, between);
    RowStaysIff(s, between, file);
    RunKeepsHosts(s, between);
    StepKeepsInv(s1, OpenStat(t));
    OthersKeepPhase(s2, inside, t);
    LockHolderKeepsRow(s2, t, inside, file);
    RunKeepsHosts(s2, inside);
    StepKeepsRow(Run(s2, inside), OpenGet(t, fd), file);
  }

  lemma {:induction false} RunKeepsHosts(s: State, steps: seq<Step>)
    requires CanRun(s, steps)
    ensures s.hosts <= Run(s, steps).hosts
    decreases |steps|
  {
    if steps != [] {
      RunKeepsHosts(Apply(s, steps[0]), steps[1..]);
    }
  }

  /** After any run of a swept mount, for every open that goes through: the same, from its transaction on. */
  lemma OpenAfterRun(mounted: State, before: seq<Step>, open: Step, between: seq<Step>, inside: seq<Step>, fd: Fd)
    requires Mounted(mounted) && CanRun(mounted, before)
    requires open.OpenTransaction? && Enabled(Run(mounted, before), open)
    requires OpenRuns(Apply(Run(mounted, before), open), open.t, between, inside, fd)
    ensures var s := Apply(Run(mounted, before), open);
            var s', file := OpenRan(s, open.t, between, inside, fd), s.threads[open.t].file;
            fd in s'.fds && s'.fds[fd] == file && (RowIsFor(s', file) <==> !RowRemovedDuring(s, between, file.ino))
  {
    MountedInv(mounted);
    RunKeepsInv(mounted, before);
    var s := Run(mounted, before);
    StepKeepsInv(s, open);
    assert open.path in s.paths ==> s.paths[open.path] in s.stats;
    OpenedRowIff(Apply(s, open), open.t, between, inside, fd);
  }

  /** A mount with one file "f"; and the same with two threads, of which the first has just opened and looked up "f". */
  const SWEPT: State :=
    State(map["f" := 1], map[1 := Row(0, 0)], 1, map[], seq(INODES_HASH_SIZE, _ => []), map[], None, map[])

  const BEFORE: State := SWEPT.(threads := map[0 := Opening(File(1, 0)), 1 := Idle])

  lemma BeforeIsReached()
    ensures Mounted(SWEPT)
    ensures var steps := [Spawn(0), Spawn(1), OpenTransaction(0, "f", false, 2, 0)];
            CanRun(SWEPT, steps) && Run(SWEPT, steps) == BEFORE
  {
    assert "f" in SWEPT.paths && SWEPT.paths["f"] == 1;
    var open := OpenTransaction(0, "f", false, 2, 0);
    var s1 := Apply(SWEPT, Spawn(0));
    var s2 := Apply(s1, Spawn(1));
    assert Apply(s2, open).threads == BEFORE.threads;
    RunCons(s2, open, []);
    RunCons(s1, Spawn(1), [open] + []);
    RunCons(SWEPT, Spawn(0), [Spawn(1)] + ([open] + []));
    assert [Spawn(0)] + ([Spawn(1)] + ([open] + [])) == [Spawn(0), Spawn(1), open];
  }

  lemma RunCons(s: State, step: Step, rest: seq<Step>)
    requires Enabled(s, step) && CanRun(Apply(s, step), rest)
    ensures CanRun(s, [step] + rest) && Run(s, [step] + rest) == Run(Apply(s, step), rest)
  {
    assert ([step] + rest)[1..] == rest;
  }

  /**
   One thread has opened the host file of "f" and looked "f" up.  The other removes it, the row goes, and a new
   file "g" is given its number.  The first thread then has the data of "f" with the row of "g".
   */
  lemma ReusedNumberIsOpened()
    ensures var s1 := BEFORE;
            && Enabled(s1, UnlinkPath(1, "f")) && var s2 := Apply(s1, UnlinkPath(1, "f"));
            && Enabled(s2, CheckOrphaned(1)) && var s3 := Apply(s2, CheckOrphaned(1));
            && Enabled(s3, CleanUp(1)) && var s4 := Apply(s3, CleanUp(1));
            && Enabled(s4, CreatePath(1, "g", 1, 7)) && var s5 := Apply(s4, CreatePath(1, "g", 1, 7));
            && Enabled(s5, OpenStat(0)) && var s6 := Apply(s5, OpenStat(0));
            && Enabled(s6, OpenGet(0, 3)) && var s7 := Apply(s6, OpenGet(0, 3));
            && s7.paths == map["g" := 1] && s7.fds == map[3 := File(1, 0)] && s7.stats == map[1 := Row(7, 1)]
  {
    var s2 := Apply(BEFORE, UnlinkPath(1, "f"));
    assert s2.paths == map[];
    assert !InMemory(s2, 1) by {
      assert s2.table[1] == [];
    }
    var s3 := Apply(s2, CheckOrphaned(1));
    var s4 := Apply(s3, CleanUp(1));
    assert s4.stats == map[];
    var s5 := Apply(s4, CreatePath(1, "g", 1, 7));
    assert s5.paths == map["g" := 1] && s5.stats == map[1 := Row(7, 1)];
    var s6 := Apply(s5, OpenStat(0));
    var s7 := Apply(s6, OpenGet(0, 3));
    assert s7.fds == map[3 := File(1, 0)];
  }

  // ---------------------------------------------------------------- the operations on the tables

  class Inodes {
    var paths: map<string, Ino>
    var stats: map<Ino, Row>
    var hosts: nat
    var refs: map<Ino, nat>
    var table: Table
    var fds: map<Fd, File>

    /** The tables as a state of its own, with no thread under way. */
    ghost function View(): State
      reads this
    {
      State(paths, stats, hosts, refs, table, fds, None, map[])
    }

    /** The scan of inode_get_data. */
    method GetData(ino: Ino) returns (found: bool)
      requires TableInv(View())
      ensures found <==> ino in refs
    {
      InMemoryIsTable(View(), ino);
      var bucket, i := table[ino % INODES_HASH_SIZE], 0;
      while i < |bucket|
        invariant 0 <= i <= |bucket| && ino !in bucket[..i]
      {
        if bucket[i] == ino {
          return true;
        }
        i := i + 1;
      }
      return false;
    }

    /** inode_get_unlocked, the reference being that of a new open file */
    method GetUnlocked(file: File, fd: Fd)
      requires TableInv(View())
      modifies this
      ensures View() == Retained(old(View()), file, fd) && TableInv(View())
    {
      RetainedKeepsTable(View(), file, fd);
      var ino := file.ino;
      InMemoryIsTable(View(), ino);
      var found := GetData(ino);
      if !found {
        refs := refs[ino := 0];
        table := table[ino % INODES_HASH_SIZE := [ino] + table[ino % INODES_HASH_SIZE]];
      }
      refs := refs[ino := refs[ino] + 1];
      fds := fds[fd := file];
      assert View().refs == Retained(old(View()), file, fd).refs;
    }

    /** fakefs_inode_orphaned: the cleanup statement scans the paths for the inode. */
    method InodeOrphaned(ino: Ino)
      modifies this`stats
      ensures View() == Cleaned(old(View()), ino)
    {
      var left, named := paths.Keys, false;
      while left != {} && !named
        invariant named ==> HasPath(paths, ino)
        invariant forall p :: p in paths && p !in left && !named ==> paths[p] != ino
        invariant left <= paths.Keys
        decreases |left|, !named
      {
        var p :| p in left;
        named := paths[p] == ino;
        left := left - {p};
      }
      if !named {
        stats := stats - {ino};
      }
    }

    method CheckOrphaned(ino: Ino)
      requires TableInv(View())
      modifies this`stats
      ensures View() == if ino in old(refs) then old(View()) else Cleaned(old(View()), ino)
    {
      var found := GetData(ino);
      if !found {
        InodeOrphaned(ino);
      }
    }

    /** inode_release, the reference being that of an open file */
    method Release(fd: Fd)
      requires TableInv(View()) && fd in fds && fds[fd].ino in refs && refs[fds[fd].ino] > 0
      modifies this
      ensures var s1 := Dropped(old(View()), fd);
              View() == if old(fds)[fd].ino in s1.refs then s1 else Cleaned(s1, old(fds)[fd].ino)
      ensures TableInv(View())
    {
      DroppedKeepsTable(View(), fd);
      var ino: Ino := fds[fd].ino;
      fds := fds - {fd};
      refs := refs[ino := refs[ino] - 1];
      if refs[ino] == 0 {
        refs := refs - {ino};
        table := table[ino % INODES_HASH_SIZE := Without(table[ino % INODES_HASH_SIZE], ino)];
        assert View().refs == Dropped(old(View()), fd).refs;
        assert View() == Dropped(old(View()), fd);
        InodeOrphaned(ino);
      } else {
        assert View().refs == Dropped(old(View()), fd).refs;
      }
    }
  }
}
