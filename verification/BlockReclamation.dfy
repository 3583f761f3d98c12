/**
 Threads running translated code while others invalidate and free it (cpu_step_to_interrupt,
 cpu_run_to_interrupt, tlb_refresh, and the jump gadgets that move between blocks).

 Each thread keeps block pointers of its own across calls: a block cache, a return cache, the last block it
 ran, and the generation at which it last compared notes with the cache.  Retired blocks are freed when no
 thread holds jetsam_lock for reading.  A state is one moment between two atomic steps: a stretch of code
 under the lock is one step, and so is each single read of shared memory outside it.

 The invariant is about generations: a pointer a thread keeps is to a live block, or to a block retired at
 a later generation than the thread's.  The safety theorem says that in every interleaving each block a
 step reads is still allocated.
 */
module BlockReclamation {
  import opened Common
  import opened BucketTable
  import opened BlockIndex
  import opened BlockChaining
  import opened BlockCache

  type Tid = nat

  /** Where a thread is in cpu_step_to_interrupt. */
  datatype Phase =
    | Outside            // not in it
    | Entered            // has jetsam_lock for reading, has not looked at the generation yet
    | Top                // at the head of the loop
    | Dispatch           // has compared generations, is about to find a block
    | Fetched(block: Id) // has a block, is about to try to chain the last one to it
    | Running(block: Id) // inside fiber_enter
    | Returned           // back from fiber_enter

  /** struct tlb and struct fiber_frame, as far as blocks go. */
  datatype Thread = Thread(phase: Phase, cache: map<nat, Id>, ret: map<nat, Id>, last: Option<Id>, gen: nat)

  /** `retiredAt` remembers the generation that retired a block, also after the block is freed. */
  datatype State = State(c: Cache, retiredAt: map<Id, nat>, threads: map<Tid, Thread>)

  function Opt(o: Option<Id>): set<Id> {
    match o case None => {} case Some(b) => {b}
  }

  function PhaseBlock(p: Phase): set<Id> {
    match p case Fetched(b) => {b} case Running(b) => {b} case _ => {}
  }

  /** Every block a thread has a pointer to. */
  function Held(t: Thread): set<Id> {
    t.cache.Values + t.ret.Values + Opt(t.last) + PhaseBlock(t.phase)
  }

  /** The thread follows its pointers only in these phases. */
  predicate Inside(p: Phase) {
    p != Outside && p != Entered
  }

  function Cleared(t: Thread, gen: nat): Thread {
    t.(cache := map[], ret := map[], last := None, gen := gen)
  }

  // ---------------------------------------------------------------- steps

  datatype Step =
    | Refresh(t: Tid)                                    // tlb_refresh: mappings changed
    | Enter(t: Tid)                                      // read_wrlock
    | Compare(t: Tid)                                    // the check before the loop
    | CheckGen(t: Tid)                                   // the check at the head of the loop
    | Hit(t: Tid, k: nat, ip: nat)                       // the block cache has the block
    | Miss(t: Tid, k: nat, ip: nat, id: Id, b: Block, eager: Eager) // look it up or compile it, under the lock
    | Chain(t: Tid, locked: bool)                        // try to chain the last block to this one
    | Follow(t: Tid, i: nat)                             // a chained jump
    | FollowOut(t: Tid, i: nat, record: bool)            // a chained jump that leaves for the main loop
    | Call(t: Tid, k: nat)                               // a call gadget files itself in the return cache
    | Return(t: Tid, k: nat, match_: bool)               // a return gadget asks the return cache
    | Exit(t: Tid)                                       // the block ends and nothing is chained
    | Flush(t: Tid)                                      // crash recovery, or mappings changed while running
    | Again(t: Tid)                                      // round the loop
    | Leave(t: Tid)                                      // read_wrunlock
    | Invalidate(start: nat, end: nat)                   // asbestos_invalidate_range, by anybody
    | InvalidateAll                                      // asbestos_invalidate_all
    | Reclaim                                            // fiber_free_jetsam under the write lock

  predicate Known(s: State, a: Step) {
    match a
    case Invalidate(_, _) => true
    case InvalidateAll => true
    case Reclaim => true
    case _ => a.t in s.threads
  }

  function PhaseOf(s: State, t: Tid): Phase
    requires t in s.threads
  {
    s.threads[t].phase
  }

  predicate CanFollow(s: State, j: Jump) {
    j in s.c.links.slot && s.c.links.slot[j].Code?
  }

  /** When the code can take a step. */
  predicate Enabled(s: State, a: Step) {
    Known(s, a) && match a
    case Refresh(t) => PhaseOf(s, t) == Outside
    case Enter(t) => PhaseOf(s, t) == Outside
    case Compare(t) => PhaseOf(s, t) == Entered
    case CheckGen(t) => PhaseOf(s, t) == Top
    case Hit(t, k, ip) =>
      PhaseOf(s, t) == Dispatch && k in s.threads[t].cache && HasAddr(s, s.threads[t].cache[k], ip)
    case Miss(t, k, ip, id, b, _) =>
      && PhaseOf(s, t) == Dispatch
      && !(k in s.threads[t].cache && HasAddr(s, s.threads[t].cache[k], ip))
      && id !in s.c.blocks && id !in s.retiredAt && BlockOk(b) && b.addr == ip
    case Chain(t, _) => PhaseOf(s, t).Fetched?
    case Follow(t, i) => PhaseOf(s, t).Running? && CanFollow(s, Jump(PhaseOf(s, t).block, i))
    case FollowOut(t, i, _) => PhaseOf(s, t).Running? && CanFollow(s, Jump(PhaseOf(s, t).block, i))
    case Call(t, _) => PhaseOf(s, t).Running?
    case Return(t, k, _) => PhaseOf(s, t).Running? && k in s.threads[t].ret
    case Exit(t) => PhaseOf(s, t).Running?
    case Flush(t) => PhaseOf(s, t) == Returned
    case Again(t) => PhaseOf(s, t) == Returned
    case Leave(t) => PhaseOf(s, t) == Returned || PhaseOf(s, t) == Dispatch
    case Invalidate(_, _) => true
    case InvalidateAll => true
    case Reclaim => forall t :: t in s.threads ==> PhaseOf(s, t) == Outside
  }

  predicate HasAddr(s: State, id: Id, ip: nat) {
    id in s.c.blocks && s.c.blocks[id].addr == ip
  }

  function WithThread(s: State, t: Tid, th: Thread): State {
    s.(threads := s.threads[t := th])
  }

  /** The block a miss ends up with, and the cache after it. */
  function Fetching(c: Cache, ip: nat, id: Id, b: Block, eager: Eager): (Cache, Id)
    requires |b.jumps| == 2
  {
    match Find(c, ip)
    case Some(found) => (c, found)
    case None => (Inserting(c, id, b, eager), id)
  }

  /** Retired blocks are stamped with the new generation. */
  function Stamped(s: State, c': Cache): State {
    s.(c := c', retiredAt := s.retiredAt + map id | id in s.c.live && id !in c'.live :: c'.gen)
  }

  function Apply(s: State, a: Step): State
    requires Enabled(s, a)
  {
    match a
    case Refresh(t) => WithThread(s, t, Cleared(s.threads[t], 0))
    case Enter(t) => WithThread(s, t, s.threads[t].(phase := Entered))
    case Compare(t) =>
      var th := s.threads[t];
      WithThread(s, t, (if th.gen != s.c.gen then Cleared(th, s.c.gen) else th.(last := None)).(phase := Top))
    case CheckGen(t) =>
      var th := s.threads[t];
      WithThread(s, t, (if th.gen != s.c.gen then Cleared(th, s.c.gen) else th).(phase := Dispatch))
    case Hit(t, k, _) =>
      var th := s.threads[t];
      WithThread(s, t, th.(phase := Fetched(th.cache[k])))
    case Miss(t, k, ip, id, b, eager) =>
      var th := s.threads[t];
      var (c', found) := Fetching(s.c, ip, id, b, eager);
      WithThread(s.(c := c'), t, th.(phase := Fetched(found), cache := th.cache[k := found]))
    case Chain(t, locked) =>
      var th := s.threads[t];
      var b := th.phase.block;
      var c' := if th.last.Some? && locked then ChainedBoth(s.c, th.last.value, b) else s.c;
      WithThread(s.(c := c'), t, th.(phase := Running(b), last := Some(b)))
    case Follow(t, i) =>
      var th := s.threads[t];
      var b' := s.c.links.slot[Jump(th.phase.block, i)].block;
      WithThread(s, t, th.(phase := Running(b'), last := Some(b')))
    case FollowOut(t, i, record) =>
      var th := s.threads[t];
      var b' := s.c.links.slot[Jump(th.phase.block, i)].block;
      WithThread(s, t, th.(phase := Returned, last := if record then Some(b') else th.last))
    case Call(t, k) =>
      var th := s.threads[t];
      WithThread(s, t, th.(ret := th.ret[k := th.phase.block]))
    case Return(t, k, match_) =>
      var th := s.threads[t];
      var caller := th.ret[k];
      if !match_ then WithThread(s, t, th.(phase := Returned))
      else if CanFollow(s, Jump(caller, 0)) then
        var b' := s.c.links.slot[Jump(caller, 0)].block;
        WithThread(s, t, th.(phase := Running(b'), last := Some(b')))
      else WithThread(s, t, th.(phase := Returned, last := Some(caller)))
    case Exit(t) => WithThread(s, t, s.threads[t].(phase := Returned))
    case Flush(t) => WithThread(s, t, Cleared(s.threads[t], s.c.gen))
    case Again(t) => WithThread(s, t, s.threads[t].(phase := Top))
    case Leave(t) => WithThread(s, t, s.threads[t].(phase := Outside))
    case Invalidate(start, end) => Stamped(s, Invalidated(s.c, start, end))
    case InvalidateAll => Stamped(s, AllInvalidated(s.c))
    case Reclaim => s.(c := Freed(s.c))
  }

  function Members(t: Table): set<Id> {
    set h, id | 0 <= h < |t| && id in t[h] :: id
  }

  /** The blocks in the hash and the page lists. */
  function Indexed(c: Cache): set<Id> {
    Members(c.index.hash) + Members(c.index.page0) + Members(c.index.page1)
  }

  /** The blocks in the jump lists of a block. */
  function OnListsOf(c: Cache, b: Id): set<Id> {
    set j, id | j in c.links.from && j.src == b && id in c.links.from[j] :: id
  }

  /** The blocks in any jump list, and those the jumps lead to. */
  function OnJumpLists(c: Cache): set<Id> {
    (set j, id | j in c.links.from && id in c.links.from[j] :: id) + c.links.link.Values
  }

  function OnJetsam(c: Cache): set<Id> {
    set id | id in c.jetsam
  }

  /**
   The blocks whose memory a step may read or write.  A step that searches, inserts into or unlinks from a shared
   list counts with all blocks on such lists, since each of them may be passed over or be a neighbour.
   */
  function Touches(s: State, a: Step): set<Id>
    requires Enabled(s, a)
  {
    match a
    case Hit(t, k, _) => {s.threads[t].cache[k]}
    case Miss(t, k, _, _, _, _) =>
      (if k in s.threads[t].cache then {s.threads[t].cache[k]} else {}) + Indexed(s.c) + OnJumpLists(s.c)
    case Chain(t, locked) =>
      Opt(s.threads[t].last) + {s.threads[t].phase.block} + OnListsOf(s.c, s.threads[t].phase.block)
    case Follow(t, i) => {s.threads[t].phase.block, s.c.links.slot[Jump(s.threads[t].phase.block, i)].block}
    case FollowOut(t, i, _) => {s.threads[t].phase.block, s.c.links.slot[Jump(s.threads[t].phase.block, i)].block}
    case Call(t, _) => {s.threads[t].phase.block}
    case Return(t, k, match_) =>
      {s.threads[t].phase.block, s.threads[t].ret[k]}
      + (if match_ && CanFollow(s, Jump(s.threads[t].ret[k], 0))
         then {s.c.links.slot[Jump(s.threads[t].ret[k], 0)].block} else {})
    case Exit(t) => {s.threads[t].phase.block}
    case Invalidate(_, _) => Indexed(s.c) + OnJumpLists(s.c) + OnJetsam(s.c)
    case InvalidateAll => Indexed(s.c) + OnJumpLists(s.c) + OnJetsam(s.c)
    case Reclaim => OnJetsam(s.c)
    case _ => {}
  }

  // ---------------------------------------------------------------- invariant

  /** A pointer taken at generation `g` or before is to a live block or to one retired after `g`. */
  predicate Trusted(s: State, g: nat, b: Id) {
    b in s.c.live || (b in s.retiredAt && s.retiredAt[b] > g)
  }

  ghost predicate ThreadOk(s: State, t: Thread) {
    && t.gen <= s.c.gen
    && (forall b :: b in Held(t) ==> Trusted(s, t.gen, b))
    && (Inside(t.phase) ==> Held(t) <= s.c.blocks.Keys)
  }

  ghost predicate StampsOk(s: State) {
    && (forall b :: b in s.retiredAt ==> s.retiredAt[b] <= s.c.gen && b !in s.c.live)
    && (forall b :: b in s.c.blocks && b !in s.c.live ==> b in s.retiredAt)
  }

  ghost predicate Inv(s: State) {
    && CacheInv(s.c)
    && StampsOk(s)
    && ThreadsOk(s)
  }

  ghost predicate ThreadsOk(s: State) {
    forall t {:trigger ThreadOk(s, s.threads[t])} :: t in s.threads ==> ThreadOk(s, s.threads[t])
  }

  /** What the threads rely on: chained jumps lead to live blocks, and live blocks are allocated. */
  ghost predicate ChainsLandLive(s: State) {
    && s.c.live <= s.c.blocks.Keys
    && forall j {:trigger CanFollow(s, j)} :: CanFollow(s, j) ==> s.c.links.slot[j].block in s.c.live
  }

  lemma CacheChainsLandLive(s: State)
    requires CacheInv(s.c)
    ensures ChainsLandLive(s)
  {
    forall j | CanFollow(s, j) ensures s.c.links.slot[j].block in s.c.live {
      ChainedDispatchIsLookup(s.c, j);
    }
  }

  lemma MembersAreKeys(t: Table, key: map<Id, nat>)
    requires TableOk(t, key)
    ensures Members(t) <= key.Keys
  {
    forall id | id in Members(t) ensures id in key {
      var h :| 0 <= h < |t| && id in t[h];
      assert BucketOk(t[h], h, key);
    }
  }

  /** The index lists live blocks only. */
  lemma IndexedAreLive(c: Cache)
    requires CacheInv(c)
    ensures Indexed(c) <= c.live
  {
    MembersAreKeys(c.index.hash, HashKey(c.blocks, c.live, |c.index.hash|));
    MembersAreKeys(c.index.page0, Page0Key(c.blocks, c.live));
    MembersAreKeys(c.index.page1, Page1Key(c.blocks, c.live));
  }

  /** The jump lists hold live blocks only. */
  lemma JumpListsAreLive(c: Cache)
    requires CacheInv(c)
    ensures OnJumpLists(c) <= c.live && forall b :: OnListsOf(c, b) <= OnJumpLists(c)
  {
    forall j | j in c.links.link ensures j.src in c.live && c.links.link[j] in c.live {
      assert SlotOk(c.links, c.blocks, c.live, j);
    }
    forall j, id | j in c.links.from && id in c.links.from[j] ensures id in c.live {
      assert FromOk(c.links, j);
      assert Jump(id, j.i) in c.links.link;
    }
  }

  /** What a step touches is held by its thread while the thread is inside, or on a list. */
  lemma TouchesHeldOrListed(s: State, a: Step)
    requires ChainsLandLive(s) && Enabled(s, a)
    requires Indexed(s.c) + OnJumpLists(s.c) <= s.c.live && forall b :: OnListsOf(s.c, b) <= OnJumpLists(s.c)
    ensures Touches(s, a) <= s.c.live + OnJetsam(s.c)
         || (Known(s, a) && !a.Invalidate? && !a.InvalidateAll? && !a.Reclaim?
             && Inside(s.threads[a.t].phase) && Touches(s, a) <= Held(s.threads[a.t]) + s.c.live)
  {
  }

  /** Every block a step touches is still allocated. */
  lemma TouchesAllocated(s: State, a: Step)
    requires Inv(s) && Enabled(s, a)
    ensures Touches(s, a) <= s.c.blocks.Keys
  {
    CacheChainsLandLive(s);
    IndexedAreLive(s.c);
    JumpListsAreLive(s.c);
    TouchesHeldOrListed(s, a);
    if !(Touches(s, a) <= s.c.live + OnJetsam(s.c)) {
      assert ThreadOk(s, s.threads[a.t]);
    }
  }

  // ---------------------------------------------------------------- every step keeps the invariant

  /** The shared state moved on: generations only grow, blocks leave the live ones only with a later stamp. */
  ghost predicate MovesOn(s: State, s': State) {
    && s.c.gen <= s'.c.gen
    && s.c.blocks.Keys <= s'.c.blocks.Keys
    && (forall b :: b in s.c.live && b !in s'.c.live ==> b in s'.retiredAt && s'.retiredAt[b] > s.c.gen)
    && (forall b :: b in s.retiredAt ==> b in s'.retiredAt && s'.retiredAt[b] == s.retiredAt[b])
  }

  lemma ThreadCarries(s: State, s': State, t: Thread)
    requires ThreadOk(s, t) && MovesOn(s, s')
    ensures ThreadOk(s', t)
  {
    forall b | b in Held(t) ensures Trusted(s', t.gen, b) {
      assert Trusted(s, t.gen, b);
    }
  }

  /** With equal generations nothing a thread holds has been retired. */
  lemma CurrentHoldsLive(s: State, t: Thread)
    requires ThreadOk(s, t) && StampsOk(s) && t.gen == s.c.gen
    ensures Held(t) <= s.c.live
  {
    forall b | b in Held(t) ensures b in s.c.live {
      assert Trusted(s, t.gen, b);
    }
  }

  /** A step of one thread that leaves the shared state alone. */
  predicate Private(a: Step) {
    match a
    case Miss(_, _, _, _, _, _) => false
    case Chain(_, _) => false
    case Invalidate(_, _) => false
    case InvalidateAll => false
    case Reclaim => false
    case _ => true
  }

  lemma HeldGrowsByLive(s: State, a: Step)
    requires ChainsLandLive(s) && Enabled(s, a) && Private(a)
    requires a.Hit? || a.Follow? || a.FollowOut? || a.Call? || a.Return? || a.Exit? || a.Again?
    ensures Apply(s, a).threads[a.t].gen == s.threads[a.t].gen
    ensures Inside(s.threads[a.t].phase)
    ensures Held(Apply(s, a).threads[a.t]) <= Held(s.threads[a.t]) + s.c.live
  {
    var th, th' := s.threads[a.t], Apply(s, a).threads[a.t];
    match a
    case Hit(_, k, _) => assert th.cache[k] in th.cache.Values;
    case Return(_, k, _) => assert th.ret[k] in th.ret.Values;
    case Call(_, k) =>
      forall b | b in th'.ret.Values ensures b in th.ret.Values || b == th.phase.block {
      }
    case _ =>
  }

  lemma PrivateStepKeepsThread(s: State, a: Step)
    requires ChainsLandLive(s) && StampsOk(s) && Enabled(s, a) && Private(a) && ThreadOk(s, s.threads[a.t])
    ensures ThreadOk(s, Apply(s, a).threads[a.t])
  {
    var th, th' := s.threads[a.t], Apply(s, a).threads[a.t];
    if a.Hit? || a.Follow? || a.FollowOut? || a.Call? || a.Return? || a.Exit? || a.Again? {
      HeldGrowsByLive(s, a);
    } else if a.Refresh? || a.Flush? {
      assert Held(th') == {};
    } else if a.Enter? || a.Leave? {
      assert Held(th') <= Held(th);
    } else {
      assert a.Compare? || a.CheckGen?;
      if th.gen != s.c.gen {
        assert Held(th') == {};
      } else {
        CurrentHoldsLive(s, th);
        assert Held(th') <= Held(th);
      }
    }
  }

  /** The other threads are not disturbed when the shared state moves on. */
  lemma OthersCarry(s: State, s': State, t: Tid, th': Thread)
    requires ThreadsOk(s) && MovesOn(s, s') && s'.threads == s.threads[t := th'] && ThreadOk(s', th')
    ensures ThreadsOk(s')
  {
    forall u | u in s'.threads ensures ThreadOk(s', s'.threads[u]) {
      if u != t {
        assert ThreadOk(s, s.threads[u]);
        ThreadCarries(s, s', s.threads[u]);
      }
    }
  }

  lemma AllCarry(s: State, s': State)
    requires ThreadsOk(s) && MovesOn(s, s') && s'.threads == s.threads
    ensures ThreadsOk(s')
  {
    forall u | u in s'.threads ensures ThreadOk(s', s'.threads[u]) {
      assert ThreadOk(s, s.threads[u]);
      ThreadCarries(s, s', s.threads[u]);
    }
  }

  lemma PrivateStepIsPrivate(s: State, a: Step)
    requires Enabled(s, a) && Private(a)
    ensures var s' := Apply(s, a);
            s'.c == s.c && s'.retiredAt == s.retiredAt && s'.threads == s.threads[a.t := s'.threads[a.t]]
  {
  }

  lemma PrivateStepKeepsThreads(s: State, a: Step)
    requires ChainsLandLive(s) && StampsOk(s) && ThreadsOk(s) && Enabled(s, a) && Private(a)
    ensures ThreadsOk(Apply(s, a))
  {
    var s' := Apply(s, a);
    PrivateStepIsPrivate(s, a);
    assert ThreadOk(s, s.threads[a.t]);
    PrivateStepKeepsThread(s, a);
    ThreadCarries(s, s', s'.threads[a.t]);
    OthersCarry(s, s', a.t, s'.threads[a.t]);
  }

  lemma PrivateStepKeepsInv(s: State, a: Step)
    requires Inv(s) && Enabled(s, a) && Private(a)
    ensures Inv(Apply(s, a))
  {
    CacheChainsLandLive(s);
    PrivateStepKeepsThreads(s, a);
    PrivateStepIsPrivate(s, a);
  }

  lemma FetchFacts(c: Cache, ip: nat, id: Id, b: Block, eager: Eager)
    requires CacheInv(c) && id !in c.blocks && BlockOk(b) && b.addr == ip
    ensures var (c', found) := Fetching(c, ip, id, b, eager);
            && CacheInv(c') && c'.gen == c.gen
            && found in c'.live && found in c'.blocks && Find(c', ip) == Some(found)
            && (c' == c || (c'.live == c.live + {id} && c'.blocks == c.blocks[id := b]))
  {
    if Find(c, ip).Some? {
      FindIsMap(c, ip, Find(c, ip).value);
    } else {
      InsertKeepsInv(c, id, b, eager);
      FindIsMap(Inserting(c, id, b, eager), ip, id);
    }
  }

  lemma MissKeepsThreads(s: State, c': Cache, t: Tid, k: nat, found: Id)
    requires ThreadsOk(s) && t in s.threads && MovesOn(s, s.(c := c')) && s.threads[t].phase == Dispatch
    requires found in c'.live && found in c'.blocks
    ensures var th := s.threads[t];
            ThreadsOk(WithThread(s.(c := c'), t, th.(phase := Fetched(found), cache := th.cache[k := found])))
  {
    var th := s.threads[t];
    var th' := th.(phase := Fetched(found), cache := th.cache[k := found]);
    var s' := WithThread(s.(c := c'), t, th');
    assert ThreadOk(s, th);
    assert MovesOn(s, s');
    ThreadCarries(s, s', th);
    assert th'.cache.Values <= th.cache.Values + {found};
    OthersCarry(s, s', t, th');
  }

  lemma InsertMovesOn(s: State, c': Cache, id: Id, b: Block)
    requires StampsOk(s) && id !in s.c.blocks && id !in s.retiredAt && c'.gen == s.c.gen
    requires c' == s.c || (c'.live == s.c.live + {id} && c'.blocks == s.c.blocks[id := b])
    ensures MovesOn(s, s.(c := c')) && StampsOk(s.(c := c'))
  {
    assert c' != s.c ==> c'.blocks.Keys == s.c.blocks.Keys + {id};
  }

  lemma FetchMovesOn(s: State, ip: nat, id: Id, b: Block, eager: Eager)
    requires CacheInv(s.c) && StampsOk(s) && id !in s.c.blocks && id !in s.retiredAt && BlockOk(b) && b.addr == ip
    ensures var c' := Fetching(s.c, ip, id, b, eager).0;
            && CacheInv(c') && StampsOk(s.(c := c')) && MovesOn(s, s.(c := c'))
            && Fetching(s.c, ip, id, b, eager).1 in c'.live * c'.blocks.Keys
  {
    FetchFacts(s.c, ip, id, b, eager);
    InsertMovesOn(s, Fetching(s.c, ip, id, b, eager).0, id, b);
  }

  lemma MissShared(s: State, a: Step)
    requires CacheInv(s.c) && StampsOk(s) && Enabled(s, a) && a.Miss?
    ensures var c' := Fetching(s.c, a.ip, a.id, a.b, a.eager).0;
            && CacheInv(c') && StampsOk(s.(c := c')) && MovesOn(s, s.(c := c'))
            && Fetching(s.c, a.ip, a.id, a.b, a.eager).1 in c'.live * c'.blocks.Keys
  {
    FetchMovesOn(s, a.ip, a.id, a.b, a.eager);
  }

  lemma MissKeepsInv(s: State, a: Step)
    requires Inv(s) && Enabled(s, a) && a.Miss?
    ensures Inv(Apply(s, a))
  {
    MissShared(s, a);
    var (c', found) := Fetching(s.c, a.ip, a.id, a.b, a.eager);
    MissKeepsThreads(s, c', a.t, a.k, found);
  }

  lemma ChainKeepsThreads(s: State, c': Cache, t: Tid)
    requires ThreadsOk(s) && t in s.threads && OnlyChains(s.c, c') && s.threads[t].phase.Fetched?
    ensures var th := s.threads[t];
            ThreadsOk(WithThread(s.(c := c'), t, th.(phase := Running(th.phase.block), last := Some(th.phase.block))))
  {
    var th := s.threads[t];
    var th' := th.(phase := Running(th.phase.block), last := Some(th.phase.block));
    var s' := WithThread(s.(c := c'), t, th');
    assert ThreadOk(s, th);
    ThreadCarries(s, s', th);
    OthersCarry(s, s', t, th');
  }

  lemma ChainStepKeepsInv(s: State, a: Step)
    requires Inv(s) && Enabled(s, a) && a.Chain?
    ensures Inv(Apply(s, a))
  {
    var th := s.threads[a.t];
    if th.last.Some? && a.locked {
      ChainBothKeepsInv(s.c, th.last.value, th.phase.block);
      ChainKeepsThreads(s, ChainedBoth(s.c, th.last.value, th.phase.block), a.t);
    } else {
      ChainKeepsThreads(s, s.c, a.t);
    }
  }

  lemma RetiringKeepsInv(s: State, c': Cache)
    requires Inv(s) && CacheInv(c') && c'.blocks == s.c.blocks && c'.live <= s.c.live
    requires c'.gen == if c'.live == s.c.live then s.c.gen else s.c.gen + 1
    ensures Inv(Stamped(s, c'))
  {
    RetiringMovesOn(s, c');
    AllCarry(s, Stamped(s, c'));
  }

  lemma RetiringMovesOn(s: State, c': Cache)
    requires StampsOk(s) && c'.blocks == s.c.blocks && c'.live <= s.c.live
    requires c'.gen == if c'.live == s.c.live then s.c.gen else s.c.gen + 1
    ensures MovesOn(s, Stamped(s, c')) && StampsOk(Stamped(s, c'))
  {
  }

  lemma InvalidateKeepsInv(s: State, start: nat, end: nat)
    requires Inv(s)
    ensures Inv(Apply(s, Invalidate(start, end)))
  {
    var c' := Invalidated(s.c, start, end);
    InvalidationFacts(s.c, start, end);
    RetiringKeepsInv(s, c');
    assert Apply(s, Invalidate(start, end)) == Stamped(s, c');
  }

  lemma InvalidateAllKeepsInv(s: State)
    requires Inv(s)
    ensures Inv(Apply(s, InvalidateAll))
  {
    InvalidateKeepsInv(s, 0, |s.c.index.page0|);
    assert Apply(s, InvalidateAll) == Apply(s, Invalidate(0, |s.c.index.page0|));
  }

  lemma ReclaimKeepsThreads(s: State, c': Cache)
    requires ThreadsOk(s) && Enabled(s, Reclaim) && c'.live == s.c.live && c'.gen == s.c.gen
    ensures ThreadsOk(s.(c := c'))
  {
    var s' := s.(c := c');
    forall u | u in s'.threads ensures ThreadOk(s', s'.threads[u]) {
      assert ThreadOk(s, s.threads[u]);
      assert PhaseOf(s, u) == Outside;
      forall b | b in Held(s.threads[u]) ensures Trusted(s', s.threads[u].gen, b) {
        assert Trusted(s, s.threads[u].gen, b);
      }
    }
  }

  lemma ReclaimKeepsInv(s: State)
    requires Inv(s) && Enabled(s, Reclaim)
    ensures Inv(Apply(s, Reclaim))
  {
    FreeKeepsInv(s.c);
    ReclaimKeepsThreads(s, Freed(s.c));
  }

  lemma StepKeepsInv(s: State, a: Step)
    requires Inv(s) && Enabled(s, a)
    ensures Inv(Apply(s, a))
  {
    if Private(a) {
      PrivateStepKeepsInv(s, a);
    } else if a.Miss? {
      MissKeepsInv(s, a);
    } else if a.Chain? {
      ChainStepKeepsInv(s, a);
    } else if a.Reclaim? {
      ReclaimKeepsInv(s);
    } else if a.Invalidate? {
      InvalidateKeepsInv(s, a.start, a.end);
    } else {
      InvalidateAllKeepsInv(s);
    }
  }

  // ---------------------------------------------------------------- whole runs

  /** Any number of threads, none of which has started. */
  ghost predicate Init(s: State) {
    && s.c == Empty() && s.retiredAt == map[]
    && forall t :: t in s.threads ==> s.threads[t] == Thread(Outside, map[], map[], None, 0)
  }

  lemma InitInv(s: State)
    requires Init(s)
    ensures Inv(s)
  {
    EmptyInv();
    forall t | t in s.threads ensures ThreadOk(s, s.threads[t]) {
      assert Held(s.threads[t]) == {};
    }
  }

  ghost predicate IsRun(states: seq<State>, steps: seq<Step>) {
    && |states| == |steps| + 1
    && Init(states[0])
    && forall i :: 0 <= i < |steps| ==> Enabled(states[i], steps[i]) && states[i + 1] == Apply(states[i], steps[i])
  }

  lemma {:induction false} RunKeepsInv(states: seq<State>, steps: seq<Step>, n: nat)
    requires IsRun(states, steps) && n < |states|
    ensures Inv(states[n])
  {
    if n == 0 {
      InitInv(states[0]);
    } else {
      RunKeepsInv(states, steps, n - 1);
      StepKeepsInv(states[n - 1], steps[n - 1]);
    }
  }

  /** In every interleaving, no step touches a freed block, and no block is freed twice. */
  lemma NoUseAfterFree(states: seq<State>, steps: seq<Step>, n: nat)
    requires IsRun(states, steps) && n < |steps|
    ensures Enabled(states[n], steps[n]) && Touches(states[n], steps[n]) <= states[n].c.blocks.Keys
    ensures steps[n].Reclaim? ==> NoDuplicates(states[n].c.jetsam)
  {
    RunKeepsInv(states, steps, n);
    TouchesAllocated(states[n], steps[n]);
  }

  /** In every interleaving, a chained jump goes to the block a lookup would find. */
  lemma ChainedJumpsAgreeWithLookup(states: seq<State>, steps: seq<Step>, n: nat, j: Jump)
    requires IsRun(states, steps) && n < |states| && CanFollow(states[n], j)
    ensures HasSlot(states[n].c.blocks, j) && FakeTarget(Original(states[n].c.blocks, j)).Some?
    ensures Find(states[n].c, FakeTarget(Original(states[n].c.blocks, j)).value)
         == Some(states[n].c.links.slot[j].block)
  {
    RunKeepsInv(states, steps, n);
    ChainedDispatchIsLookup(states[n].c, j);
  }

  /**
   In every interleaving: a slot compiled for a guest address of 48 bits holds the compiler's word, or the code of
   the live block at that address, which is the one a lookup finds.
   */
  lemma SlotsAreWordsOrBlocks(states: seq<State>, steps: seq<Step>, n: nat, j: Jump, a: nat)
    requires IsRun(states, steps) && n < |states| && a < 0x1_0000_0000_0000
    requires HasSlot(states[n].c.blocks, j) && states[n].c.blocks[j.src].jumps[j.i] == Some(CompiledWord(a))
    ensures var c := states[n].c;
            && j in c.links.slot
            && (|| c.links.slot[j] == Guest(CompiledWord(a))
                || (&& c.links.slot[j].Code? && c.links.slot[j].block in c.live && c.links.slot[j].block in c.blocks
                    && c.blocks[c.links.slot[j].block].addr == a && Find(c, a) == Some(c.links.slot[j].block)))
  {
    RunKeepsInv(states, steps, n);
    CompiledWordIs(a);
    SlotHoldsWordOrBlock(states[n].c.links, states[n].c.blocks, states[n].c.live, j, a);
    SlotIsWordOrLookup(states[n].c, j, a);
  }

  /**
   In every interleaving, a thread runs the code it asks for: a dispatch to an address ends with a block for that
   address, from the private cache or not, and a chained jump ends in the block for the address it was compiled for.
   */
  lemma ThreadsRunWhatTheyAsk(states: seq<State>, steps: seq<Step>, n: nat)
    requires IsRun(states, steps) && n < |steps|
    ensures steps[n].Hit? || steps[n].Miss? ==>
              var th := states[n + 1].threads[steps[n].t];
              && th.phase.Fetched? && th.phase.block in states[n + 1].c.blocks
              && states[n + 1].c.blocks[th.phase.block].addr == steps[n].ip
    ensures steps[n].Follow? ==>
              var from, now := PhaseOf(states[n], steps[n].t).block, PhaseOf(states[n + 1], steps[n].t);
              && now.Running? && HasSlot(states[n].c.blocks, Jump(from, steps[n].i))
              && now.block in states[n].c.live && now.block in states[n].c.blocks
              && forall a {:trigger CompiledWord(a)} ::
                   a < 0x1_0000_0000_0000 && states[n].c.blocks[from].jumps[steps[n].i] == Some(CompiledWord(a)) ==>
                     states[n].c.blocks[now.block].addr == a
  {
    var s, step := states[n], steps[n];
    RunKeepsInv(states, steps, n);
    assert Enabled(s, step) && states[n + 1] == Apply(s, step);
    if step.Miss? {
      FetchFacts(s.c, step.ip, step.id, step.b, step.eager);
      FindIsMap(Fetching(s.c, step.ip, step.id, step.b, step.eager).0, step.ip, Fetching(s.c, step.ip, step.id, step.b, step.eager).1);
    } else if step.Follow? {
      FollowLands(s, step.t, step.i);
    }
  }

  lemma FollowLands(s: State, t: Tid, i: nat)
    requires CacheInv(s.c) && Enabled(s, Follow(t, i))
    ensures var from := PhaseOf(s, t).block; var to := s.c.links.slot[Jump(from, i)].block;
            && HasSlot(s.c.blocks, Jump(from, i)) && to in s.c.live && to in s.c.blocks
            && forall a {:trigger CompiledWord(a)} ::
                 a < 0x1_0000_0000_0000 && s.c.blocks[from].jumps[i] == Some(CompiledWord(a)) ==> s.c.blocks[to].addr == a
  {
    var j := Jump(PhaseOf(s, t).block, i);
    assert SlotOk(s.c.links, s.c.blocks, s.c.live, j);
    forall a | a < 0x1_0000_0000_0000 && s.c.blocks[j.src].jumps[i] == Some(CompiledWord(a))
      ensures s.c.blocks[s.c.links.slot[j].block].addr == a
    {
      CompiledWordIs(a);
      SlotHoldsWordOrBlock(s.c.links, s.c.blocks, s.c.live, j, a);
    }
  }

  /** A thread whose generation is current gets from its private cache what a lookup would give it. */
  lemma CurrentHitIsLookup(states: seq<State>, steps: seq<Step>, n: nat, t: Tid, k: nat, ip: nat)
    requires IsRun(states, steps) && n < |states| && Enabled(states[n], Hit(t, k, ip))
    requires states[n].threads[t].gen == states[n].c.gen
    ensures Find(states[n].c, ip) == Some(states[n].threads[t].cache[k])
  {
    var s := states[n];
    RunKeepsInv(states, steps, n);
    assert ThreadOk(s, s.threads[t]);
    CurrentHoldsLive(s, s.threads[t]);
    assert s.threads[t].cache[k] in s.threads[t].cache.Values;
    FindIsMap(s.c, ip, s.threads[t].cache[k]);
  }
}
