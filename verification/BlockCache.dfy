/**
 The cache of translated blocks as a whole (struct asbestos): index, chaining, the list of retired blocks and
 the invalidation counter.  Every operation the code performs under the lock is a function here that keeps
 `CacheInv`; what invalidation retires is pinned down exactly.
 */
module BlockCache {
  import opened Common
  import opened BucketTable
  import opened BlockIndex
  import opened BlockChaining

  /** `live` holds the blocks whose is_jetsam flag is clear; `blocks` every block not yet freed. */
  datatype Cache = Cache(blocks: Blocks, live: set<Id>, index: Index, links: Links, jetsam: seq<Id>, gen: nat)

  ghost predicate CacheInv(c: Cache) {
    && IndexInv(c.index, c.blocks, c.live)
    && LinkInv(c.links, c.blocks, c.live)
    && JetsamOk(c)
  }

  /** The jetsam list holds each retired block that is not freed, once. */
  ghost predicate JetsamOk(c: Cache) {
    && NoDuplicates(c.jetsam)
    && forall id {:trigger id in c.jetsam} :: id in c.jetsam <==> id in c.blocks && id !in c.live
  }

  /** asbestos_new */
  function Empty(): Cache {
    Cache(map[], {}, Index(EmptyTable(INITIAL_HASH_SIZE), EmptyTable(PAGE_HASH_SIZE), EmptyTable(PAGE_HASH_SIZE), 0, 0),
          Links(map[], map[], map[]), [], 0)
  }

  lemma EmptyInv()
    ensures CacheInv(Empty())
  {
    EmptyOk(INITIAL_HASH_SIZE);
    EmptyOk(PAGE_HASH_SIZE);
    assert HashKey(map[], {}, INITIAL_HASH_SIZE) == map[];
    assert Page0Key(map[], {}) == map[];
    assert Page1Key(map[], {}) == map[];
  }

  /** fiber_lookup */
  function Find(c: Cache, addr: nat): Option<Id> {
    Lookup(c.index, c.blocks, addr)
  }

  /** The hash answers like a plain map from address to live block. */
  lemma FindIsMap(c: Cache, addr: nat, id: Id)
    requires CacheInv(c)
    ensures Find(c, addr) == Some(id) <==> id in c.live && id in c.blocks && c.blocks[id].addr == addr
  {
    LookupFindsLive(c.index, c.blocks, c.live, addr, id);
  }

  // ---------------------------------------------------------------- retiring blocks

  /** fiber_block_disconnect and the lines after it in asbestos_invalidate_range. */
  function Retired(c: Cache, id: Id): Cache {
    if id !in c.blocks then c
    else c.(index := Removed(c.index, id, c.blocks[id]),
            links := Disconnected(c.links, c.blocks, id),
            live := c.live - {id},
            jetsam := [id] + c.jetsam)
  }

  lemma RetireKeepsInv(c: Cache, id: Id)
    requires CacheInv(c) && id in c.live
    ensures CacheInv(Retired(c, id)) && id in c.blocks
  {
    RemoveKeepsIndex(c.index, c.blocks, c.live, id);
    DisconnectedMayRetire(c.links, c.blocks, c.live, id);
    RetireKeepsJetsam(c, id);
  }

  lemma RetireKeepsJetsam(c: Cache, id: Id)
    requires JetsamOk(c) && id in c.live && c.live <= c.blocks.Keys
    ensures JetsamOk(Retired(c, id))
  {
    assert id !in c.jetsam;
  }

  /** Retiring the blocks of a list, front to back. */
  function RetiredAll(c: Cache, ids: seq<Id>): (c': Cache)
    ensures c'.blocks == c.blocks && c'.gen == c.gen
    ensures (forall id :: id in ids ==> id in c.blocks) ==> c'.live == c.live - set id | id in ids
    decreases |ids|
  {
    if ids == [] then c else RetiredAll(Retired(c, ids[0]), ids[1..])
  }

  lemma {:induction false} RetireAllKeepsInv(c: Cache, ids: seq<Id>)
    requires CacheInv(c) && NoDuplicates(ids) && forall id :: id in ids ==> id in c.live
    ensures CacheInv(RetiredAll(c, ids))
    decreases |ids|
  {
    if ids != [] {
      RetireKeepsInv(c, ids[0]);
      assert forall id :: id in ids[1..] ==> id in ids && id != ids[0];
      RetireAllKeepsInv(Retired(c, ids[0]), ids[1..]);
    }
  }

  /** The blocks listed in one bucket of the first page table, then those in the second. */
  function BucketRetired(c: Cache, h: nat): (c': Cache)
    ensures c'.blocks == c.blocks && c'.gen == c.gen
  {
    if h >= |c.index.page0| then c
    else
      var c1 := RetiredAll(c, c.index.page0[h]);
      if h >= |c1.index.page1| then c1 else RetiredAll(c1, c1.index.page1[h])
  }

  /** The block starts or ends in a page that falls into bucket `h`. */
  predicate InBucket(b: Block, h: nat) {
    || Page(b.addr) % PAGE_HASH_SIZE == h
    || (TwoPages(b) && Page(b.endAddr) % PAGE_HASH_SIZE == h)
  }

  /** The page lists hold live blocks, each once. */
  lemma PageListsLive(c: Cache, h: nat)
    requires CacheInv(c) && h < PAGE_HASH_SIZE
    ensures h < |c.index.page0| && NoDuplicates(c.index.page0[h]) && forall id :: id in c.index.page0[h] ==> id in c.live
    ensures h < |c.index.page1| && NoDuplicates(c.index.page1[h]) && forall id :: id in c.index.page1[h] ==> id in c.live
  {
    forall id ensures id in c.index.page0[h] || id in c.index.page1[h] ==> id in c.live {
      PageBuckets(c.index, c.blocks, c.live, h, id);
    }
    PageBuckets(c.index, c.blocks, c.live, h, 0);
  }

  lemma FirstTableRetired(c: Cache, h: nat)
    requires CacheInv(c) && h < PAGE_HASH_SIZE
    ensures var c1 := RetiredAll(c, c.index.page0[h]);
            && CacheInv(c1)
            && forall id :: id in c1.live <==> id in c.live && Page(c.blocks[id].addr) % PAGE_HASH_SIZE != h
  {
    forall id ensures id in c.index.page0[h] <==> id in c.live && Page(c.blocks[id].addr) % PAGE_HASH_SIZE == h {
      PageBuckets(c.index, c.blocks, c.live, h, id);
    }
    PageBuckets(c.index, c.blocks, c.live, h, 0);
    RetireAllKeepsInv(c, c.index.page0[h]);
  }

  lemma SecondTableRetired(c: Cache, h: nat)
    requires CacheInv(c) && h < PAGE_HASH_SIZE
    ensures var c1 := RetiredAll(c, c.index.page1[h]);
            && CacheInv(c1)
            && forall id :: id in c1.live <==>
                 id in c.live && !(TwoPages(c.blocks[id]) && Page(c.blocks[id].endAddr) % PAGE_HASH_SIZE == h)
  {
    forall id
      ensures id in c.index.page1[h] <==>
                id in c.live && TwoPages(c.blocks[id]) && Page(c.blocks[id].endAddr) % PAGE_HASH_SIZE == h
    {
      PageBuckets(c.index, c.blocks, c.live, h, id);
    }
    PageBuckets(c.index, c.blocks, c.live, h, 0);
    RetireAllKeepsInv(c, c.index.page1[h]);
  }

  lemma BucketRetiredExactly(c: Cache, h: nat)
    requires CacheInv(c) && h < PAGE_HASH_SIZE
    ensures CacheInv(BucketRetired(c, h))
    ensures forall id :: id in BucketRetired(c, h).live <==> id in c.live && !InBucket(c.blocks[id], h)
  {
    FirstTableRetired(c, h);
    SecondTableRetired(RetiredAll(c, c.index.page0[h]), h);
  }

  function PagesRetired(c: Cache, start: nat, end: nat): (c': Cache)
    ensures c'.blocks == c.blocks && c'.gen == c.gen
    decreases end - start
  {
    if start >= end then c
    else PagesRetired(BucketRetired(c, start % PAGE_HASH_SIZE), start + 1, end)
  }

  lemma FirstPageRetired(c: Cache, start: nat, end: nat)
    requires start < end <= PAGE_HASH_SIZE
    ensures PagesRetired(c, start, end) == PagesRetired(BucketRetired(c, start), start + 1, end)
  {
    assert start % PAGE_HASH_SIZE == start;
  }

  lemma NoPageLeft(c: Cache, start: nat, end: nat)
    requires start >= end
    ensures PagesRetired(c, start, end) == c
  {
  }

  /** Some page of the range shares a bucket with a page of the block. */
  ghost predicate Hit(b: Block, start: nat, end: nat) {
    exists p: nat :: start <= p < end && InBucket(b, p % PAGE_HASH_SIZE)
  }

  lemma HitNext(b: Block, start: nat, end: nat)
    requires start < end
    ensures Hit(b, start, end) <==> InBucket(b, start % PAGE_HASH_SIZE) || Hit(b, start + 1, end)
  {
  }

  lemma {:induction false} PagesRetiredExactly(c: Cache, start: nat, end: nat)
    requires CacheInv(c)
    ensures CacheInv(PagesRetired(c, start, end))
    ensures forall id :: id in PagesRetired(c, start, end).live <==> id in c.live && !Hit(c.blocks[id], start, end)
    decreases end - start
  {
    if start < end {
      var c1 := BucketRetired(c, start % PAGE_HASH_SIZE);
      BucketRetiredExactly(c, start % PAGE_HASH_SIZE);
      PagesRetiredExactly(c1, start + 1, end);
      forall id
        ensures id in PagesRetired(c1, start + 1, end).live <==> id in c.live && !Hit(c.blocks[id], start, end)
      {
        if id in c.live {
          HitNext(c.blocks[id], start, end);
        }
      }
    }
  }

  /** The counter moves when at least one block was retired. */
  function Bumped(c: Cache, c': Cache): Cache {
    if c'.live == c.live then c' else c'.(gen := c.gen + 1)
  }

  /** asbestos_invalidate_range */
  function Invalidated(c: Cache, start: nat, end: nat): Cache {
    Bumped(c, PagesRetired(c, start, end))
  }

  /** asbestos_invalidate_all goes through every bucket. */
  function AllInvalidated(c: Cache): Cache {
    Invalidated(c, 0, |c.index.page0|)
  }

  /** Exactly the blocks that share a bucket with the range go, so no live block touches a page of it. */
  lemma InvalidationIsExact(c: Cache, start: nat, end: nat)
    requires CacheInv(c)
    ensures CacheInv(Invalidated(c, start, end))
    ensures forall id :: id in Invalidated(c, start, end).live <==> id in c.live && !Hit(c.blocks[id], start, end)
    ensures forall id, p: nat :: id in Invalidated(c, start, end).live && start <= p < end ==> !Meets(c.blocks[id], p)
    ensures forall id, x: nat {:trigger NoByte(c.blocks, id, x)} ::
              id in Invalidated(c, start, end).live && start * 4096 <= x < end * 4096 ==> NoByte(c.blocks, id, x)
  {
    PagesRetiredExactly(c, start, end);
    var c' := Invalidated(c, start, end);
    assert BlocksOk(c.blocks);
    forall id, p: nat | id in c'.live && start <= p < end ensures !Meets(c.blocks[id], p) {
      MeetsFirstOrLast(c.blocks[id], p);
      assert !InBucket(c.blocks[id], p % PAGE_HASH_SIZE);
    }
    forall id, x: nat | id in c'.live && start * 4096 <= x < end * 4096 ensures NoByte(c.blocks, id, x) {
      assert !Meets(c.blocks[id], Page(x));
    }
  }

  /** The guest byte at `x` is not one the block was translated from. */
  predicate NoByte(blocks: Blocks, id: Id, x: nat) {
    id in blocks && !(blocks[id].addr <= x <= blocks[id].endAddr)
  }

  lemma EveryBlockIsHit(b: Block)
    ensures Hit(b, 0, PAGE_HASH_SIZE)
  {
    var h := Page(b.addr) % PAGE_HASH_SIZE;
    assert InBucket(b, h % PAGE_HASH_SIZE);
  }

  /** Going through every bucket leaves no live block at all. */
  lemma AllInvalidationIsTotal(c: Cache)
    requires CacheInv(c)
    ensures CacheInv(AllInvalidated(c)) && AllInvalidated(c).live == {}
  {
    InvalidationIsExact(c, 0, |c.index.page0|);
    forall id | id in c.live ensures Hit(c.blocks[id], 0, |c.index.page0|) {
      EveryBlockIsHit(c.blocks[id]);
    }
  }

  /** What an invalidation does to the rest of the cache. */
  lemma InvalidationFacts(c: Cache, start: nat, end: nat)
    requires CacheInv(c)
    ensures var c' := Invalidated(c, start, end);
            && CacheInv(c') && c'.blocks == c.blocks && c'.live <= c.live
            && c'.gen == if c'.live == c.live then c.gen else c.gen + 1
  {
    PagesRetiredExactly(c, start, end);
  }

  /** fiber_free_jetsam */
  function Freed(c: Cache): Cache {
    var gone := set id | id in c.jetsam;
    c.(blocks := c.blocks - gone, links := Forget(c.links, gone), jetsam := [])
  }

  /** Freeing the jetsam list leaves exactly the live blocks. */
  lemma FreeKeepsInv(c: Cache)
    requires CacheInv(c)
    ensures CacheInv(Freed(c)) && Freed(c).blocks.Keys == c.live
  {
    var gone := set id | id in c.jetsam;
    assert gone !! c.live;
    ForgetKeepsIndex(c.index, c.blocks, c.live, gone);
    ForgetKeepsLinks(c.links, c.blocks, c.live, gone);
    forall id ensures id in Freed(c).blocks <==> id in c.live {
      assert id in c.jetsam || id !in c.jetsam;
    }
  }

  // ---------------------------------------------------------------- inserting and chaining

  /** A new block under an address nobody has, before any chaining. */
  function Added(c: Cache, id: Id, b: Block): Cache
    requires |b.jumps| == 2
  {
    c.(index := Inserted(c.index, c.blocks, c.live, id, b),
       links := Fresh(c.links, id, b),
       blocks := c.blocks[id := b],
       live := c.live + {id})
  }

  lemma AddKeepsInv(c: Cache, id: Id, b: Block)
    requires CacheInv(c) && id !in c.blocks && BlockOk(b) && Find(c, b.addr).None?
    ensures CacheInv(Added(c, id, b))
  {
    InsertKeepsIndex(c.index, c.blocks, c.live, id, b);
    FreshKeepsLinks(c.links, c.blocks, c.live, id, b);
    AddKeepsJetsam(c, id, b);
  }

  lemma AddKeepsJetsam(c: Cache, id: Id, b: Block)
    requires JetsamOk(c) && id !in c.blocks && |b.jumps| == 2
    ensures JetsamOk(Added(c, id, b))
  {
    assert id !in c.jetsam;
  }

  /** Chain slot `j` to `t` if both are live and the slot still names the address of `t`. */
  function Chained(c: Cache, j: Jump, t: Id): Cache {
    c.(links := TryChain(c.links, c.blocks, c.live, j, t))
  }

  lemma ChainKeepsInv(c: Cache, j: Jump, t: Id)
    requires CacheInv(c)
    ensures CacheInv(Chained(c, j, t))
  {
    TryChainKeepsLinks(c.links, c.blocks, c.live, j, t);
  }

  /** The chaining step of cpu_step_to_interrupt: both slots of the block just left. */
  function ChainedBoth(c: Cache, last: Id, t: Id): Cache {
    Chained(Chained(c, Jump(last, 0), t), Jump(last, 1), t)
  }

  /** fiber_prechain_patch_slot: only within a page. */
  function Prechained(c: Cache, j: Jump, t: Id): Cache {
    if j.src in c.blocks && t in c.blocks && Page(c.blocks[j.src].addr) == Page(c.blocks[t].addr) then Chained(c, j, t)
    else c
  }

  /** One round of fiber_prechain_outgoing_same_page. */
  function SlotPrechained(c: Cache, id: Id, i: nat): Cache {
    var j := Jump(id, i);
    if j !in c.links.slot || id !in c.blocks then c
    else match FakeTarget(c.links.slot[j])
      case None => c
      case Some(target) =>
        if Page(c.blocks[id].addr) != Page(target) then c
        else match Find(c, target)
          case None => c
          case Some(t) => Prechained(c, j, t)
  }

  const SCAN_LIMIT: nat := 2

  /** fiber_prechain_incoming_same_page: at most two other blocks of the page bucket are looked at. */
  function ScanPrechained(c: Cache, id: Id, sources: seq<Id>, scanned: nat): Cache
    decreases |sources|
  {
    if sources == [] then c
    else if sources[0] == id then ScanPrechained(c, id, sources[1..], scanned)
    else if scanned >= SCAN_LIMIT then c
    else
      var c1 := Prechained(Prechained(c, Jump(sources[0], 0), id), Jump(sources[0], 1), id);
      ScanPrechained(c1, id, sources[1..], scanned + 1)
  }

  lemma ScanUnfolds(c: Cache, id: Id, sources: seq<Id>, k: nat, scanned: nat)
    requires k < |sources|
    ensures ScanPrechained(c, id, sources[k..], scanned)
         == if sources[k] == id then ScanPrechained(c, id, sources[k + 1..], scanned)
            else if scanned >= SCAN_LIMIT then c
            else ScanPrechained(Prechained(Prechained(c, Jump(sources[k], 0), id), Jump(sources[k], 1), id),
                                id, sources[k + 1..], scanned + 1)
  {
    assert sources[k..][0] == sources[k] && sources[k..][1..] == sources[k + 1..];
  }

  function PageSources(c: Cache, id: Id): seq<Id> {
    if id !in c.blocks || |c.index.page0| != PAGE_HASH_SIZE then []
    else c.index.page0[Page(c.blocks[id].addr) % PAGE_HASH_SIZE]
  }

  /** Whether blocks are chained as they are inserted, and whether older blocks are chained to them. */
  datatype Eager = Eager(outgoing: bool, incoming: bool)

  function EagerlyChained(c: Cache, id: Id, eager: Eager): Cache {
    if !eager.outgoing then c
    else
      var c1 := SlotPrechained(SlotPrechained(c, id, 0), id, 1);
      if eager.incoming then ScanPrechained(c1, id, PageSources(c1, id), 0) else c1
  }

  /** fiber_insert */
  function Inserting(c: Cache, id: Id, b: Block, eager: Eager): Cache
    requires |b.jumps| == 2
  {
    EagerlyChained(Added(c, id, b), id, eager)
  }

  /** Chaining changes nothing but the chains. */
  ghost predicate OnlyChains(c: Cache, c': Cache) {
    c' == c.(links := c'.links)
  }

  lemma PrechainKeepsInv(c: Cache, j: Jump, t: Id)
    requires CacheInv(c)
    ensures CacheInv(Prechained(c, j, t)) && OnlyChains(c, Prechained(c, j, t))
  {
    ChainKeepsInv(c, j, t);
  }

  lemma SlotPrechainKeepsInv(c: Cache, id: Id, i: nat)
    requires CacheInv(c)
    ensures CacheInv(SlotPrechained(c, id, i)) && OnlyChains(c, SlotPrechained(c, id, i))
  {
    var j := Jump(id, i);
    if j in c.links.slot && FakeTarget(c.links.slot[j]).Some? {
      var t := Find(c, FakeTarget(c.links.slot[j]).value);
      if t.Some? {
        PrechainKeepsInv(c, j, t.value);
      }
    }
  }

  lemma {:induction false} ScanPrechainKeepsInv(c: Cache, id: Id, sources: seq<Id>, scanned: nat)
    requires CacheInv(c)
    ensures CacheInv(ScanPrechained(c, id, sources, scanned)) && OnlyChains(c, ScanPrechained(c, id, sources, scanned))
    decreases |sources|
  {
    if sources == [] {
    } else if sources[0] == id {
      ScanPrechainKeepsInv(c, id, sources[1..], scanned);
    } else if scanned < SCAN_LIMIT {
      var c0 := Prechained(c, Jump(sources[0], 0), id);
      PrechainKeepsInv(c, Jump(sources[0], 0), id);
      PrechainKeepsInv(c0, Jump(sources[0], 1), id);
      ScanPrechainKeepsInv(Prechained(c0, Jump(sources[0], 1), id), id, sources[1..], scanned + 1);
    }
  }

  lemma EagerChainKeepsInv(c: Cache, id: Id, eager: Eager)
    requires CacheInv(c)
    ensures CacheInv(EagerlyChained(c, id, eager)) && OnlyChains(c, EagerlyChained(c, id, eager))
  {
    if eager.outgoing {
      var c0 := SlotPrechained(c, id, 0);
      var c1 := SlotPrechained(c0, id, 1);
      SlotPrechainKeepsInv(c, id, 0);
      SlotPrechainKeepsInv(c0, id, 1);
      ScanPrechainKeepsInv(c1, id, PageSources(c1, id), 0);
    }
  }

  /** fiber_insert keeps the invariant and makes the new block the answer for its address. */
  lemma InsertKeepsInv(c: Cache, id: Id, b: Block, eager: Eager)
    requires CacheInv(c) && id !in c.blocks && BlockOk(b) && Find(c, b.addr).None?
    ensures CacheInv(Inserting(c, id, b, eager))
    ensures OnlyChains(Added(c, id, b), Inserting(c, id, b, eager))
    ensures Find(Inserting(c, id, b, eager), b.addr) == Some(id)
  {
    AddKeepsInv(c, id, b);
    EagerChainKeepsInv(Added(c, id, b), id, eager);
    FindIsMap(Inserting(c, id, b, eager), b.addr, id);
  }

  /** The chaining step of the main loop keeps the invariant. */
  lemma ChainBothKeepsInv(c: Cache, last: Id, t: Id)
    requires CacheInv(c)
    ensures CacheInv(ChainedBoth(c, last, t)) && OnlyChains(c, ChainedBoth(c, last, t))
  {
    ChainKeepsInv(c, Jump(last, 0), t);
    ChainKeepsInv(Chained(c, Jump(last, 0), t), Jump(last, 1), t);
  }

  // ---------------------------------------------------------------- what a chained jump means

  /** A slot compiled for an address holds its word, or the code of the block a lookup of that address finds. */
  lemma SlotIsWordOrLookup(c: Cache, j: Jump, a: nat)
    requires CacheInv(c) && HasSlot(c.blocks, j) && a < 0x1_0000_0000_0000
    requires c.blocks[j.src].jumps[j.i] == Some(0x8000_0000_0000_0000 + a)
    ensures j in c.links.slot
    ensures c.links.slot[j] == Guest(0x8000_0000_0000_0000 + a)
         || (c.links.slot[j].Code? && Find(c, a) == Some(c.links.slot[j].block))
  {
    SlotHoldsWordOrBlock(c.links, c.blocks, c.live, j, a);
    if c.links.slot[j].Code? {
      FindIsMap(c, a, c.links.slot[j].block);
    }
  }

  /** The slot holds the compiler's word for this address of 48 bits. */
  predicate TaggedFor(c: Cache, id: Id, i: nat, a: nat) {
    && i < 2 && a < 0x1_0000_0000_0000
    && Jump(id, i) in c.links.slot && c.links.slot[Jump(id, i)] == Guest(0x8000_0000_0000_0000 + a)
  }

  /** Leaving a block for another one chains a slot exactly if the slot was compiled for the address of the other. */
  lemma LeavingChainsIff(c: Cache, last: Id, t: Id, i: nat, a: nat)
    requires CacheInv(c) && last in c.live && t in c.live && TaggedFor(c, last, i, a)
    ensures t in c.blocks && Jump(last, i) in ChainedBoth(c, last, t).links.slot
    ensures ChainedBoth(c, last, t).links.slot[Jump(last, i)]
         == if c.blocks[t].addr == a then Code(t) else Guest(0x8000_0000_0000_0000 + a)
  {
    TaggedNames(a);
    assert SlotOk(c.links, c.blocks, c.live, Jump(last, i));
    assert Jump(t, i) in c.links.from;
  }

  /** A new block is chained to the block of its page that a slot was compiled for, if there is one, and to no other. */
  lemma OutgoingChainsIff(c: Cache, id: Id, i: nat, a: nat)
    requires CacheInv(c) && id in c.live && TaggedFor(c, id, i, a)
    ensures id in c.blocks && Jump(id, i) in SlotPrechained(c, id, i).links.slot
    ensures SlotPrechained(c, id, i).links.slot[Jump(id, i)]
         == if c.blocks[id].addr / 4096 == a / 4096 && Find(c, a).Some? then Code(Find(c, a).value)
            else Guest(0x8000_0000_0000_0000 + a)
  {
    TaggedNames(a);
    assert SlotOk(c.links, c.blocks, c.live, Jump(id, i));
    if Find(c, a).Some? {
      FindIsMap(c, a, Find(c, a).value);
      assert Jump(Find(c, a).value, i) in c.links.from;
    }
  }

  lemma OtherSlotStays(c: Cache, id: Id, i: nat, j: Jump)
    requires j != Jump(id, i) && j in c.links.slot
    ensures j in SlotPrechained(c, id, i).links.slot && SlotPrechained(c, id, i).links.slot[j] == c.links.slot[j]
  {
  }

  /** The same for both slots of the block, one after the other. */
  lemma OutgoingBothChainIff(c: Cache, id: Id, i: nat, a: nat)
    requires CacheInv(c) && id in c.live && TaggedFor(c, id, i, a)
    ensures id in c.blocks && Jump(id, i) in SlotPrechained(SlotPrechained(c, id, 0), id, 1).links.slot
    ensures SlotPrechained(SlotPrechained(c, id, 0), id, 1).links.slot[Jump(id, i)]
         == if c.blocks[id].addr / 4096 == a / 4096 && Find(c, a).Some? then Code(Find(c, a).value)
            else Guest(0x8000_0000_0000_0000 + a)
  {
    var c1 := SlotPrechained(c, id, 0);
    SlotPrechainKeepsInv(c, id, 0);
    if i == 0 {
      OutgoingChainsIff(c, id, 0, a);
      OtherSlotStays(c1, id, 1, Jump(id, 0));
    } else {
      OtherSlotStays(c, id, 0, Jump(id, 1));
      OutgoingChainsIff(c1, id, 1, a);
    }
  }

  /** A slot is chained to a block of its page exactly if it was compiled for the address of the block. */
  lemma PatchesIff(c: Cache, j: Jump, t: Id, a: nat)
    requires CacheInv(c) && j.src in c.live && t in c.live && TaggedFor(c, j.src, j.i, a)
    ensures j.src in c.blocks && t in c.blocks && j in Prechained(c, j, t).links.slot
    ensures Prechained(c, j, t).links.slot[j]
         == if c.blocks[t].addr == a && c.blocks[j.src].addr / 4096 == a / 4096 then Code(t) else Guest(0x8000_0000_0000_0000 + a)
  {
    TaggedNames(a);
    assert SlotOk(c.links, c.blocks, c.live, j);
    assert Jump(t, j.i) in c.links.from;
  }

  lemma PrechainLeaves(c: Cache, j: Jump, t: Id, other: Jump)
    requires other != j && other in c.links.slot
    ensures other in Prechained(c, j, t).links.slot && Prechained(c, j, t).links.slot[other] == c.links.slot[other]
  {
  }

  lemma {:induction false} ScanLeaves(c: Cache, id: Id, sources: seq<Id>, scanned: nat, j: Jump)
    requires j.src !in sources && j in c.links.slot
    ensures j in ScanPrechained(c, id, sources, scanned).links.slot
    ensures ScanPrechained(c, id, sources, scanned).links.slot[j] == c.links.slot[j]
    decreases |sources|
  {
    if sources == [] {
    } else if sources[0] == id {
      ScanLeaves(c, id, sources[1..], scanned, j);
    } else if scanned < SCAN_LIMIT {
      var c0 := Prechained(c, Jump(sources[0], 0), id);
      PrechainLeaves(c, Jump(sources[0], 0), id, j);
      PrechainLeaves(c0, Jump(sources[0], 1), id, j);
      ScanLeaves(Prechained(c0, Jump(sources[0], 1), id), id, sources[1..], scanned + 1, j);
    }
  }

  /** How many of the first k sources are other blocks. */
  function OthersBefore(sources: seq<Id>, id: Id, k: nat): nat
    requires k <= |sources|
  {
    if k == 0 then 0 else (if sources[0] == id then 0 else 1) + OthersBefore(sources[1..], id, k - 1)
  }

  /** What an incoming jump holds after the scan, if its block is looked at or not. */
  function Incoming(c: Cache, id: Id, s: Id, a: nat, looked: bool): Target {
    if looked && id in c.blocks && s in c.blocks && c.blocks[id].addr == a && c.blocks[s].addr / 4096 == a / 4096 then Code(id)
    else Guest(0x8000_0000_0000_0000 + a)
  }

  /** Both slots of one source. */
  lemma SourceChainsIff(c: Cache, id: Id, s: Id, i: nat, a: nat)
    requires CacheInv(c) && id in c.live && s in c.live && TaggedFor(c, s, i, a)
    ensures var now := Prechained(Prechained(c, Jump(s, 0), id), Jump(s, 1), id);
            Jump(s, i) in now.links.slot && now.links.slot[Jump(s, i)] == Incoming(c, id, s, a, true)
  {
    var c0 := Prechained(c, Jump(s, 0), id);
    PrechainKeepsInv(c, Jump(s, 0), id);
    if i == 0 {
      PatchesIff(c, Jump(s, 0), id, a);
      PrechainLeaves(c0, Jump(s, 1), id, Jump(s, 0));
    } else {
      PrechainLeaves(c, Jump(s, 0), id, Jump(s, 1));
      PatchesIff(c0, Jump(s, 1), id, a);
    }
  }

  lemma SourceLeaves(c: Cache, id: Id, s: Id, j: Jump)
    requires CacheInv(c) && j.src != s && j in c.links.slot
    ensures var now := Prechained(Prechained(c, Jump(s, 0), id), Jump(s, 1), id);
            && CacheInv(now) && OnlyChains(c, now) && j in now.links.slot && now.links.slot[j] == c.links.slot[j]
  {
    var c0 := Prechained(c, Jump(s, 0), id);
    PrechainKeepsInv(c, Jump(s, 0), id);
    PrechainKeepsInv(c0, Jump(s, 1), id);
    PrechainLeaves(c, Jump(s, 0), id, j);
    PrechainLeaves(c0, Jump(s, 1), id, j);
  }

  /**
   The scan for jumps to a new block: of the blocks listed with its page, the first two others are looked at, and a
   slot compiled for the address of the new block is chained to it exactly if its block is one of them and in its page.
   */
  lemma {:induction false} IncomingChainsIff(c: Cache, id: Id, sources: seq<Id>, scanned: nat, k: nat, i: nat, a: nat)
    requires CacheInv(c) && id in c.live && k < |sources| && sources[k] != id && sources[k] in c.live && NoDuplicates(sources)
    requires TaggedFor(c, sources[k], i, a)
    ensures var now := ScanPrechained(c, id, sources, scanned).links.slot;
            && Jump(sources[k], i) in now
            && now[Jump(sources[k], i)] == Incoming(c, id, sources[k], a, scanned + OthersBefore(sources, id, k) < 2)
    decreases |sources|
  {
    var s := sources[k];
    if sources[0] == id {
      assert sources[1..][k - 1] == s;
      IncomingChainsIff(c, id, sources[1..], scanned, k - 1, i, a);
    } else if scanned < SCAN_LIMIT {
      if k == 0 {
        FirstSourceChains(c, id, sources, scanned, i, a);
      } else {
        assert sources[0] != s && sources[1..][k - 1] == s;
        var c1 := Prechained(Prechained(c, Jump(sources[0], 0), id), Jump(sources[0], 1), id);
        SourceLeaves(c, id, sources[0], Jump(s, i));
        IncomingChainsIff(c1, id, sources[1..], scanned + 1, k - 1, i, a);
        SameIncoming(c, c1, id, s, a, scanned + OthersBefore(sources, id, k) < 2);
      }
    }
  }

  lemma SameIncoming(c: Cache, c': Cache, id: Id, s: Id, a: nat, looked: bool)
    requires OnlyChains(c, c')
    ensures Incoming(c, id, s, a, looked) == Incoming(c', id, s, a, looked)
  {
  }

  lemma FirstSourceChains(c: Cache, id: Id, sources: seq<Id>, scanned: nat, i: nat, a: nat)
    requires CacheInv(c) && id in c.live && sources != [] && sources[0] != id && sources[0] in c.live && NoDuplicates(sources)
    requires TaggedFor(c, sources[0], i, a) && scanned < SCAN_LIMIT
    ensures var now := ScanPrechained(c, id, sources, scanned).links.slot;
            Jump(sources[0], i) in now && now[Jump(sources[0], i)] == Incoming(c, id, sources[0], a, true)
  {
    var c1 := Prechained(Prechained(c, Jump(sources[0], 0), id), Jump(sources[0], 1), id);
    SourceChainsIff(c, id, sources[0], i, a);
    ScanLeaves(c1, id, sources[1..], scanned + 1, Jump(sources[0], i));
  }

  /** Of the slots compiled for an address of 48 bits, exactly those for the address of the other block go to it now. */
  ghost predicate ChainsExactly(c: Cache, now: Cache, last: Id, t: Id) {
    forall i, a: nat {:trigger TaggedFor(c, last, i, a)} :: TaggedFor(c, last, i, a) && last in c.live && t in c.live ==>
      && t in c.blocks && Jump(last, i) in now.links.slot
      && now.links.slot[Jump(last, i)] == if c.blocks[t].addr == a then Code(t) else c.links.slot[Jump(last, i)]
  }

  lemma ChainedExactly(c: Cache, last: Id, t: Id)
    requires CacheInv(c)
    ensures ChainsExactly(c, ChainedBoth(c, last, t), last, t)
  {
    forall i, a: nat | TaggedFor(c, last, i, a) && last in c.live && t in c.live
      ensures t in c.blocks && Jump(last, i) in ChainedBoth(c, last, t).links.slot
      ensures ChainedBoth(c, last, t).links.slot[Jump(last, i)]
           == if c.blocks[t].addr == a then Code(t) else c.links.slot[Jump(last, i)]
    {
      LeavingChainsIff(c, last, t, i, a);
    }
  }

  /** The same for one slot, and only within a page. */
  ghost predicate PatchesExactly(c: Cache, now: Cache, j: Jump, t: Id) {
    forall a: nat {:trigger TaggedFor(c, j.src, j.i, a)} :: TaggedFor(c, j.src, j.i, a) && j.src in c.live && t in c.live ==>
      && j.src in c.blocks && t in c.blocks && j in now.links.slot
      && now.links.slot[j]
      == if c.blocks[t].addr == a && c.blocks[j.src].addr / 4096 == a / 4096 then Code(t) else c.links.slot[j]
  }

  lemma PatchedExactly(c: Cache, j: Jump, t: Id)
    requires CacheInv(c)
    ensures PatchesExactly(c, Prechained(c, j, t), j, t)
  {
    forall a: nat | TaggedFor(c, j.src, j.i, a) && j.src in c.live && t in c.live
      ensures j.src in c.blocks && t in c.blocks && j in Prechained(c, j, t).links.slot
      ensures Prechained(c, j, t).links.slot[j]
           == if c.blocks[t].addr == a && c.blocks[j.src].addr / 4096 == a / 4096 then Code(t) else c.links.slot[j]
    {
      PatchesIff(c, j, t, a);
    }
  }

  /** A slot compiled for an address in the page of its block goes to the block there now, if there is one. */
  ghost predicate ChainsOutgoingExactly(c: Cache, now: Cache, id: Id) {
    forall i, a: nat {:trigger TaggedFor(c, id, i, a)} :: TaggedFor(c, id, i, a) && id in c.live ==>
      && id in c.blocks && Jump(id, i) in now.links.slot
      && now.links.slot[Jump(id, i)]
      == if c.blocks[id].addr / 4096 == a / 4096 && Find(c, a).Some? then Code(Find(c, a).value) else c.links.slot[Jump(id, i)]
  }

  lemma ChainedOutgoingExactly(c: Cache, id: Id)
    requires CacheInv(c)
    ensures ChainsOutgoingExactly(c, SlotPrechained(SlotPrechained(c, id, 0), id, 1), id)
  {
    var now := SlotPrechained(SlotPrechained(c, id, 0), id, 1);
    forall i, a: nat | TaggedFor(c, id, i, a) && id in c.live
      ensures id in c.blocks && Jump(id, i) in now.links.slot
      ensures now.links.slot[Jump(id, i)]
           == if c.blocks[id].addr / 4096 == a / 4096 && Find(c, a).Some? then Code(Find(c, a).value) else c.links.slot[Jump(id, i)]
    {
      OutgoingBothChainIff(c, id, i, a);
    }
  }

  /** Following a chained slot reaches the block a lookup of the slot's original address would find. */
  lemma ChainedDispatchIsLookup(c: Cache, j: Jump)
    requires CacheInv(c) && j in c.links.slot && c.links.slot[j].Code?
    ensures HasSlot(c.blocks, j) && FakeTarget(Original(c.blocks, j)).Some?
    ensures Find(c, FakeTarget(Original(c.blocks, j)).value) == Some(c.links.slot[j].block)
    ensures c.links.slot[j].block in c.live && j.src in c.live
    ensures Jump(c.links.slot[j].block, j.i) in c.links.from
         && j.src in c.links.from[Jump(c.links.slot[j].block, j.i)]
  {
    assert SlotOk(c.links, c.blocks, c.live, j);
    ChainedSlotAgreesWithLookup(c.links, c.index, c.blocks, c.live, j);
    var t := Jump(c.links.slot[j].block, j.i);
    assert HasSlot(c.blocks, j);
    assert t in c.links.from;
    assert FromOk(c.links, t);
  }
}
