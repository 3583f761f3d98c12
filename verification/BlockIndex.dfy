/**
 The index of translated blocks (asbestos/asbestos.c): a hash from guest address to block that doubles in
 size as it fills, and two page tables, one for the page a block starts in and one for the page it ends in
 when that is another page.  All three are bucket tables; `IndexInv` ties them, and the two counters, to the
 plain set of live blocks.
 */
module BlockIndex {
  import opened Common
  import opened BucketTable

  const PAGE_SIZE: nat := 4096
  const PAGE_HASH_SIZE: nat := 1024
  const INITIAL_HASH_SIZE: nat := 1024

  /** The part of a struct fiber_block that is fixed once it is compiled; `jumps` holds old_jump_ip. */
  datatype Block = Block(addr: nat, endAddr: nat, used: nat, jumps: seq<Option<nat>>)

  type Blocks = map<Id, Block>

  datatype Index = Index(hash: Table, page0: Table, page1: Table, numBlocks: int, memUsed: int)

  function Page(a: nat): nat {
    a / PAGE_SIZE
  }

  /** No block is longer than a page (asbestos.c:1101-1120), and it has two jump slots. */
  predicate BlockOk(b: Block) {
    b.addr <= b.endAddr < b.addr + PAGE_SIZE && |b.jumps| == 2
  }

  predicate TwoPages(b: Block) {
    Page(b.addr) != Page(b.endAddr)
  }

  /** Some byte of the block lies in page `p`. */
  ghost predicate Meets(b: Block, p: nat) {
    exists x: nat :: b.addr <= x <= b.endAddr && Page(x) == p
  }

  lemma MeetsFirstOrLast(b: Block, p: nat)
    requires BlockOk(b)
    ensures Meets(b, p) <==> p == Page(b.addr) || p == Page(b.endAddr)
  {
    assert Page(b.addr) == p ==> Meets(b, p);
    assert Page(b.endAddr) == p ==> Meets(b, p);
  }

  // ---------------------------------------------------------------- invariant

  function HashKey(blocks: Blocks, live: set<Id>, n: nat): map<Id, nat>
    requires n > 0
  {
    map id | id in live && id in blocks :: blocks[id].addr % n
  }

  function Page0Key(blocks: Blocks, live: set<Id>): map<Id, nat> {
    map id | id in live && id in blocks :: Page(blocks[id].addr) % PAGE_HASH_SIZE
  }

  function Page1Key(blocks: Blocks, live: set<Id>): map<Id, nat> {
    map id | id in live && id in blocks && TwoPages(blocks[id]) :: Page(blocks[id].endAddr) % PAGE_HASH_SIZE
  }

  ghost function SumUsed(blocks: Blocks, s: set<Id>): int
    requires s <= blocks.Keys
  {
    if s == {} then 0 else var id :| id in s; blocks[id].used + SumUsed(blocks, s - {id})
  }

  ghost predicate DistinctAddrs(blocks: Blocks, live: set<Id>)
    requires live <= blocks.Keys
  {
    forall a, b {:trigger SameAddr(blocks, a, b)} :: a in live && b in live && SameAddr(blocks, a, b) ==> a == b
  }

  predicate SameAddr(blocks: Blocks, a: Id, b: Id) {
    a in blocks && b in blocks && blocks[a].addr == blocks[b].addr
  }

  ghost predicate TablesOk(ix: Index, blocks: Blocks, live: set<Id>) {
    && |ix.hash| > 0 && |ix.page0| == PAGE_HASH_SIZE && |ix.page1| == PAGE_HASH_SIZE
    && TableOk(ix.hash, HashKey(blocks, live, |ix.hash|))
    && TableOk(ix.page0, Page0Key(blocks, live))
    && TableOk(ix.page1, Page1Key(blocks, live))
  }

  ghost predicate BlocksOk(blocks: Blocks) {
    forall id :: id in blocks ==> BlockOk(blocks[id])
  }

  /** The index lists exactly the live blocks, counts them, adds up their sizes and is not overfull. */
  ghost predicate IndexInv(ix: Index, blocks: Blocks, live: set<Id>) {
    && live <= blocks.Keys
    && DistinctAddrs(blocks, live)
    && TablesOk(ix, blocks, live)
    && ix.numBlocks == |live|
    && ix.memUsed == SumUsed(blocks, live)
    && ix.numBlocks < 2 * |ix.hash|
  }

  lemma {:induction false} SumUsedAt(blocks: Blocks, s: set<Id>, id: Id)
    requires s <= blocks.Keys && id in s
    ensures SumUsed(blocks, s) == blocks[id].used + SumUsed(blocks, s - {id})
    decreases |s|
  {
    var first :| first in s && SumUsed(blocks, s) == blocks[first].used + SumUsed(blocks, s - {first});
    if first != id {
      SumUsedAt(blocks, s - {first}, id);
      SumUsedAt(blocks, s - {id}, first);
      assert s - {first} - {id} == s - {id} - {first};
    }
  }

  lemma {:induction false} SumUsedFrame(blocks: Blocks, blocks': Blocks, s: set<Id>)
    requires s <= blocks.Keys && s <= blocks'.Keys
    requires forall id :: id in s ==> blocks[id] == blocks'[id]
    ensures SumUsed(blocks, s) == SumUsed(blocks', s)
    decreases |s|
  {
    if s != {} {
      var id :| id in s;
      SumUsedAt(blocks, s, id);
      SumUsedAt(blocks', s, id);
      SumUsedFrame(blocks, blocks', s - {id});
    }
  }

  // ---------------------------------------------------------------- lookup

  function FindIn(bucket: seq<Id>, blocks: Blocks, addr: nat): Option<Id> {
    if bucket == [] then None
    else if bucket[0] in blocks && blocks[bucket[0]].addr == addr then Some(bucket[0])
    else FindIn(bucket[1..], blocks, addr)
  }

  /** fiber_lookup */
  function Lookup(ix: Index, blocks: Blocks, addr: nat): Option<Id> {
    if |ix.hash| == 0 then None else FindIn(ix.hash[addr % |ix.hash|], blocks, addr)
  }

  lemma {:induction false} FindInFinds(bucket: seq<Id>, blocks: Blocks, addr: nat)
    ensures match FindIn(bucket, blocks, addr)
            case Some(id) => id in bucket && id in blocks && blocks[id].addr == addr
            case None => forall id :: id in bucket && id in blocks ==> blocks[id].addr != addr
  {
    if bucket != [] {
      FindInFinds(bucket[1..], blocks, addr);
    }
  }

  /** Lookup is a plain map from address to live block. */
  lemma LookupFindsLive(ix: Index, blocks: Blocks, live: set<Id>, addr: nat, id: Id)
    requires IndexInv(ix, blocks, live)
    ensures Lookup(ix, blocks, addr) == Some(id) <==> id in live && blocks[id].addr == addr
  {
    var n := |ix.hash|;
    var h := addr % n;
    var key := HashKey(blocks, live, n);
    assert BucketOk(ix.hash[h], h, key);
    FindInFinds(ix.hash[h], blocks, addr);
    if id in live && blocks[id].addr == addr {
      assert id in key && key[id] == h;
      assert id in ix.hash[h];
      var found := Lookup(ix, blocks, addr).value;
      assert SameAddr(blocks, found, id);
    }
  }

  // ---------------------------------------------------------------- growing, inserting, removing

  /** fiber_resize_hash */
  function Resized(ix: Index, blocks: Blocks, live: set<Id>, n: nat): Index
    requires n > 0
  {
    ix.(hash := PushAll(EmptyTable(n), Entries(ix.hash), HashKey(blocks, live, n)))
  }

  lemma ResizeKeepsTables(ix: Index, blocks: Blocks, live: set<Id>, n: nat)
    requires live <= blocks.Keys && TablesOk(ix, blocks, live) && n > 0
    ensures TablesOk(Resized(ix, blocks, live, n), blocks, live)
  {
    RebuildOk(ix.hash, HashKey(blocks, live, |ix.hash|), n, HashKey(blocks, live, n));
  }

  /** The index before the new block is linked in: counted, and grown if the hash has become too full. */
  function Counted(ix: Index, blocks: Blocks, live: set<Id>, b: Block): Index {
    var counted := ix.(numBlocks := ix.numBlocks + 1, memUsed := ix.memUsed + b.used);
    if counted.numBlocks >= |ix.hash| * 2 && |ix.hash| > 0 then Resized(counted, blocks, live, |ix.hash| * 2)
    else counted
  }

  /** Linking a block into the hash and into the page tables. */
  function Linked(ix: Index, id: Id, b: Block): Index {
    ix.(hash := if |ix.hash| == 0 then [] else Push(ix.hash, b.addr % |ix.hash|, id),
        page0 := Push(ix.page0, Page(b.addr) % PAGE_HASH_SIZE, id),
        page1 := if TwoPages(b) then Push(ix.page1, Page(b.endAddr) % PAGE_HASH_SIZE, id) else ix.page1)
  }

  /** fiber_insert, without the eager chaining at its end. */
  function Inserted(ix: Index, blocks: Blocks, live: set<Id>, id: Id, b: Block): Index {
    Linked(Counted(ix, blocks, live, b), id, b)
  }

  lemma CountedKeepsTables(ix: Index, blocks: Blocks, live: set<Id>, b: Block)
    requires live <= blocks.Keys && TablesOk(ix, blocks, live)
    ensures TablesOk(Counted(ix, blocks, live, b), blocks, live)
  {
    var counted := ix.(numBlocks := ix.numBlocks + 1, memUsed := ix.memUsed + b.used);
    if counted.numBlocks >= |ix.hash| * 2 {
      ResizeKeepsTables(counted, blocks, live, |ix.hash| * 2);
    }
  }

  lemma KeysWith(blocks: Blocks, live: set<Id>, id: Id, b: Block, n: nat)
    requires n > 0 && id !in blocks
    ensures HashKey(blocks, live, n)[id := b.addr % n] == HashKey(blocks[id := b], live + {id}, n)
    ensures Page0Key(blocks, live)[id := Page(b.addr) % PAGE_HASH_SIZE] == Page0Key(blocks[id := b], live + {id})
    ensures Page1Key(blocks[id := b], live + {id})
         == if TwoPages(b) then Page1Key(blocks, live)[id := Page(b.endAddr) % PAGE_HASH_SIZE] else Page1Key(blocks, live)
  {
  }

  lemma LinkedTables(ix: Index, blocks: Blocks, live: set<Id>, id: Id, b: Block)
    requires TablesOk(ix, blocks, live) && id !in blocks
    ensures TablesOk(Linked(ix, id, b), blocks[id := b], live + {id})
  {
    KeysWith(blocks, live, id, b, |ix.hash|);
    PushOk(ix.hash, HashKey(blocks, live, |ix.hash|), b.addr % |ix.hash|, id);
    PushOk(ix.page0, Page0Key(blocks, live), Page(b.addr) % PAGE_HASH_SIZE, id);
    if TwoPages(b) {
      PushOk(ix.page1, Page1Key(blocks, live), Page(b.endAddr) % PAGE_HASH_SIZE, id);
    }
  }

  /** Inserting a block at an address nobody has keeps the index right, whether or not the hash grows. */
  lemma InsertKeepsIndex(ix: Index, blocks: Blocks, live: set<Id>, id: Id, b: Block)
    requires IndexInv(ix, blocks, live) && id !in blocks
    requires Lookup(ix, blocks, b.addr).None?
    ensures IndexInv(Inserted(ix, blocks, live, id, b), blocks[id := b], live + {id})
  {
    CountedKeepsTables(ix, blocks, live, b);
    LinkedTables(Counted(ix, blocks, live, b), blocks, live, id, b);
    var blocks', live' := blocks[id := b], live + {id};
    SumUsedAt(blocks', live', id);
    assert live' - {id} == live;
    SumUsedFrame(blocks, blocks', live);
    forall x, y | x in live' && y in live' && SameAddr(blocks', x, y) ensures x == y {
      if x != id && y != id {
        assert SameAddr(blocks, x, y);
      } else if x != id {
        LookupFindsLive(ix, blocks, live, b.addr, x);
      } else if y != id {
        LookupFindsLive(ix, blocks, live, b.addr, y);
      }
    }
  }

  /** Taking a block out of the hash and the page tables. */
  function Removed(ix: Index, id: Id, b: Block): Index {
    ix.(hash := if |ix.hash| == 0 then [] else Drop(ix.hash, b.addr % |ix.hash|, id),
        page0 := Drop(ix.page0, Page(b.addr) % PAGE_HASH_SIZE, id),
        page1 := if TwoPages(b) then Drop(ix.page1, Page(b.endAddr) % PAGE_HASH_SIZE, id) else ix.page1,
        numBlocks := ix.numBlocks - 1,
        memUsed := ix.memUsed - b.used)
  }

  lemma KeysWithout(blocks: Blocks, live: set<Id>, id: Id, n: nat)
    requires n > 0 && id in live && id in blocks
    ensures HashKey(blocks, live, n) - {id} == HashKey(blocks, live - {id}, n)
    ensures Page0Key(blocks, live) - {id} == Page0Key(blocks, live - {id})
    ensures Page1Key(blocks, live) - {id} == Page1Key(blocks, live - {id})
  {
  }

  lemma RemovedTables(ix: Index, blocks: Blocks, live: set<Id>, id: Id)
    requires TablesOk(ix, blocks, live) && id in live && id in blocks
    ensures TablesOk(Removed(ix, id, blocks[id]), blocks, live - {id})
  {
    KeysWithout(blocks, live, id, |ix.hash|);
    DropOk(ix.hash, HashKey(blocks, live, |ix.hash|), id);
    DropOk(ix.page0, Page0Key(blocks, live), id);
    if TwoPages(blocks[id]) {
      DropOk(ix.page1, Page1Key(blocks, live), id);
    } else {
      assert Page1Key(blocks, live) - {id} == Page1Key(blocks, live);
    }
  }

  lemma RemoveKeepsIndex(ix: Index, blocks: Blocks, live: set<Id>, id: Id)
    requires IndexInv(ix, blocks, live) && id in live
    ensures IndexInv(Removed(ix, id, blocks[id]), blocks, live - {id})
  {
    RemovedTables(ix, blocks, live, id);
    SumUsedAt(blocks, live, id);
  }

  /** Forgetting blocks that are not live does not disturb the index. */
  lemma ForgetKeepsIndex(ix: Index, blocks: Blocks, live: set<Id>, gone: set<Id>)
    requires IndexInv(ix, blocks, live) && gone !! live
    ensures IndexInv(ix, blocks - gone, live)
  {
    var blocks' := blocks - gone;
    assert HashKey(blocks', live, |ix.hash|) == HashKey(blocks, live, |ix.hash|);
    assert Page0Key(blocks', live) == Page0Key(blocks, live);
    assert Page1Key(blocks', live) == Page1Key(blocks, live);
    SumUsedFrame(blocks, blocks', live);
    forall a, b | a in live && b in live && SameAddr(blocks', a, b) ensures a == b {
      assert SameAddr(blocks, a, b);
    }
  }

  /** A page bucket holds exactly the live blocks that start, or end, in a page of that bucket. */
  lemma PageBuckets(ix: Index, blocks: Blocks, live: set<Id>, h: nat, id: Id)
    requires IndexInv(ix, blocks, live) && h < PAGE_HASH_SIZE
    ensures id in ix.page0[h] <==> id in live && Page(blocks[id].addr) % PAGE_HASH_SIZE == h
    ensures id in ix.page1[h] <==>
              id in live && TwoPages(blocks[id]) && Page(blocks[id].endAddr) % PAGE_HASH_SIZE == h
    ensures NoDuplicates(ix.page0[h]) && NoDuplicates(ix.page1[h])
  {
    assert BucketOk(ix.page0[h], h, Page0Key(blocks, live));
    assert BucketOk(ix.page1[h], h, Page1Key(blocks, live));
  }
}
