/**
 The code of asbestos/asbestos.c that works on the block cache, as methods that update the cache in place.
 Each is proved to do what its function in BlockCache says, so everything proved there holds of it.
 */
module Asbestos {
  import opened Common
  import opened BucketTable
  import opened BlockIndex
  import opened BlockChaining
  import opened BlockCache

  class Asbestos {
    var blocks: Blocks
    var live: set<Id>
    var index: Index
    var links: Links
    var jetsam: seq<Id>
    var invalidateGen: nat

    ghost function View(): Cache
      reads this
    {
      Cache(blocks, live, index, links, jetsam, invalidateGen)
    }

    ghost predicate Valid()
      reads this
    {
      CacheInv(View())
    }

    /** asbestos_new */
    constructor ()
      ensures Valid() && View() == Empty()
    {
      blocks, live, jetsam, invalidateGen := map[], {}, [], 0;
      index := Index(EmptyTable(INITIAL_HASH_SIZE), EmptyTable(PAGE_HASH_SIZE), EmptyTable(PAGE_HASH_SIZE), 0, 0);
      links := Links(map[], map[], map[]);
      new;
      EmptyInv();
    }

    /** fiber_lookup */
    method Lookup(addr: nat) returns (found: Option<Id>)
      requires Valid()
      ensures found == Find(View(), addr)
      ensures forall id :: found == Some(id) <==> id in live && id in blocks && blocks[id].addr == addr
    {
      forall id ensures Find(View(), addr) == Some(id) <==> id in live && id in blocks && blocks[id].addr == addr {
        FindIsMap(View(), addr, id);
      }
      var bucket := index.hash[addr % |index.hash|];
      assert BucketOk(bucket, addr % |index.hash|, HashKey(blocks, live, |index.hash|));
      var i := 0;
      while i < |bucket|
        invariant 0 <= i <= |bucket| && FindIn(bucket, blocks, addr) == FindIn(bucket[i..], blocks, addr)
      {
        assert bucket[i] in bucket;
        if blocks[bucket[i]].addr == addr {
          return Some(bucket[i]);
        }
        i := i + 1;
      }
      return None;
    }

    /** fiber_resize_hash: every block of every bucket moves to a new array. */
    method ResizeHash(newSize: nat)
      requires newSize > 0 && live <= blocks.Keys && TablesOk(index, blocks, live)
      modifies this`index
      ensures index == Resized(old(index), blocks, live, newSize) && TablesOk(index, blocks, live)
    {
      ghost var key := HashKey(blocks, live, newSize);
      var newHash := EmptyTable(newSize);
      ResizeKeepsTables(index, blocks, live, newSize);
      var i := 0;
      while i < |index.hash|
        invariant 0 <= i <= |index.hash| && |newHash| == newSize
        invariant PushAll(newHash, Entries(index.hash[i..]), key) == PushAll(EmptyTable(newSize), Entries(index.hash), key)
      {
        var bucket := index.hash[i];
        assert BucketOk(bucket, i, HashKey(blocks, live, |index.hash|));
        ghost var rest := Entries(index.hash[i + 1..]);
        assert index.hash[i..][1..] == index.hash[i + 1..];
        var k := 0;
        assert bucket[0..] == bucket;
        while k < |bucket|
          invariant 0 <= k <= |bucket| && |newHash| == newSize
          invariant PushAll(newHash, bucket[k..] + rest, key) == PushAll(EmptyTable(newSize), Entries(index.hash), key)
        {
          var id := bucket[k];
          assert id in bucket;
          assert (bucket[k..] + rest)[1..] == bucket[k + 1..] + rest;
          newHash := Push(newHash, blocks[id].addr % newSize, id);
          k := k + 1;
        }
        assert bucket[k..] + rest == rest;
        i := i + 1;
      }
      index := index.(hash := newHash);
    }

    /** The part of fiber_insert that counts the block and links it into the tables. */
    method LinkIntoTables(id: Id, b: Block)
      requires live <= blocks.Keys && TablesOk(index, blocks, live)
      modifies this`index
      ensures index == Inserted(old(index), blocks, live, id, b)
    {
      ghost var before := index;
      index := index.(numBlocks := index.numBlocks + 1, memUsed := index.memUsed + b.used);
      if index.numBlocks >= |index.hash| * 2 {
        ResizeHash(|index.hash| * 2);
      }
      assert index == Counted(before, blocks, live, b);
      index := index.(hash := Push(index.hash, b.addr % |index.hash|, id),
                      page0 := Push(index.page0, Page(b.addr) % PAGE_HASH_SIZE, id));
      if Page(b.addr) != Page(b.endAddr) {
        index := index.(page1 := Push(index.page1, Page(b.endAddr) % PAGE_HASH_SIZE, id));
      }
    }

    /** fiber_insert */
    method Insert(id: Id, b: Block, eager: Eager)
      requires Valid() && id !in blocks && BlockOk(b) && Find(View(), b.addr).None?
      modifies this
      ensures Valid() && View() == Inserting(old(View()), id, b, eager)
    {
      AddKeepsInv(View(), id, b);
      LinkIntoTables(id, b);
      links, blocks, live := Fresh(links, id, b), blocks[id := b], live + {id};
      assert View() == Added(old(View()), id, b);
      if eager.outgoing {
        PrechainOutgoing(id);
        if eager.incoming {
          PrechainIncoming(id);
        }
      }
    }

    /** Overwriting a slot and filing the jump, as the three places that chain do it. */
    method Patch(j: Jump, t: Id)
      requires Valid() && Chainable(links, blocks, live, j, t)
      modifies this`links
      ensures Valid() && View() == Chained(old(View()), j, t)
    {
      PatchKeepsLinks(links, blocks, live, j, t);
      ChainKeepsInv(View(), j, t);
      var list := Jump(t, j.i);
      links := Links(links.slot[j := Code(t)], links.link[j := t], links.from[list := [j.src] + links.from[list]]);
    }

    /** fiber_prechain_patch_slot */
    method PrechainPatchSlot(j: Jump, t: Id) returns (done: bool)
      requires Valid() && j.src in blocks && t in blocks && j.i < 2
      modifies this`links
      ensures Valid() && View() == Prechained(old(View()), j, t)
      ensures PatchesExactly(old(View()), View(), j, t)
    {
      PatchedExactly(View(), j, t);
      if j !in links.slot || j.src !in live || t !in live {
        return false;
      }
      var target := FakeTarget(links.slot[j]);
      if target.None? {
        return false;
      }
      if target.value != blocks[t].addr || Page(blocks[j.src].addr) != Page(blocks[t].addr) {
        return false;
      }
      Patch(j, t);
      return true;
    }

    /** fiber_prechain_outgoing_same_page */
    method PrechainOutgoing(id: Id)
      requires Valid() && id in blocks
      modifies this`links
      ensures Valid() && View() == SlotPrechained(SlotPrechained(old(View()), id, 0), id, 1)
      ensures ChainsOutgoingExactly(old(View()), View(), id)
    {
      ChainedOutgoingExactly(View(), id);
      PrechainOutgoingSlot(id, 0);
      PrechainOutgoingSlot(id, 1);
    }

    method PrechainOutgoingSlot(id: Id, i: nat)
      requires Valid() && id in blocks && i < 2
      modifies this`links
      ensures Valid() && View() == SlotPrechained(old(View()), id, i)
    {
      var j := Jump(id, i);
      if j !in links.slot {
        return;
      }
      var target := FakeTarget(links.slot[j]);
      if target.None? || Page(blocks[id].addr) != Page(target.value) {
        return;
      }
      var t := Lookup(target.value);
      if t.None? {
        return;
      }
      var _ := PrechainPatchSlot(j, t.value);
    }

    /** fiber_prechain_incoming_same_page */
    method PrechainIncoming(id: Id)
      requires Valid() && id in blocks
      modifies this`links
      ensures Valid() && View() == ScanPrechained(old(View()), id, PageSources(old(View()), id), 0)
    {
      var h := Page(blocks[id].addr) % PAGE_HASH_SIZE;
      PageListsLive(View(), h);
      PrechainList(index.page0[h], id);
    }

    /** The scan of one page list for blocks that jump to a new one. */
    method PrechainList(sources: seq<Id>, id: Id)
      requires Valid() && id in blocks && forall s :: s in sources ==> s in blocks
      modifies this`links
      ensures Valid() && View() == ScanPrechained(old(View()), id, sources, 0)
    {
      ghost var goal := ScanPrechained(View(), id, sources, 0);
      var k, scanned := 0, 0;
      assert sources[0..] == sources;
      while k < |sources|
        invariant 0 <= k <= |sources| && Valid() && scanned <= SCAN_LIMIT
        invariant ScanPrechained(View(), id, sources[k..], scanned) == goal
      {
        var s := sources[k];
        ScanUnfolds(View(), id, sources, k, scanned);
        if s != id {
          if scanned >= SCAN_LIMIT {
            break;
          }
          scanned := scanned + 1;
          PrechainFrom(s, id);
        }
        k := k + 1;
      }
    }

    method PrechainFrom(s: Id, id: Id)
      requires Valid() && s in blocks && id in blocks
      modifies this`links
      ensures Valid()
      ensures View() == Prechained(Prechained(old(View()), Jump(s, 0), id), Jump(s, 1), id)
    {
      var _ := PrechainPatchSlot(Jump(s, 0), id);
      var _ := PrechainPatchSlot(Jump(s, 1), id);
    }

    /** The chaining step of cpu_step_to_interrupt, once the lock is held. */
    method ChainLast(last: Id, block: Id)
      requires Valid() && last in blocks && block in blocks
      modifies this`links
      ensures Valid() && View() == ChainedBoth(old(View()), last, block)
      ensures ChainsExactly(old(View()), View(), last, block)
    {
      ChainedExactly(View(), last, block);
      ChainSlot(Jump(last, 0), block);
      ChainSlot(Jump(last, 1), block);
    }

    method ChainSlot(j: Jump, block: Id)
      requires Valid() && j.src in blocks && block in blocks
      modifies this`links
      ensures Valid() && View() == Chained(old(View()), j, block)
    {
      if j.src in live && block in live && j in links.slot {
        var target := FakeTarget(links.slot[j]);
        if target.Some? && target.value == blocks[block].addr {
          Patch(j, block);
        }
      }
    }

    /** Restoring one slot: the body of both loops in fiber_block_disconnect. */
    method Unlink(j: Jump)
      requires LinkInv(links, blocks, live)
      modifies this`links
      ensures LinkInv(links, blocks, live) && links == Unlinked(old(links), blocks, j)
    {
      UnlinkKeepsLinks(links, blocks, live, j);
      if j in links.link {
        assert SlotOk(links, blocks, live, j);
        var list := Jump(links.link[j], j.i);
        links := Links(links.slot[j := Guest(blocks[j.src].jumps[j.i].value)],
                       links.link - {j},
                       links.from[list := Without(links.from[list], j.src)]);
      }
    }

    method DisconnectSide(id: Id, i: nat)
      requires LinkInv(links, blocks, live) && id in blocks && i < 2
      modifies this`links
      ensures LinkInv(links, blocks, live) && links == SideDisconnected(old(links), blocks, id, i)
    {
      Unlink(Jump(id, i));
      var sources := links.from[Jump(id, i)];
      ghost var goal := UnlinkAll(links, blocks, sources, i);
      var k := 0;
      assert sources[0..] == sources;
      while k < |sources|
        invariant 0 <= k <= |sources| && LinkInv(links, blocks, live)
        invariant UnlinkAll(links, blocks, sources[k..], i) == goal
      {
        assert sources[k..][1..] == sources[k + 1..];
        Unlink(Jump(sources[k], i));
        k := k + 1;
      }
    }

    /** The part of fiber_block_disconnect that uncounts the block and takes it out of the tables. */
    method UnlinkFromTables(id: Id, b: Block)
      requires |index.hash| > 0
      modifies this`index
      ensures index == Removed(old(index), id, b)
    {
      index := index.(memUsed := index.memUsed - b.used, numBlocks := index.numBlocks - 1);
      index := index.(hash := Drop(index.hash, b.addr % |index.hash|, id),
                      page0 := Drop(index.page0, Page(b.addr) % PAGE_HASH_SIZE, id));
      if Page(b.addr) != Page(b.endAddr) {
        index := index.(page1 := Drop(index.page1, Page(b.endAddr) % PAGE_HASH_SIZE, id));
      }
    }

    /** fiber_block_disconnect, followed by moving the block to the jetsam list. */
    method Retire(id: Id)
      requires Valid() && id in live
      modifies this
      ensures Valid() && View() == Retired(old(View()), id)
    {
      RetireKeepsInv(View(), id);
      UnlinkFromTables(id, blocks[id]);
      DisconnectSide(id, 0);
      DisconnectSide(id, 1);
      live := live - {id};
      jetsam := [id] + jetsam;
      assert View() == Retired(old(View()), id);
    }

    /** The inner loop of the invalidations: retire every block of a page list. */
    method RetireList(list: seq<Id>) returns (any: bool)
      requires Valid() && NoDuplicates(list) && forall id :: id in list ==> id in live
      modifies this
      ensures Valid() && View() == RetiredAll(old(View()), list)
      ensures live <= old(live) && (any <==> live != old(live))
    {
      any := false;
      ghost var goal := RetiredAll(View(), list);
      var k := 0;
      assert list[0..] == list;
      while k < |list|
        invariant 0 <= k <= |list| && Valid()
        invariant RetiredAll(View(), list[k..]) == goal
        invariant forall i :: k <= i < |list| ==> list[i] in live
        invariant live <= old(live) && (any <==> live != old(live))
      {
        assert list[k..][1..] == list[k + 1..];
        Retire(list[k]);
        any := true;
        k := k + 1;
      }
    }

    method RetireBucket(h: nat) returns (any: bool)
      requires Valid() && h < PAGE_HASH_SIZE
      modifies this
      ensures Valid() && View() == BucketRetired(old(View()), h)
      ensures live <= old(live) && (any <==> live != old(live))
    {
      PageListsLive(View(), h);
      var any0 := RetireList(index.page0[h]);
      PageListsLive(View(), h);
      var any1 := RetireList(index.page1[h]);
      any := any0 || any1;
    }

    /** asbestos_invalidate_range */
    method InvalidateRange(start: nat, end: nat)
      requires Valid()
      modifies this
      ensures Valid() && View() == Invalidated(old(View()), start, end)
    {
      ghost var goal := PagesRetired(View(), start, end);
      InvalidationFacts(View(), start, end);
      var didInvalidate, page := false, start;
      while page < end
        invariant Valid() && PagesRetired(View(), page, end) == goal
        invariant live <= old(live) && (didInvalidate <==> live != old(live))
      {
        var any := RetireBucket(page % PAGE_HASH_SIZE);
        didInvalidate := didInvalidate || any;
        page := page + 1;
      }
      if didInvalidate {
        invalidateGen := invalidateGen + 1;
      }
      assert View() == Invalidated(old(View()), start, end);
    }

    /** The loop of asbestos_invalidate_all, from a bucket on. */
    method RetireBuckets(first: nat, count: nat) returns (any: bool)
      requires Valid() && count <= PAGE_HASH_SIZE
      modifies this
      ensures Valid() && View() == PagesRetired(old(View()), first, count)
      ensures live <= old(live) && (any <==> live != old(live))
    {
      ghost var goal := PagesRetired(View(), first, count);
      var bucket := first;
      any := false;
      while bucket < count
        invariant Valid() && PagesRetired(View(), bucket, count) == goal
        invariant live <= old(live) && (any <==> live != old(live))
      {
        FirstPageRetired(View(), bucket, count);
        var here := RetireBucket(bucket);
        any := any || here;
        bucket := bucket + 1;
      }
      NoPageLeft(View(), bucket, count);
    }

    /** asbestos_invalidate_all */
    method InvalidateAll()
      requires Valid()
      modifies this
      ensures Valid() && View() == AllInvalidated(old(View())) && live == {}
    {
      var count := |index.page0|;
      AllInvalidationIsTotal(View());
      InvalidationFacts(View(), 0, count);
      var didInvalidate := RetireBuckets(0, count);
      if didInvalidate {
        invalidateGen := invalidateGen + 1;
      }
      assert View() == Invalidated(old(View()), 0, count);
    }

    /** The loop of fiber_free_jetsam. */
    method FreeList()
      modifies this`blocks, this`jetsam
      ensures jetsam == [] && blocks == old(blocks) - set id | id in old(jetsam)
    {
      ghost var all := jetsam;
      ghost var freed := {};
      while jetsam != []
        invariant blocks == old(blocks) - freed
        invariant (set id | id in all) == freed + set id | id in jetsam
        decreases |jetsam|
      {
        var block := jetsam[0];
        blocks := blocks - {block};
        jetsam := jetsam[1..];
        freed := freed + {block};
      }
    }

    /** fiber_free_jetsam; the slots and lists inside a block go with it. */
    method FreeJetsam()
      requires Valid()
      modifies this`blocks, this`links, this`jetsam
      ensures Valid() && View() == Freed(old(View())) && blocks.Keys == live
    {
      FreeKeepsInv(View());
      links := Forget(links, set id | id in jetsam);
      FreeList();
      assert View() == Freed(old(View()));
    }
  }
}
