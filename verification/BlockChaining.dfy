/**
 Chaining of translated blocks (asbestos/asbestos.c).  The last instruction of a block has up to two jump
 slots.  A slot starts out holding the guest address it goes to, tagged in bit 63; chaining overwrites it
 with the code of the block compiled for that address and files the jump in that block's `jumps_from` list,
 so that the overwriting can be undone when either block is retired.

 `LinkInv` is the law: a slot holds its original word and is filed nowhere, or it holds the code of a live
 block whose address is the one the original word names, and is filed with exactly that block.
 */
module BlockChaining {
  import opened Common
  import opened BucketTable
  import opened BlockIndex
  import Bits

  /** Jump slot `i` of block `src`. */
  datatype Jump = Jump(src: Id, i: nat)

  /** What a slot holds: a word written by the compiler, or a pointer to the code of a block. */
  datatype Target = Guest(word: nat) | Code(block: Id)

  const TAG: nat := 0x8000_0000_0000_0000
  const MASK: nat := 0x1_0000_0000_0000

  /** arm64_fake_jump_target; host pointers never have bit 63 set. */
  function FakeTarget(t: Target): Option<nat> {
    if t.Guest? && (t.word / TAG) % 2 == 1 then Some(t.word % MASK) else None
  }

  /** The word the compiler writes for a jump to a guest address. */
  function CompiledWord(a: nat): nat {
    Bits.Or(a, TAG)
  }

  lemma CompiledWordIs(a: nat)
    requires a < 0x8000_0000_0000_0000
    ensures CompiledWord(a) == 0x8000_0000_0000_0000 + a
  {
    Bits.Powers();
    Bits.OrAbove(a, 63);
  }

  /** A word without bit 63 names no address; the word for an address names it exactly if it has at most 48 bits. */
  lemma WordNames(a: nat)
    requires a < 0x8000_0000_0000_0000
    ensures FakeTarget(Guest(a)).None?
    ensures FakeTarget(Guest(CompiledWord(a))) == Some(a) <==> a < 0x1_0000_0000_0000
  {
    CompiledWordIs(a);
    NamesIff(a, CompiledWord(a));
  }

  lemma NamesIff(a: nat, word: nat)
    requires a < 0x8000_0000_0000_0000 && word == 0x8000_0000_0000_0000 + a
    ensures FakeTarget(Guest(a)).None?
    ensures FakeTarget(Guest(word)) == Some(a) <==> a < 0x1_0000_0000_0000
  {
    TaggedNames(a);
  }

  lemma TaggedNames(a: nat)
    requires a < 0x8000_0000_0000_0000
    ensures FakeTarget(Guest(a)).None?
    ensures FakeTarget(Guest(0x8000_0000_0000_0000 + a)) == Some(a % 0x1_0000_0000_0000)
  {
    TopBit(a);
    LowBits(a);
  }

  lemma TopBit(a: nat)
    requires a < 0x8000_0000_0000_0000
    ensures a / 0x8000_0000_0000_0000 == 0 && (0x8000_0000_0000_0000 + a) / 0x8000_0000_0000_0000 == 1
  {
  }

  lemma LowBits(a: nat)
    ensures (0x8000_0000_0000_0000 + a) % 0x1_0000_0000_0000 == a % 0x1_0000_0000_0000
  {
    var q, r := a / 0x1_0000_0000_0000, a % 0x1_0000_0000_0000;
    assert 0x8000_0000_0000_0000 + a == 0x1_0000_0000_0000 * (0x8000 + q) + r;
  }

  /**
   `slot[j]` is what *jump_ip[i] holds, for slots that exist; `link[j]` is the block in whose list
   jumps_from_links[i] sits; `from[Jump(t, i)]` is the list jumps_from[i] of block `t`.
   */
  datatype Links = Links(slot: map<Jump, Target>, link: map<Jump, Id>, from: map<Jump, seq<Id>>)

  predicate HasSlot(blocks: Blocks, j: Jump) {
    j.src in blocks && j.i < |blocks[j.src].jumps| && blocks[j.src].jumps[j.i].Some?
  }

  function Original(blocks: Blocks, j: Jump): Target
    requires HasSlot(blocks, j)
  {
    Guest(blocks[j.src].jumps[j.i].value)
  }

  ghost predicate SlotOk(l: Links, blocks: Blocks, live: set<Id>, j: Jump)
    requires HasSlot(blocks, j) && j in l.slot
  {
    if j in l.link then
      && l.slot[j] == Code(l.link[j])
      && j.src in live && l.link[j] in live && l.link[j] in blocks
      && FakeTarget(Original(blocks, j)) == Some(blocks[l.link[j]].addr)
    else l.slot[j] == Original(blocks, j)
  }

  ghost predicate FromOk(l: Links, t: Jump)
    requires t in l.from
  {
    && NoDuplicates(l.from[t])
    && forall s :: s in l.from[t] <==> Jump(s, t.i) in l.link && l.link[Jump(s, t.i)] == t.src
  }

  ghost predicate LinkInv(l: Links, blocks: Blocks, live: set<Id>) {
    && BlocksOk(blocks)
    && (forall j :: j in l.slot <==> HasSlot(blocks, j))
    && (forall t :: t in l.from <==> t.src in blocks && t.i < 2)
    && (forall j :: j in l.link ==> j in l.slot)
    && (forall j {:trigger SlotOk(l, blocks, live, j)} :: j in l.slot ==> SlotOk(l, blocks, live, j))
    && (forall t {:trigger FromOk(l, t)} :: t in l.from ==> FromOk(l, t))
  }

  // ---------------------------------------------------------------- filing and unfiling one jump

  /** Overwrite slot `j` with the code of `t` and file the jump with `t`. */
  function Patched(l: Links, j: Jump, t: Id): Links {
    if Jump(t, j.i) !in l.from then l
    else l.(slot := l.slot[j := Code(t)],
            link := l.link[j := t],
            from := l.from[Jump(t, j.i) := [j.src] + l.from[Jump(t, j.i)]])
  }

  /** Restore the original word of slot `j` and take the jump out of the list it is filed in. */
  function Unlinked(l: Links, blocks: Blocks, j: Jump): Links {
    if j !in l.link || !HasSlot(blocks, j) || Jump(l.link[j], j.i) !in l.from then l
    else
      var t := Jump(l.link[j], j.i);
      l.(slot := l.slot[j := Original(blocks, j)],
         link := l.link - {j},
         from := l.from[t := Without(l.from[t], j.src)])
  }

  lemma PatchKeepsLinks(l: Links, blocks: Blocks, live: set<Id>, j: Jump, t: Id)
    requires LinkInv(l, blocks, live)
    requires j in l.slot && j.src in live && t in live && t in blocks
    requires FakeTarget(l.slot[j]) == Some(blocks[t].addr)
    ensures j.i < 2 && Jump(t, j.i) in l.from && LinkInv(Patched(l, j, t), blocks, live)
  {
    assert SlotOk(l, blocks, live, j);
    var l' := Patched(l, j, t);
    forall k | k in l'.slot ensures SlotOk(l', blocks, live, k) {
      assert SlotOk(l, blocks, live, k);
    }
    forall u | u in l'.from ensures FromOk(l', u) {
      assert FromOk(l, u);
    }
  }

  lemma UnlinkKeepsLinks(l: Links, blocks: Blocks, live: set<Id>, j: Jump)
    requires LinkInv(l, blocks, live)
    ensures LinkInv(Unlinked(l, blocks, j), blocks, live)
  {
    if j in l.link {
      assert SlotOk(l, blocks, live, j);
      var l' := Unlinked(l, blocks, j);
      var t := Jump(l.link[j], j.i);
      forall k | k in l'.slot ensures SlotOk(l', blocks, live, k) {
        assert SlotOk(l, blocks, live, k);
      }
      forall u | u in l'.from ensures FromOk(l', u) {
        assert FromOk(l, u);
        if u == t {
          WithoutNoDuplicates(l.from[t], j.src);
        }
      }
    }
  }

  // ---------------------------------------------------------------- undoing every jump in and out of a block

  /** Some filings were undone; every jump whose filing was not touched keeps its filing and its word. */
  ghost predicate Thinned(l: Links, l': Links) {
    && l'.slot.Keys == l.slot.Keys
    && (forall j :: j in l'.link ==> j in l.link && l'.link[j] == l.link[j])
    && (forall j :: j in l.slot && (j in l'.link || j !in l.link) ==> l'.slot[j] == l.slot[j])
  }

  lemma UnlinkThins(l: Links, blocks: Blocks, live: set<Id>, j: Jump)
    requires LinkInv(l, blocks, live)
    ensures Thinned(l, Unlinked(l, blocks, j))
    ensures forall k :: k in l.link ==> (k in Unlinked(l, blocks, j).link <==> k != j)
  {
    if j in l.link {
      assert SlotOk(l, blocks, live, j);
    }
  }

  /** Undoing the jumps from slot `i` of each of `sources`. */
  function UnlinkAll(l: Links, blocks: Blocks, sources: seq<Id>, i: nat): Links
    decreases |sources|
  {
    if sources == [] then l else UnlinkAll(Unlinked(l, blocks, Jump(sources[0], i)), blocks, sources[1..], i)
  }

  lemma {:induction false} UnlinkAllThins(l: Links, blocks: Blocks, live: set<Id>, sources: seq<Id>, i: nat)
    requires LinkInv(l, blocks, live)
    ensures LinkInv(UnlinkAll(l, blocks, sources, i), blocks, live)
    ensures Thinned(l, UnlinkAll(l, blocks, sources, i))
    ensures forall j :: j in l.link ==>
              (j in UnlinkAll(l, blocks, sources, i).link <==> !(j.i == i && j.src in sources))
    decreases |sources|
  {
    if sources != [] {
      var j0, rest := Jump(sources[0], i), sources[1..];
      UnlinkThins(l, blocks, live, j0);
      UnlinkKeepsLinks(l, blocks, live, j0);
      var l1 := Unlinked(l, blocks, j0);
      UnlinkAllThins(l1, blocks, live, rest, i);
      assert forall s :: s in sources <==> s == j0.src || s in rest;
    }
  }

  /** One round of the loop in fiber_block_disconnect: the jump out of slot `i`, then all jumps in. */
  function SideDisconnected(l: Links, blocks: Blocks, b: Id, i: nat): Links {
    var l1 := Unlinked(l, blocks, Jump(b, i));
    if Jump(b, i) in l1.from then UnlinkAll(l1, blocks, l1.from[Jump(b, i)], i) else l1
  }

  lemma SideDisconnectThins(l: Links, blocks: Blocks, live: set<Id>, b: Id, i: nat)
    requires LinkInv(l, blocks, live) && b in blocks && i < 2
    ensures var l' := SideDisconnected(l, blocks, b, i);
            && LinkInv(l', blocks, live) && Thinned(l, l')
            && forall j :: j in l.link ==> (j in l'.link <==> !(j.i == i && (j.src == b || l.link[j] == b)))
  {
    UnlinkKeepsLinks(l, blocks, live, Jump(b, i));
    UnlinkThins(l, blocks, live, Jump(b, i));
    var l1 := Unlinked(l, blocks, Jump(b, i));
    assert FromOk(l1, Jump(b, i));
    UnlinkAllThins(l1, blocks, live, l1.from[Jump(b, i)], i);
    forall j | j in l1.link && j.i == i ensures j.src in l1.from[Jump(b, i)] <==> l1.link[j] == b {
      assert j == Jump(j.src, i);
    }
  }

  /** The chaining half of fiber_block_disconnect. */
  function Disconnected(l: Links, blocks: Blocks, b: Id): Links {
    SideDisconnected(SideDisconnected(l, blocks, b, 0), blocks, b, 1)
  }

  /** Disconnecting a block undoes the jumps in and out of it, a jump to itself included, and no others. */
  lemma DisconnectUndoes(l: Links, blocks: Blocks, live: set<Id>, b: Id)
    requires LinkInv(l, blocks, live) && b in blocks
    ensures var l' := Disconnected(l, blocks, b);
            && LinkInv(l', blocks, live) && Thinned(l, l')
            && forall j :: j in l.link ==> (j in l'.link <==> j.src != b && l.link[j] != b)
  {
    SideDisconnectThins(l, blocks, live, b, 0);
    SideDisconnectThins(SideDisconnected(l, blocks, b, 0), blocks, live, b, 1);
    forall j | j in l.link ensures j.i == 0 || j.i == 1 {
      assert HasSlot(blocks, j);
    }
  }

  /** Once disconnected, a block may be retired: no jump leads out of it or into it. */
  lemma DisconnectedMayRetire(l: Links, blocks: Blocks, live: set<Id>, b: Id)
    requires LinkInv(l, blocks, live) && b in blocks
    ensures LinkInv(Disconnected(l, blocks, b), blocks, live - {b})
  {
    var l' := Disconnected(l, blocks, b);
    DisconnectUndoes(l, blocks, live, b);
    forall j | j in l'.slot ensures SlotOk(l', blocks, live - {b}, j) {
      assert SlotOk(l', blocks, live, j);
    }
  }

  // ---------------------------------------------------------------- new and forgotten blocks

  function WithSlot(slot: map<Jump, Target>, j: Jump, word: Option<nat>): map<Jump, Target> {
    if word.Some? then slot[j := Guest(word.value)] else slot
  }

  /** gen_end: the slots of a new block hold their original words, and nothing is filed with it. */
  function Fresh(l: Links, id: Id, b: Block): Links
    requires |b.jumps| == 2
  {
    l.(slot := WithSlot(WithSlot(l.slot, Jump(id, 0), b.jumps[0]), Jump(id, 1), b.jumps[1]),
       from := l.from[Jump(id, 0) := []][Jump(id, 1) := []])
  }

  lemma FreshKeys(l: Links, blocks: Blocks, live: set<Id>, id: Id, b: Block, j: Jump)
    requires LinkInv(l, blocks, live) && id !in blocks && BlockOk(b)
    ensures j in Fresh(l, id, b).slot <==> HasSlot(blocks[id := b], j)
    ensures j in Fresh(l, id, b).from <==> j.src in blocks[id := b] && j.i < 2
  {
    assert j in l.slot <==> HasSlot(blocks, j);
    assert j.src == id && j.i < 2 ==> j == Jump(id, 0) || j == Jump(id, 1);
  }

  lemma FreshKeepsLinks(l: Links, blocks: Blocks, live: set<Id>, id: Id, b: Block)
    requires LinkInv(l, blocks, live) && id !in blocks && BlockOk(b)
    ensures LinkInv(Fresh(l, id, b), blocks[id := b], live + {id})
  {
    var l', blocks' := Fresh(l, id, b), blocks[id := b];
    forall j ensures j in l'.slot <==> HasSlot(blocks', j) {
      FreshKeys(l, blocks, live, id, b, j);
    }
    forall t ensures t in l'.from <==> t.src in blocks' && t.i < 2 {
      FreshKeys(l, blocks, live, id, b, t);
    }
    forall j | j in l.link ensures j.src in blocks && l.link[j] in blocks {
      assert SlotOk(l, blocks, live, j);
    }
    forall j | j in l'.slot ensures SlotOk(l', blocks', live + {id}, j) {
      if j.src != id {
        assert SlotOk(l, blocks, live, j);
      }
    }
    forall t | t in l'.from ensures FromOk(l', t) {
      if t.src != id {
        assert FromOk(l, t);
      }
    }
  }

  function Forget(l: Links, gone: set<Id>): Links {
    Links(map j | j in l.slot && j.src !in gone :: l.slot[j],
          l.link,
          map t | t in l.from && t.src !in gone :: l.from[t])
  }

  lemma ForgetKeepsLinks(l: Links, blocks: Blocks, live: set<Id>, gone: set<Id>)
    requires LinkInv(l, blocks, live) && gone !! live
    ensures LinkInv(Forget(l, gone), blocks - gone, live)
  {
    var l', blocks' := Forget(l, gone), blocks - gone;
    forall j | j in l'.link ensures j in l'.slot {
      assert SlotOk(l, blocks, live, j);
    }
    forall j | j in l'.slot ensures SlotOk(l', blocks', live, j) {
      assert SlotOk(l, blocks, live, j);
    }
    forall t | t in l'.from ensures FromOk(l', t) {
      assert FromOk(l, t);
    }
  }

  // ---------------------------------------------------------------- chaining two live blocks

  /** The condition under which the code overwrites slot `j` so that it goes to `t`. */
  predicate Chainable(l: Links, blocks: Blocks, live: set<Id>, j: Jump, t: Id) {
    && j in l.slot && j.src in live && t in live && t in blocks
    && FakeTarget(l.slot[j]) == Some(blocks[t].addr)
  }

  function TryChain(l: Links, blocks: Blocks, live: set<Id>, j: Jump, t: Id): Links {
    if Chainable(l, blocks, live, j, t) then Patched(l, j, t) else l
  }

  lemma TryChainKeepsLinks(l: Links, blocks: Blocks, live: set<Id>, j: Jump, t: Id)
    requires LinkInv(l, blocks, live)
    ensures LinkInv(TryChain(l, blocks, live, j, t), blocks, live)
  {
    if Chainable(l, blocks, live, j, t) {
      PatchKeepsLinks(l, blocks, live, j, t);
    }
  }

  /** Following a slot lands where a lookup of the address it was compiled for lands. */
  lemma ChainedSlotAgreesWithLookup(l: Links, ix: Index, blocks: Blocks, live: set<Id>, j: Jump)
    requires LinkInv(l, blocks, live) && IndexInv(ix, blocks, live) && j in l.slot && l.slot[j].Code?
    ensures HasSlot(blocks, j) && FakeTarget(Original(blocks, j)).Some?
    ensures Lookup(ix, blocks, FakeTarget(Original(blocks, j)).value) == Some(l.slot[j].block)
  {
    assert SlotOk(l, blocks, live, j);
    LookupFindsLive(ix, blocks, live, FakeTarget(Original(blocks, j)).value, l.slot[j].block);
  }

  /** A slot compiled for an address of 48 bits holds its word, or the code of the live block at that address. */
  lemma SlotHoldsWordOrBlock(l: Links, blocks: Blocks, live: set<Id>, j: Jump, a: nat)
    requires LinkInv(l, blocks, live) && HasSlot(blocks, j) && a < 0x1_0000_0000_0000
    requires blocks[j.src].jumps[j.i] == Some(0x8000_0000_0000_0000 + a)
    ensures l.slot[j] == Guest(0x8000_0000_0000_0000 + a)
         || (l.slot[j].Code? && l.slot[j].block in live && l.slot[j].block in blocks && blocks[l.slot[j].block].addr == a)
  {
    assert SlotOk(l, blocks, live, j);
    TaggedNames(a);
  }

  /** A slot compiled without the tag is never overwritten. */
  lemma UntaggedSlotStays(l: Links, blocks: Blocks, live: set<Id>, j: Jump, word: nat)
    requires LinkInv(l, blocks, live) && HasSlot(blocks, j) && word < 0x8000_0000_0000_0000
    requires blocks[j.src].jumps[j.i] == Some(word)
    ensures l.slot[j] == Guest(word)
  {
    assert SlotOk(l, blocks, live, j);
    TaggedNames(word);
  }

  /** A block that is not live has its original words back and nobody's slot leads to it. */
  lemma RetiredIsUnchained(l: Links, blocks: Blocks, live: set<Id>, b: Id, j: Jump)
    requires LinkInv(l, blocks, live) && b !in live && j in l.slot
    ensures l.slot[j] != Code(b)
    ensures j.src == b ==> l.slot[j] == Original(blocks, j) && j !in l.link
  {
    assert SlotOk(l, blocks, live, j);
  }
}
