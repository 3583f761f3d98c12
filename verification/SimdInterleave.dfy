/**
 The interleaved vector loads and stores LD2-LD4 and ST2-ST4 (emu/tlb.c; section C7.2 of the Arm Architecture
 Reference Manual): element e of register r is element e * n + r in memory.
 */
module SimdInterleave {
  import opened Common
  import opened GuestMemory
  import opened SoftTlb

  const REG_BYTES: nat := 16

  type Register = s: seq<byte> | |s| == REG_BYTES witness seq(REG_BYTES, _ => 0)

  // ---------------------------------------------------------------- where elements go

  /** How the elements of an access lie: the registers, the bytes of an element, the elements of a register. */
  datatype Layout = Layout(regs: nat, size: nat, elems: nat) {
    predicate Valid() {
      1 <= regs <= 4 && size in {1, 2, 4, 8} && elems in {1, 2, 4, 8, 16} && elems * size <= REG_BYTES
    }

    function Half(): nat {
      elems * size
    }

    function Total(): nat {
      regs * elems * size
    }
  }

  /** The place in memory of byte k of element e of register r. */
  function Slot(l: Layout, e: nat, r: nat, k: nat): nat {
    (e * l.regs + r) * l.size + k
  }

  function ElementAt(l: Layout, p: nat): nat
    requires l.Valid()
  {
    p / l.size / l.regs
  }

  function RegisterAt(l: Layout, p: nat): (r: nat)
    requires l.Valid()
    ensures r < l.regs
  {
    p / l.size % l.regs
  }

  lemma DivModOf(q: nat, d: nat, r: nat)
    requires r < d && d in {1, 2, 3, 4, 8}
    ensures (q * d + r) / d == q && (q * d + r) % d == r
  {
    if d == 1 {
    } else if d == 2 {
    } else if d == 3 {
    } else if d == 4 {
    } else {
      assert d == 8;
    }
  }

  /** Places and elements correspond one to one. */
  lemma SlotOf(l: Layout, e: nat, r: nat, k: nat)
    requires l.Valid() && r < l.regs && k < l.size
    ensures var p := Slot(l, e, r, k); ElementAt(l, p) == e && RegisterAt(l, p) == r && p % l.size == k
  {
    DivModOf(e * l.regs + r, l.size, k);
    DivModOf(e, l.regs, r);
  }

  lemma SlotAt(l: Layout, p: nat)
    requires l.Valid()
    ensures Slot(l, ElementAt(l, p), RegisterAt(l, p), p % l.size) == p
  {
    var q := p / l.size;
    assert q == q / l.regs * l.regs + q % l.regs;
    assert p == q * l.size + p % l.size;
  }

  lemma SlotInRange(l: Layout, e: nat, r: nat, k: nat)
    requires l.Valid() && e < l.elems && r < l.regs && k < l.size
    ensures Slot(l, e, r, k) < l.Total()
  {
    Product(l);
    BlockInRange(l.regs, l.elems, e, r);
    BlockInRange(l.size, l.elems * l.regs, e * l.regs + r, k);
  }

  lemma Product(l: Layout)
    ensures l.Total() == l.elems * l.regs * l.size
  {
    assert l.regs * l.elems == l.elems * l.regs;
  }

  lemma BlockInRange(d: nat, n: nat, q: nat, r: nat)
    requires d in {1, 2, 3, 4, 8} && r < d
    ensures q * d + r < n * d <==> q < n
  {
    if d == 1 {
    } else if d == 2 {
    } else if d == 3 {
    } else if d == 4 {
    } else {
      assert d == 8;
    }
  }

  lemma ElementInRange(l: Layout, p: nat)
    requires l.Valid() && p < l.Total()
    ensures ElementAt(l, p) < l.elems
  {
    var e, r, k := ElementAt(l, p), RegisterAt(l, p), p % l.size;
    SlotAt(l, p);
    Product(l);
    BlockInRange(l.size, l.elems * l.regs, e * l.regs + r, k);
    BlockInRange(l.regs, l.elems, e, r);
  }

  lemma ByteInRange(l: Layout, e: nat, k: nat)
    requires l.Valid() && e < l.elems && k < l.size
    ensures e * l.size + k < l.Half() <= REG_BYTES
    ensures (e * l.size + k) / l.size == e && (e * l.size + k) % l.size == k
  {
    BlockInRange(l.size, l.elems, e, k);
    DivModOf(e, l.size, k);
  }

  // ---------------------------------------------------------------- interleaving and back

  function SourceByte(l: Layout, regs: seq<Register>, p: nat): byte
    requires l.Valid() && |regs| == l.regs && p < l.Total()
  {
    ElementInRange(l, p);
    ByteInRange(l, ElementAt(l, p), p % l.size);
    regs[RegisterAt(l, p)][ElementAt(l, p) * l.size + p % l.size]
  }

  function Interleaved(l: Layout, regs: seq<Register>): (r: seq<byte>)
    requires l.Valid() && |regs| == l.regs
    ensures |r| == l.Total() && forall p :: 0 <= p < l.Total() ==> r[p] == SourceByte(l, regs, p)
  {
    seq<byte>(l.Total(), p requires 0 <= p < l.Total() => SourceByte(l, regs, p))
  }

  function TargetByte(l: Layout, buf: seq<byte>, r: nat, b: nat): byte
    requires l.Valid() && |buf| == l.Total() && r < l.regs && b < REG_BYTES
  {
    if b < l.Half() then
      BlockInRange(l.size, l.elems, b / l.size, b % l.size);
      SlotInRange(l, b / l.size, r, b % l.size);
      buf[Slot(l, b / l.size, r, b % l.size)]
    else 0
  }

  /** Register r after a load: its elements, and zeroes above them. */
  function Deinterleaved(l: Layout, buf: seq<byte>, r: nat): (reg: Register)
    requires l.Valid() && |buf| == l.Total() && r < l.regs
    ensures forall b :: 0 <= b < REG_BYTES ==> reg[b] == TargetByte(l, buf, r, b)
  {
    seq<byte>(REG_BYTES, b requires 0 <= b < REG_BYTES => TargetByte(l, buf, r, b))
  }

  /** The part of a register the access is about, with zeroes above. */
  predicate SameLow(l: Layout, reg: Register, was: Register)
    requires l.Valid()
  {
    forall b :: 0 <= b < REG_BYTES ==> reg[b] == if b < l.Half() then was[b] else 0
  }

  /** Loading what was stored gives the registers back. */
  lemma LoadOfStore(l: Layout, regs: seq<Register>, r: nat)
    requires l.Valid() && |regs| == l.regs && r < l.regs
    ensures SameLow(l, Deinterleaved(l, Interleaved(l, regs), r), regs[r])
  {
    var buf := Interleaved(l, regs);
    forall b | 0 <= b < l.Half() ensures TargetByte(l, buf, r, b) == regs[r][b] {
      LoadOfStoreAt(l, regs, r, b);
    }
  }

  lemma LoadOfStoreAt(l: Layout, regs: seq<Register>, r: nat, b: nat)
    requires l.Valid() && |regs| == l.regs && r < l.regs && b < l.Half()
    ensures TargetByte(l, Interleaved(l, regs), r, b) == regs[r][b]
  {
    var e, k := b / l.size, b % l.size;
    ElementOfByte(l.size, e, b);
    BlockInRange(l.size, l.elems, e, k);
    SourceAtSlot(l, regs, e, r, k);
  }

  lemma SourceAtSlot(l: Layout, regs: seq<Register>, e: nat, r: nat, k: nat)
    requires l.Valid() && |regs| == l.regs && e < l.elems && r < l.regs && k < l.size
    ensures Slot(l, e, r, k) < l.Total() && e * l.size + k < REG_BYTES
    ensures Interleaved(l, regs)[Slot(l, e, r, k)] == regs[r][e * l.size + k]
  {
    SlotInRange(l, e, r, k);
    SlotOf(l, e, r, k);
    ByteInRange(l, e, k);
    assert Interleaved(l, regs)[Slot(l, e, r, k)] == SourceByte(l, regs, Slot(l, e, r, k));
  }

  /** Storing what was loaded gives the bytes back. */
  lemma StoreOfLoad(l: Layout, buf: seq<byte>, regs: seq<Register>)
    requires l.Valid() && |buf| == l.Total() && |regs| == l.regs
    requires forall r :: 0 <= r < l.regs ==> regs[r] == Deinterleaved(l, buf, r)
    ensures Interleaved(l, regs) == buf
  {
    forall p | 0 <= p < l.Total() ensures SourceByte(l, regs, p) == buf[p] {
      var e, r, k := ElementAt(l, p), RegisterAt(l, p), p % l.size;
      ElementInRange(l, p);
      ByteInRange(l, e, k);
      SlotAt(l, p);
      assert regs[r][e * l.size + k] == TargetByte(l, buf, r, e * l.size + k);
    }
  }

  /** Byte k of element e of register r, and its place among the elements of all registers. */
  predicate ByteMoved(n: nat, size: nat, buf: seq<byte>, reg: Register, r: nat, e: nat, k: nat) {
    && (e * n + r) * size + k < |buf| && e * size + k < 16
    && reg[e * size + k] == buf[(e * n + r) * size + k]
  }

  /** Every byte of every element of register r is in its place: element e of register r is element e * n + r. */
  ghost predicate Moved(l: Layout, buf: seq<byte>, reg: Register, r: nat) {
    forall e, k {:trigger ByteMoved(l.regs, l.size, buf, reg, r, e, k)} ::
      0 <= e < l.elems && 0 <= k < l.size ==> ByteMoved(l.regs, l.size, buf, reg, r, e, k)
  }

  /** The same for the register that is r places after rt, modulo 32. */
  ghost predicate MovedFrom(l: Layout, buf: seq<byte>, fp: seq<Register>, rt: nat, r: nat) {
    |fp| == 32 && Moved(l, buf, fp[(rt + r) % 32], r)
  }

  ghost predicate AllMoved(l: Layout, buf: seq<byte>, fp: seq<Register>, rt: nat) {
    forall r {:trigger MovedFrom(l, buf, fp, rt, r)} :: 0 <= r < l.regs ==> MovedFrom(l, buf, fp, rt, r)
  }

  lemma LoadMoves(l: Layout, buf: seq<byte>, r: nat)
    requires l.Valid() && |buf| == l.Total() && r < l.regs
    ensures Moved(l, buf, Deinterleaved(l, buf, r), r)
  {
    forall e, k | 0 <= e < l.elems && 0 <= k < l.size ensures ByteMoved(l.regs, l.size, buf, Deinterleaved(l, buf, r), r, e, k) {
      ByteInRange(l, e, k);
      SlotInRange(l, e, r, k);
      assert Deinterleaved(l, buf, r)[e * l.size + k] == TargetByte(l, buf, r, e * l.size + k);
    }
  }

  lemma StoreMoves(l: Layout, regs: seq<Register>, r: nat)
    requires l.Valid() && |regs| == l.regs && r < l.regs
    ensures Moved(l, Interleaved(l, regs), regs[r], r)
  {
    forall e, k | 0 <= e < l.elems && 0 <= k < l.size ensures ByteMoved(l.regs, l.size, Interleaved(l, regs), regs[r], r, e, k) {
      StoreMovesByte(l, regs, Interleaved(l, regs), r, e, k);
    }
  }

  lemma StoreMovesByte(l: Layout, regs: seq<Register>, buf: seq<byte>, r: nat, e: nat, k: nat)
    requires l.Valid() && |regs| == l.regs && buf == Interleaved(l, regs) && r < l.regs && e < l.elems && k < l.size
    ensures ByteMoved(l.regs, l.size, buf, regs[r], r, e, k)
  {
    SourceAtSlot(l, regs, e, r, k);
  }

  // ---------------------------------------------------------------- through memory

  /** A store that succeeds, then a load from the same address: memory is as stored, and so are the registers. */
  lemma StoreThenLoad(m: Mmu, addr: nat, l: Layout, regs: seq<Register>, r: nat)
    requires Valid(m) && l.Valid() && |regs| == l.regs && r < l.regs && Access(m, addr, l.Total(), true).1
    ensures var stored := WithBytes(Access(m, addr, l.Total(), true).0, addr, Interleaved(l, regs));
            && Access(stored, addr, l.Total(), false).0 == stored && Access(stored, addr, l.Total(), false).1
            && SameLow(l, Deinterleaved(l, BytesAt(stored, addr, l.Total()), r), regs[r])
  {
    var m1, buf := Access(m, addr, l.Total(), true).0, Interleaved(l, regs);
    AccessValid(m, addr, l.Total(), true);
    AccessMaps(m, addr, l.Total(), true);
    TotalFits(l);
    LoadAfterStore(m1, addr, buf);
    WithBytesKeepsPages(m1, addr, buf);
    AccessMapped(WithBytes(m1, addr, buf), addr, l.Total());
    LoadOfStore(l, regs, r);
  }

  lemma TotalFits(l: Layout)
    requires l.Valid()
    ensures l.Total() <= 64
  {
    Product(l);
    assert l.regs * l.elems * l.size == l.regs * l.Half();
  }

  /** A load, then a store to the same address: no byte of memory changes. */
  lemma LoadThenStore(m: Mmu, addr: nat, l: Layout, regs: seq<Register>, a: nat)
    requires Valid(m) && l.Valid() && |regs| == l.regs && Access(m, addr, l.Total(), false).1
    requires var m1 := Access(m, addr, l.Total(), false).0;
             && (forall r :: 0 <= r < l.regs ==> regs[r] == Deinterleaved(l, BytesAt(m1, addr, l.Total()), r))
             && Access(m1, addr, l.Total(), true).1
    requires Page(a) in m.pages
    ensures var m1 := Access(m, addr, l.Total(), false).0; var m2 := Access(m1, addr, l.Total(), true).0;
            WithBytes(m2, addr, Interleaved(l, regs)) == m2 && ByteAt(m2, a) == ByteAt(m, a)
  {
    var n := l.Total();
    var m1 := Access(m, addr, n, false).0;
    var m2 := Access(m1, addr, n, true).0;
    AccessValid(m, addr, n, false);
    AccessMaps(m, addr, n, false);
    AccessMaps(m1, addr, n, true);
    assert BytesAt(m2, addr, n) == BytesAt(m1, addr, n);
    StoreOfLoad(l, BytesAt(m1, addr, n), regs);
    StoreAfterLoad(m2, addr, n);
  }

  // ---------------------------------------------------------------- the instructions

  function LayoutOf(regs: nat, elemSize: nat, q: bool): Layout
    requires elemSize <= 3
  {
    var size := [1, 2, 4, 8][elemSize];
    Layout(regs, size, (if q then 16 else 8) / size)
  }

  /** The bytes of element e of register r are those of one block, and no others. */
  lemma BlockIff(l: Layout, e: nat, r: nat, p: nat)
    requires l.Valid() && r < l.regs
    ensures Slot(l, e, r, 0) <= p < Slot(l, e, r, 0) + l.size <==> ElementAt(l, p) == e && RegisterAt(l, p) == r
    ensures ElementAt(l, p) == e && RegisterAt(l, p) == r ==> p - Slot(l, e, r, 0) == p % l.size
  {
    if Slot(l, e, r, 0) <= p < Slot(l, e, r, 0) + l.size {
      SlotOf(l, e, r, p - Slot(l, e, r, 0));
    }
    SlotAt(l, p);
  }

  /** memcpy into a buffer */
  function Patched(buf: seq<byte>, at: nat, bytes: seq<byte>): (r: seq<byte>)
    requires at + |bytes| <= |buf|
    ensures |r| == |buf| && forall p :: 0 <= p < |buf| ==> r[p] == if at <= p < at + |bytes| then bytes[p - at] else buf[p]
  {
    buf[..at] + bytes + buf[at + |bytes|..]
  }

  /** What byte b of a register is when its first e elements are in place. */
  function Wanted(l: Layout, buf: seq<byte>, r: nat, e: nat, b: nat): byte
    requires l.Valid() && |buf| == l.Total() && r < l.regs && b < REG_BYTES
  {
    if b / l.size < e then TargetByte(l, buf, r, b) else 0
  }

  /** A register whose first e elements are in place. */
  ghost predicate Gathered(l: Layout, buf: seq<byte>, r: nat, e: nat, bytes: seq<byte>)
    requires l.Valid() && |buf| == l.Total() && r < l.regs
  {
    && |bytes| == REG_BYTES
    && forall b :: 0 <= b < REG_BYTES ==> bytes[b] == Wanted(l, buf, r, e, b)
  }

  /** The bytes of one element of a register. */
  lemma ElementOfByte(d: nat, e: nat, b: nat)
    requires d in {1, 2, 4, 8}
    ensures e * d <= b < e * d + d <==> b / d == e
    ensures b / d == e ==> b - e * d == b % d
  {
    if d == 1 {
    } else if d == 2 {
    } else if d == 4 {
    } else {
      assert d == 8;
    }
  }

  lemma BlocksFit(l: Layout, e: nat, r: nat)
    requires l.Valid() && r < l.regs && e < l.elems
    ensures Slot(l, e, r, 0) + l.size <= l.Total() && e * l.size + l.size <= REG_BYTES
  {
    SlotInRange(l, e, r, l.size - 1);
    ByteInRange(l, e, l.size - 1);
  }

  /** A byte of the element that is copied comes from its slot. */
  lemma GatherByte(l: Layout, buf: seq<byte>, r: nat, e: nat, b: nat)
    requires l.Valid() && |buf| == l.Total() && r < l.regs && e < l.elems && b < REG_BYTES && b / l.size == e
    ensures Slot(l, e, r, 0) + b % l.size < |buf| && buf[Slot(l, e, r, 0) + b % l.size] == TargetByte(l, buf, r, b)
  {
    ElementOfByte(l.size, e, b);
    ByteInRange(l, e, b % l.size);
    SlotInRange(l, e, r, b % l.size);
  }

  lemma CopiedByte(to: seq<byte>, dst: nat, from: seq<byte>, src: nat, n: nat, b: nat)
    requires dst + n <= |to| && src + n <= |from| && b < |to|
    ensures Patched(to, dst, from[src..src + n])[b] == if dst <= b < dst + n then from[src + (b - dst)] else to[b]
  {
  }

  lemma GatherStep(l: Layout, buf: seq<byte>, r: nat, e: nat, bytes: seq<byte>)
    requires l.Valid() && |buf| == l.Total() && r < l.regs && e < l.elems && Gathered(l, buf, r, e, bytes)
    ensures Slot(l, e, r, 0) + l.size <= |buf| && e * l.size + l.size <= REG_BYTES
    ensures var src := Slot(l, e, r, 0); Gathered(l, buf, r, e + 1, Patched(bytes, e * l.size, buf[src..src + l.size]))
  {
    BlocksFit(l, e, r);
    var src, dst := Slot(l, e, r, 0), e * l.size;
    var out := Patched(bytes, dst, buf[src..src + l.size]);
    forall b | 0 <= b < REG_BYTES ensures out[b] == Wanted(l, buf, r, e + 1, b) {
      CopiedByte(bytes, dst, buf, src, l.size, b);
      GatherStepAt(l, buf, r, e, b, bytes[b], out[b]);
    }
  }

  lemma GatherStepAt(l: Layout, buf: seq<byte>, r: nat, e: nat, b: nat, was: byte, now: byte)
    requires l.Valid() && |buf| == l.Total() && r < l.regs && e < l.elems && b < REG_BYTES
    requires Slot(l, e, r, 0) + l.size <= |buf|
    requires was == Wanted(l, buf, r, e, b)
    requires now == if e * l.size <= b < e * l.size + l.size then buf[Slot(l, e, r, 0) + (b - e * l.size)] else was
    ensures now == Wanted(l, buf, r, e + 1, b)
  {
    ElementOfByte(l.size, e, b);
    if b / l.size == e {
      GatherByte(l, buf, r, e, b);
    }
  }

  lemma GatheredNone(l: Layout, buf: seq<byte>, r: nat)
    requires l.Valid() && |buf| == l.Total() && r < l.regs
    ensures Gathered(l, buf, r, 0, seq<byte>(REG_BYTES, _ => 0))
  {
  }

  lemma GatheredAll(l: Layout, buf: seq<byte>, r: nat, bytes: seq<byte>)
    requires l.Valid() && |buf| == l.Total() && r < l.regs && Gathered(l, buf, r, l.elems, bytes)
    ensures bytes == Deinterleaved(l, buf, r)
  {
    forall b | 0 <= b < REG_BYTES ensures bytes[b] == TargetByte(l, buf, r, b) {
      ElementOfByte(l.size, b / l.size, b);
      BlockInRange(l.size, l.elems, b / l.size, b % l.size);
    }
  }

  /** One element of a load. */
  method GatherElement(l: Layout, buf: seq<byte>, r: nat, e: nat, bytes: seq<byte>) returns (out: seq<byte>)
    requires l.Valid() && |buf| == l.Total() && r < l.regs && e < l.elems && Gathered(l, buf, r, e, bytes)
    ensures Gathered(l, buf, r, e + 1, out)
  {
    GatherStep(l, buf, r, e, bytes);
    var src, dst := Slot(l, e, r, 0), e * l.size;
    out := Patched(bytes, dst, buf[src..src + l.size]);
  }

  /** The inner loop of a load. */
  method Gather(l: Layout, buf: seq<byte>, r: nat) returns (reg: Register)
    requires l.Valid() && |buf| == l.Total() && r < l.regs
    ensures reg == Deinterleaved(l, buf, r) && Moved(l, buf, reg, r)
  {
    LoadMoves(l, buf, r);
    GatheredNone(l, buf, r);
    var bytes: seq<byte> := seq<byte>(REG_BYTES, _ => 0);
    var e := 0;
    while e < l.elems
      invariant 0 <= e <= l.elems && Gathered(l, buf, r, e, bytes)
    {
      bytes := GatherElement(l, buf, r, e, bytes);
      e := e + 1;
    }
    GatheredAll(l, buf, r, bytes);
    reg := bytes;
  }

  /** A buffer with the first e elements of the register r in place, and all of the registers before it. */
  ghost predicate Scattered(l: Layout, regs: seq<Register>, r: nat, e: nat, buf: seq<byte>)
    requires l.Valid() && |regs| == l.regs
  {
    && |buf| == l.Total()
    && forall p :: 0 <= p < l.Total() && (RegisterAt(l, p) < r || (RegisterAt(l, p) == r && ElementAt(l, p) < e)) ==>
         buf[p] == SourceByte(l, regs, p)
  }

  lemma ScatterStep(l: Layout, regs: seq<Register>, r: nat, e: nat, buf: seq<byte>)
    requires l.Valid() && |regs| == l.regs && r < l.regs && e < l.elems && Scattered(l, regs, r, e, buf)
    ensures Slot(l, e, r, 0) + l.size <= |buf| && e * l.size + l.size <= REG_BYTES
    ensures Scattered(l, regs, r, e + 1, Patched(buf, Slot(l, e, r, 0), regs[r][e * l.size..e * l.size + l.size]))
  {
    var dst, src := Slot(l, e, r, 0), e * l.size;
    SlotInRange(l, e, r, l.size - 1);
    ByteInRange(l, e, l.size - 1);
    var out := Patched(buf, dst, regs[r][src..src + l.size]);
    forall p | 0 <= p < l.Total() && (RegisterAt(l, p) < r || (RegisterAt(l, p) == r && ElementAt(l, p) < e + 1))
      ensures out[p] == SourceByte(l, regs, p)
    {
      ScatterStepAt(l, regs, r, e, p, buf[p], out[p]);
    }
  }

  lemma ScatterStepAt(l: Layout, regs: seq<Register>, r: nat, e: nat, p: nat, was: byte, now: byte)
    requires l.Valid() && |regs| == l.regs && r < l.regs && p < l.Total() && e * l.size + l.size <= REG_BYTES
    requires RegisterAt(l, p) < r || (RegisterAt(l, p) == r && ElementAt(l, p) < e) ==> was == SourceByte(l, regs, p)
    requires var dst := Slot(l, e, r, 0); now == if dst <= p < dst + l.size then regs[r][e * l.size + (p - dst)] else was
    ensures RegisterAt(l, p) < r || (RegisterAt(l, p) == r && ElementAt(l, p) < e + 1) ==> now == SourceByte(l, regs, p)
  {
    BlockIff(l, e, r, p);
  }

  lemma ScatterNext(l: Layout, regs: seq<Register>, r: nat, buf: seq<byte>)
    requires l.Valid() && |regs| == l.regs && Scattered(l, regs, r, l.elems, buf)
    ensures Scattered(l, regs, r + 1, 0, buf)
  {
    forall p | 0 <= p < l.Total() && RegisterAt(l, p) == r ensures buf[p] == SourceByte(l, regs, p) {
      ElementInRange(l, p);
    }
  }

  /** The inner loop of a store. */
  method Scatter(l: Layout, buf: seq<byte>, reg: Register, r: nat, ghost regs: seq<Register>) returns (out: seq<byte>)
    requires l.Valid() && |regs| == l.regs && r < l.regs && reg == regs[r] && Scattered(l, regs, r, 0, buf)
    ensures Scattered(l, regs, r + 1, 0, out) && Moved(l, out, reg, r)
  {
    out := buf;
    var e := 0;
    while e < l.elems
      invariant 0 <= e <= l.elems && Scattered(l, regs, r, e, out)
    {
      ScatterStep(l, regs, r, e, out);
      var dst, src := Slot(l, e, r, 0), e * l.size;
      out := Patched(out, dst, reg[src..src + l.size]);
      e := e + 1;
    }
    ScatterNext(l, regs, r, out);
    ScatteredMoves(l, regs, r, out);
  }

  lemma ScatteredMoves(l: Layout, regs: seq<Register>, r: nat, buf: seq<byte>)
    requires l.Valid() && |regs| == l.regs && r < l.regs && Scattered(l, regs, r + 1, 0, buf)
    ensures Moved(l, buf, regs[r], r)
  {
    forall e, k | 0 <= e < l.elems && 0 <= k < l.size ensures ByteMoved(l.regs, l.size, buf, regs[r], r, e, k) {
      ScatteredAt(l, regs, r, buf, e, k, Slot(l, e, r, k));
    }
  }

  lemma ScatteredAt(l: Layout, regs: seq<Register>, r: nat, buf: seq<byte>, e: nat, k: nat, p: nat)
    requires l.Valid() && |regs| == l.regs && r < l.regs && Scattered(l, regs, r + 1, 0, buf)
    requires e < l.elems && k < l.size && p == Slot(l, e, r, k)
    ensures p < |buf| && e * l.size + k < 16 && buf[p] == regs[r][e * l.size + k]
  {
    SourceAtSlot(l, regs, e, r, k);
    SlotOf(l, e, r, k);
    assert Interleaved(l, regs)[p] == SourceByte(l, regs, p);
  }

  /** How far a register is from rt, going up and around. */
  function Distance(rt: nat, i: nat): nat
    requires i < 32
  {
    (i + 32 - rt % 32) % 32
  }

  lemma DistanceOf(rt: nat, r: nat, i: nat)
    requires r < 32 && i < 32
    ensures Distance(rt, i) == r <==> i == (rt + r) % 32
  {
  }

  /** The registers after a load that succeeds. */
  ghost predicate Loaded(l: Layout, data: seq<byte>, rt: nat, n: nat, fp: seq<Register>, was: seq<Register>)
    requires l.Valid() && |data| == l.Total() && n <= l.regs
  {
    && |fp| == 32 && |was| == 32
    && forall i :: 0 <= i < 32 ==> fp[i] == if Distance(rt, i) < n then Deinterleaved(l, data, Distance(rt, i)) else was[i]
  }

  lemma LoadedMoves(l: Layout, data: seq<byte>, rt: nat, fp: seq<Register>, was: seq<Register>)
    requires l.Valid() && |data| == l.Total() && Loaded(l, data, rt, l.regs, fp, was)
    ensures AllMoved(l, data, fp, rt)
  {
    forall r | 0 <= r < l.regs ensures MovedFrom(l, data, fp, rt, r) {
      DistanceOf(rt, r, (rt + r) % 32);
      LoadMoves(l, data, r);
    }
  }

  /** The loop of a load over the registers. */
  method Fill(fp: array<Register>, l: Layout, data: seq<byte>, rt: nat)
    requires fp.Length == 32 && l.Valid() && |data| == l.Total()
    modifies fp
    ensures Loaded(l, data, rt, l.regs, fp[..], old(fp[..]))
    ensures AllMoved(l, data, fp[..], rt)
  {
    var r := 0;
    while r < l.regs
      invariant 0 <= r <= l.regs && Loaded(l, data, rt, r, fp[..], old(fp[..]))
    {
      var reg := Gather(l, data, r);
      forall i | 0 <= i < 32 ensures Distance(rt, i) == r <==> i == (rt + r) % 32 {
        DistanceOf(rt, r, i);
      }
      fp[(rt + r) % 32] := reg;
      r := r + 1;
    }
    LoadedMoves(l, data, rt, fp[..], old(fp[..]));
  }

  /** The registers an access is about, in their order. */
  function Chosen(fp: seq<Register>, rt: nat, n: nat): (r: seq<Register>)
    requires |fp| == 32
    ensures |r| == n && forall i :: 0 <= i < n ==> r[i] == fp[(rt + i) % 32]
  {
    seq<Register>(n, i requires 0 <= i < n => fp[(rt + i) % 32])
  }

  lemma ChosenMoves(l: Layout, fp: seq<Register>, rt: nat)
    requires l.Valid() && |fp| == 32
    ensures AllMoved(l, Interleaved(l, Chosen(fp, rt, l.regs)), fp, rt)
  {
    var regs := Chosen(fp, rt, l.regs);
    forall r | 0 <= r < l.regs ensures MovedFrom(l, Interleaved(l, regs), fp, rt, r) {
      StoreMoves(l, regs, r);
    }
  }

  /** The loops of a store over the registers. */
  method Collect(fp: array<Register>, l: Layout, rt: nat) returns (buf: seq<byte>)
    requires fp.Length == 32 && l.Valid()
    ensures buf == Interleaved(l, Chosen(fp[..], rt, l.regs))
    ensures AllMoved(l, buf, fp[..], rt)
  {
    buf := seq<byte>(l.Total(), _ => 0);
    ghost var regs := Chosen(fp[..], rt, l.regs);
    var r := 0;
    while r < l.regs
      invariant 0 <= r <= l.regs && Scattered(l, regs, r, 0, buf)
    {
      buf := Scatter(l, buf, fp[(rt + r) % 32], r, regs);
      r := r + 1;
    }
    ChosenMoves(l, fp[..], rt);
  }

  lemma LayoutValid(regs: nat, elemSize: nat, q: bool)
    requires 0 < regs <= 4 && elemSize <= 3
    ensures LayoutOf(regs, elemSize, q).Valid() && 0 < LayoutOf(regs, elemSize, q).Total() <= 64
  {
    var l := LayoutOf(regs, elemSize, q);
    TotalFits(l);
    SlotInRange(l, 0, 0, 0);
  }

  /** Byte k of element e of the register r places after rt, modulo 32: it is the byte at addr + (e * n + r) * size + k. */
  predicate AtPlace(m: Mmu, addr: nat, n: nat, size: nat, fp: seq<Register>, rt: nat, r: nat, e: nat, k: nat) {
    |fp| == 32 && e * size + k < 16 && fp[(rt + r) % 32][e * size + k] == ByteAt(m, addr + ((e * n + r) * size + k))
  }

  /** Memory at an address holds the n registers from rt on, element by element in turn. */
  ghost predicate Holds(m: Mmu, addr: nat, rt: nat, n: nat, elemSize: nat, q: bool, fp: seq<Register>) {
    && elemSize <= 3
    && var size := [1, 2, 4, 8][elemSize];
       forall r, e, k {:trigger AtPlace(m, addr, n, size, fp, rt, r, e, k)} ::
         0 <= r < n && 0 <= e < (if q then 16 else 8) / size && 0 <= k < size ==> AtPlace(m, addr, n, size, fp, rt, r, e, k)
  }

  /** The bytes at an address. */
  ghost predicate AreAt(m: Mmu, addr: nat, buf: seq<byte>) {
    forall p :: 0 <= p < |buf| ==> buf[p] == ByteAt(m, addr + p)
  }

  lemma MovedByteIsHeld(m: Mmu, addr: nat, n: nat, size: nat, buf: seq<byte>, fp: seq<Register>, rt: nat, r: nat, e: nat, k: nat)
    requires AreAt(m, addr, buf) && |fp| == 32 && ByteMoved(n, size, buf, fp[(rt + r) % 32], r, e, k)
    ensures AtPlace(m, addr, n, size, fp, rt, r, e, k)
  {
    var p := (e * n + r) * size + k;
    assert buf[p] == ByteAt(m, addr + p);
  }

  lemma MovedIsHeld(m: Mmu, addr: nat, rt: nat, n: nat, elemSize: nat, q: bool, fp: seq<Register>, buf: seq<byte>)
    requires elemSize <= 3 && AreAt(m, addr, buf) && AllMoved(LayoutOf(n, elemSize, q), buf, fp, rt)
    ensures Holds(m, addr, rt, n, elemSize, q, fp)
  {
    var l := LayoutOf(n, elemSize, q);
    forall r, e, k | 0 <= r < n && 0 <= e < l.elems && 0 <= k < l.size
      ensures AtPlace(m, addr, n, l.size, fp, rt, r, e, k)
    {
      assert MovedFrom(l, buf, fp, rt, r);
      assert ByteMoved(l.regs, l.size, buf, fp[(rt + r) % 32], r, e, k);
      MovedByteIsHeld(m, addr, n, l.size, buf, fp, rt, r, e, k);
    }
  }

  predicate Picked(rt: nat, r: nat, i: nat) {
    (rt + r) % 32 == i
  }

  predicate UpperZero(fp: seq<Register>, rt: nat, r: nat) {
    |fp| == 32 && (var reg := fp[(rt + r) % 32]; forall b :: 8 <= b < 16 ==> reg[b] == 0)
  }

  /** After a load the upper halves are zero if only the lower ones are loaded, and other registers are as before. */
  ghost predicate RestIs(rt: nat, n: nat, q: bool, fp: seq<Register>, was: seq<Register>) {
    && |fp| == 32 && |was| == 32
    && (forall r {:trigger UpperZero(fp, rt, r)} :: 0 <= r < n && !q ==> UpperZero(fp, rt, r))
    && forall i :: 0 <= i < 32 && (forall r {:trigger Picked(rt, r, i)} :: 0 <= r < n ==> !Picked(rt, r, i)) ==> fp[i] == was[i]
  }

  lemma LoadedUpper(l: Layout, data: seq<byte>, rt: nat, fp: seq<Register>, was: seq<Register>, r: nat)
    requires l.Valid() && |data| == l.Total() && Loaded(l, data, rt, l.regs, fp, was) && l.Half() == 8 && r < l.regs
    ensures UpperZero(fp, rt, r)
  {
    DistanceOf(rt, r, (rt + r) % 32);
  }

  lemma LoadedOthers(l: Layout, data: seq<byte>, rt: nat, fp: seq<Register>, was: seq<Register>, i: nat)
    requires l.Valid() && |data| == l.Total() && Loaded(l, data, rt, l.regs, fp, was) && i < 32
    requires forall r {:trigger Picked(rt, r, i)} :: 0 <= r < l.regs ==> !Picked(rt, r, i)
    ensures fp[i] == was[i]
  {
    var r := Distance(rt, i);
    DistanceOf(rt, r, i);
    assert Picked(rt, r, i);
  }

  lemma LoadedRest(l: Layout, data: seq<byte>, rt: nat, q: bool, fp: seq<Register>, was: seq<Register>)
    requires l.Valid() && |data| == l.Total() && Loaded(l, data, rt, l.regs, fp, was) && (!q ==> l.Half() == 8)
    ensures RestIs(rt, l.regs, q, fp, was)
  {
    forall r | 0 <= r < l.regs && !q ensures UpperZero(fp, rt, r) {
      LoadedUpper(l, data, rt, fp, was, r);
    }
    forall i | 0 <= i < 32 && (forall r {:trigger Picked(rt, r, i)} :: 0 <= r < l.regs ==> !Picked(rt, r, i))
      ensures fp[i] == was[i]
    {
      LoadedOthers(l, data, rt, fp, was, i);
    }
  }

  lemma LoadIsDone(m: Mmu, addr: nat, rt: nat, n: nat, elemSize: nat, q: bool, fp: seq<Register>, was: seq<Register>, data: seq<byte>)
    requires 0 < n <= 4 && elemSize <= 3 && data == BytesAt(m, addr, |data|) && |data| == LayoutOf(n, elemSize, q).Total()
    requires LayoutOf(n, elemSize, q).Valid() && Loaded(LayoutOf(n, elemSize, q), data, rt, n, fp, was)
    ensures Holds(m, addr, rt, n, elemSize, q, fp) && RestIs(rt, n, q, fp, was)
  {
    var l := LayoutOf(n, elemSize, q);
    LoadedMoves(l, data, rt, fp, was);
    MovedIsHeld(m, addr, rt, n, elemSize, q, fp, data);
    HalfOf(n, elemSize, q);
    LoadedRest(l, data, rt, q, fp, was);
  }

  lemma HalfOf(n: nat, elemSize: nat, q: bool)
    requires elemSize <= 3
    ensures LayoutOf(n, elemSize, q).Half() == if q then 16 else 8
  {
    if elemSize == 0 {
    } else if elemSize == 1 {
    } else if elemSize == 2 {
    } else {
      assert elemSize == 3;
    }
  }

  lemma StoredReadsBack(m: Mmu, addr: nat, buf: seq<byte>)
    requires Valid(m) && |buf| <= 64 && Access(m, addr, |buf|, true).1
    ensures BytesAt(AllOrNothing(m, addr, buf), addr, |buf|) == buf
  {
    AccessValid(m, addr, |buf|, true);
    AccessMaps(m, addr, |buf|, true);
    LoadAfterStore(Access(m, addr, |buf|, true).0, addr, buf);
  }

  class Cpu {
    const fp: array<Register>
    const tlb: Tlb

    constructor (tlb: Tlb)
      requires tlb.Synced()
      ensures this.tlb == tlb && Valid() && fresh(fp)
    {
      fp := new Register[32](_ => seq<byte>(REG_BYTES, _ => 0));
      this.tlb := tlb;
    }

    ghost predicate Valid()
      reads this, tlb, tlb.entries
    {
      fp.Length == 32 && tlb.Synced()
    }

    /** LD2, LD3 and LD4. */
    method LoadInterleaved(addr: nat, rt: nat, regs: nat, elemSize: nat, q: bool) returns (ok: bool)
      requires Valid()
      modifies fp, tlb, tlb.entries
      ensures Valid()
      ensures !ok ==> fp[..] == old(fp[..])
      ensures regs > 4 || elemSize > 3 ==> !ok && tlb.mmu == old(tlb.mmu)
      ensures regs == 0 && elemSize <= 3 ==>
                && tlb.mmu == Translated(old(tlb.mmu), Page(addr), false) && fp[..] == old(fp[..])
                && ok == Pointer(tlb.mmu, addr, false).Some?
      ensures 0 < regs <= 4 && elemSize <= 3 ==>
                var l := LayoutOf(regs, elemSize, q);
                && tlb.mmu == Access(old(tlb.mmu), addr, l.Total(), false).0
                && ok == Access(old(tlb.mmu), addr, l.Total(), false).1
                && (ok ==> l.Valid() && Loaded(l, BytesAt(tlb.mmu, addr, l.Total()), rt, regs, fp[..], old(fp[..])))
      ensures ok && regs > 0 ==> Holds(tlb.mmu, addr, rt, regs, elemSize, q, fp[..]) && RestIs(rt, regs, q, fp[..], old(fp[..]))
    {
      if regs > 4 || elemSize > 3 {
        return false;
      }
      if regs == 0 {
        var p := tlb.ReadPtr(addr);
        return p.Some?;
      }
      var l := LayoutOf(regs, elemSize, q);
      LayoutValid(regs, elemSize, q);
      var data := tlb.Read(addr, l.Total());
      if data.None? {
        return false;
      }
      Fill(fp, l, data.value, rt);
      LoadIsDone(tlb.mmu, addr, rt, regs, elemSize, q, fp[..], old(fp[..]), data.value);
      return true;
    }

    /** ST2, ST3 and ST4. */
    method StoreInterleaved(addr: nat, rt: nat, regs: nat, elemSize: nat, q: bool) returns (ok: bool)
      requires Valid()
      modifies tlb, tlb.entries
      ensures Valid()
      ensures regs > 4 || elemSize > 3 ==> !ok && tlb.mmu == old(tlb.mmu)
      ensures regs == 0 && elemSize <= 3 ==>
                tlb.mmu == Translated(old(tlb.mmu), Page(addr), true) && ok == Pointer(tlb.mmu, addr, true).Some?
      ensures 0 < regs <= 4 && elemSize <= 3 ==>
                var l := LayoutOf(regs, elemSize, q); var m := Access(old(tlb.mmu), addr, l.Total(), true).0;
                && l.Valid() && ok == Access(old(tlb.mmu), addr, l.Total(), true).1
                && tlb.mmu == if ok then WithBytes(m, addr, Interleaved(l, Chosen(fp[..], rt, regs))) else m
      ensures ok && regs > 0 ==> Holds(tlb.mmu, addr, rt, regs, elemSize, q, fp[..])
    {
      if regs > 4 || elemSize > 3 {
        return false;
      }
      if regs == 0 {
        var p := tlb.WritePtr(addr);
        return p.Some?;
      }
      var l := LayoutOf(regs, elemSize, q);
      LayoutValid(regs, elemSize, q);
      var buf := Collect(fp, l, rt);
      ghost var m := tlb.mmu;
      ok := tlb.Write(addr, buf);
      if ok {
        StoredReadsBack(m, addr, buf);
        MovedIsHeld(tlb.mmu, addr, rt, regs, elemSize, q, fp[..], buf);
      }
    }
  }
}
