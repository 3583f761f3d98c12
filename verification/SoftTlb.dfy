/**
 The software TLB (emu/tlb.h, emu/tlb.c): a direct-mapped cache of translations in front of the guest memory,
 and the accesses that go through it.  Each method is proved against guest memory alone, so a caller cannot
 tell that the cache is there.
 */
module SoftTlb {
  import opened Common
  import Bits
  import opened GuestMemory

  const TLB_SIZE: nat := 8192
  const EMPTY: nat := 1

  /** An entry of the cache; the frame stands for the difference between host and guest addresses. */
  datatype Entry = Entry(page: nat, pageIfWritable: nat, frame: nat)

  /** A pointer into host memory. */
  datatype Host = Host(frame: nat, offset: nat)

  function TlbIndex(addr: nat): (r: nat)
    ensures r < TLB_SIZE
  {
    Bits.Xor(addr / PAGE_SIZE, addr / (PAGE_SIZE * TLB_SIZE)) % TLB_SIZE
  }

  function TlbPage(addr: nat): nat {
    addr / PAGE_SIZE * PAGE_SIZE
  }

  /** An entry says what translating would say, and is marked writable only if writing needs nothing further. */
  predicate EntryOk(m: Mmu, e: Entry) {
    && (e.page != EMPTY ==> e.page == TlbPage(e.page) && FrameOf(m, Page(e.page), false) == Some(e.frame))
    && (e.pageIfWritable == EMPTY
        || (e.pageIfWritable == e.page && e.page != EMPTY && FrameOf(m, Page(e.page), true) == Some(e.frame)))
  }

  lemma TlbPageFacts(addr: nat)
    ensures TlbPage(addr) != EMPTY && Page(TlbPage(addr)) == Page(addr) && TlbPage(TlbPage(addr)) == TlbPage(addr)
    ensures TlbPage(addr) + Offset(addr) == addr
  {
  }

  /** The host pointer that translating gives. */
  function Pointer(m: Mmu, addr: nat, write: bool): Option<Host> {
    match FrameOf(m, Page(addr), write)
    case None => None
    case Some(frame) => Some(Host(frame, Offset(addr)))
  }

  class Tlb {
    const entries: array<Entry>
    var mmu: Mmu     // the memory of the address space
    var space: nat   // which one it is
    var memChanges: nat
    var segfaultAddr: nat
    var dirtyPage: nat   // the page last written, as far as the cache knows

    /** Nothing has changed behind the back of the cache. */
    ghost predicate Synced()
      reads this, entries
    {
      && entries.Length == TLB_SIZE && Valid(mmu) && memChanges == mmu.changes
      && forall i :: 0 <= i < TLB_SIZE ==> EntryOk(mmu, entries[i])
    }

    /** Changes are at least noticed: the entries are right unless the counts differ. */
    ghost predicate Watched()
      reads this, entries
    {
      && entries.Length == TLB_SIZE && Valid(mmu)
      && (memChanges == mmu.changes ==> forall i :: 0 <= i < TLB_SIZE ==> EntryOk(mmu, entries[i]))
    }

    method Flush()
      requires entries.Length == TLB_SIZE && Valid(mmu)
      modifies this`memChanges, entries
      ensures Synced()
    {
      memChanges := mmu.changes;
      for i := 0 to TLB_SIZE
        invariant memChanges == mmu.changes && forall k :: 0 <= k < i ==> entries[k] == Entry(EMPTY, EMPTY, 0)
      {
        entries[i] := Entry(EMPTY, EMPTY, 0);
      }
    }

    /** tlb_refresh: `id` names the address space to run, and `m` is its memory now. */
    method Refresh(id: nat, m: Mmu)
      requires Watched() && Valid(m) && (id == space ==> m == mmu)
      modifies this`mmu, this`space, this`memChanges, this`dirtyPage, entries
      ensures Synced() && space == id && mmu == m
    {
      if space == id && memChanges == m.changes {
        return;
      }
      space, mmu, dirtyPage := id, m, EMPTY;
      Flush();
    }

    method HandleMiss(addr: nat, write: bool) returns (p: Option<Host>)
      requires Synced()
      modifies this, entries
      ensures Synced() && mmu == Translated(old(mmu), Page(addr), write)
      ensures p == Pointer(mmu, addr, write)
      ensures if p.Some? then dirtyPage == TlbPage(addr) else dirtyPage == old(dirtyPage) && segfaultAddr == addr
    {
      var page := Page(addr);
      TlbPageFacts(addr);
      TranslateCounts(mmu, page, write);
      TranslateValid(mmu, page, write);
      TranslateStable(mmu, page, write);
      var (m, frame) := Translate(mmu, page, write);
      mmu := m;
      if mmu.changes != memChanges {
        Flush();
        var (m', frame') := Translate(mmu, page, write);
        mmu, frame := m', frame';
      }
      if frame.None? {
        segfaultAddr := addr;
        return None;
      }
      memChanges := mmu.changes;
      dirtyPage := TlbPage(addr);
      var i := TlbIndex(addr);
      if write {
        entries[i] := Entry(TlbPage(addr), TlbPage(addr), frame.value);
      } else {
        var writable := FrameOf(mmu, page, true);
        entries[i] := Entry(TlbPage(addr), if writable.Some? then TlbPage(addr) else EMPTY, frame.value);
      }
      return Some(Host(frame.value, Offset(addr)));
    }

    /** A pointer for reading, out of the cache or not, is the one translating gives. */
    method ReadPtr(addr: nat) returns (p: Option<Host>)
      requires Synced()
      modifies this, entries
      ensures Synced() && mmu == Translated(old(mmu), Page(addr), false) && p == Pointer(mmu, addr, false)
    {
      var e := entries[TlbIndex(addr)];
      TlbPageFacts(addr);
      if e.page == TlbPage(addr) {
        TranslateReady(mmu, Page(addr), false);
        return Some(Host(e.frame, Offset(addr)));
      }
      p := HandleMiss(addr, false);
    }

    method WritePtr(addr: nat) returns (p: Option<Host>)
      requires Synced()
      modifies this, entries
      ensures Synced() && mmu == Translated(old(mmu), Page(addr), true) && p == Pointer(mmu, addr, true)
      ensures p.Some? ==> dirtyPage == TlbPage(addr)
      ensures p.None? ==> segfaultAddr == addr
    {
      var e := entries[TlbIndex(addr)];
      TlbPageFacts(addr);
      if e.pageIfWritable == TlbPage(addr) {
        dirtyPage := TlbPage(addr);
        TranslateReady(mmu, Page(addr), true);
        return Some(Host(e.frame, Offset(addr)));
      }
      p := HandleMiss(addr, true);
    }

    /** tlb_read, and with it the reading half of the helper for accesses across pages. */
    method Read(addr: nat, n: nat) returns (data: Option<seq<byte>>)
      requires Synced() && 0 < n <= PAGE_SIZE
      modifies this, entries
      ensures Synced() && mmu == Access(old(mmu), addr, n, false).0 && data.Some? == Access(old(mmu), addr, n, false).1
      ensures data.Some? ==> data.value == BytesAt(mmu, addr, n)
    {
      if Offset(addr) > PAGE_SIZE - n {
        data := ReadCrossPage(addr, n);
        return;
      }
      AccessWithinPage(mmu, addr, n, false);
      var p := ReadPtr(addr);
      if p.None? {
        return None;
      }
      PageBytes(mmu, addr, n);
      return Some(mmu.frames[p.value.frame][p.value.offset..p.value.offset + n]);
    }

    method ReadCrossPage(addr: nat, n: nat) returns (data: Option<seq<byte>>)
      requires Synced() && PAGE_SIZE - Offset(addr) < n <= PAGE_SIZE
      modifies this, entries
      ensures Synced() && mmu == Access(old(mmu), addr, n, false).0 && data.Some? == Access(old(mmu), addr, n, false).1
      ensures data.Some? ==> data.value == BytesAt(mmu, addr, n)
    {
      AccessAcrossPages(mmu, addr, n, false);
      var part1 := PAGE_SIZE - Offset(addr);
      var next := (Page(addr) + 1) * PAGE_SIZE;
      var p1 := ReadPtr(addr);
      if p1.None? {
        return None;
      }
      ghost var m1 := mmu;
      var p2 := ReadPtr(next);
      if p2.None? {
        return None;
      }
      TranslateKeepsOthers(m1, Page(addr) + 1, false, Page(addr));
      PartsAreBytes(mmu, addr, part1, n);
      var head := mmu.frames[p1.value.frame][p1.value.offset..p1.value.offset + part1];
      var tail := mmu.frames[p2.value.frame][p2.value.offset..p2.value.offset + (n - part1)];
      return Some(head + tail);
    }

    /** memcpy to a host pointer, in terms of the guest address it stands for. */
    method CopyTo(p: Host, ghost addr: nat, bytes: seq<byte>)
      requires Synced() && Pointer(mmu, addr, true) == Some(p) && Offset(addr) + |bytes| <= PAGE_SIZE
      modifies this`mmu
      ensures Synced() && mmu == WithBytes(old(mmu), addr, bytes)
    {
      PageStore(mmu, addr, bytes);
      WithBytesKeepsPages(mmu, addr, bytes);
      forall i | 0 <= i < TLB_SIZE ensures EntryOk(WithBytes(mmu, addr, bytes), entries[i]) {
        EntriesKept(mmu, addr, bytes, entries[i]);
      }
      var frame := mmu.frames[p.frame];
      mmu := mmu.(frames := mmu.frames[p.frame := Spliced(frame, p.offset, bytes)]);
    }

    /** tlb_write: all bytes or, when a page cannot be written, none. */
    method Write(addr: nat, bytes: seq<byte>) returns (ok: bool)
      requires Synced() && 0 < |bytes| <= PAGE_SIZE
      modifies this, entries
      ensures Synced() && ok == Access(old(mmu), addr, |bytes|, true).1 && mmu == AllOrNothing(old(mmu), addr, bytes)
      ensures ok ==> dirtyPage == TlbPage(addr + (|bytes| - 1))
    {
      if Offset(addr) > PAGE_SIZE - |bytes| {
        ok := WriteCrossPage(addr, bytes);
        return;
      }
      AccessWithinPage(mmu, addr, |bytes|, true);
      var p := WritePtr(addr);
      if p.None? {
        return false;
      }
      CopyTo(p.value, addr, bytes);
      return true;
    }

    method WriteCrossPage(addr: nat, bytes: seq<byte>) returns (ok: bool)
      requires Synced() && PAGE_SIZE - Offset(addr) < |bytes| <= PAGE_SIZE
      modifies this, entries
      ensures Synced() && ok == Access(old(mmu), addr, |bytes|, true).1 && mmu == AllOrNothing(old(mmu), addr, bytes)
      ensures ok ==> dirtyPage == TlbPage(addr + (|bytes| - 1))
    {
      LastPage(addr, |bytes|);
      var pair := WritePtrs(addr, |bytes|);
      if pair.None? {
        return false;
      }
      CopyParts(pair.value.0, pair.value.1, addr, PAGE_SIZE - Offset(addr), bytes);
      return true;
    }

    /** Pointers to both pages of a write, if both can be written. */
    method WritePtrs(addr: nat, n: nat) returns (pair: Option<(Host, Host)>)
      requires Synced() && PAGE_SIZE - Offset(addr) < n <= PAGE_SIZE
      modifies this, entries
      ensures Synced() && mmu == Access(old(mmu), addr, n, true).0 && pair.Some? == Access(old(mmu), addr, n, true).1
      ensures pair.Some? ==> Pointer(mmu, addr, true) == Some(pair.value.0)
      ensures pair.Some? ==> Pointer(mmu, addr + (PAGE_SIZE - Offset(addr)), true) == Some(pair.value.1)
      ensures pair.Some? ==> dirtyPage == (Page(addr) + 1) * PAGE_SIZE
    {
      NextPage(addr);
      AccessAcrossPages(mmu, addr, n, true);
      var p1 := WritePtr(addr);
      if p1.None? {
        return None;
      }
      ghost var m1 := mmu;
      var p2 := WritePtr((Page(addr) + 1) * PAGE_SIZE);
      if p2.None? {
        return None;
      }
      TranslateKeepsOthers(m1, Page(addr) + 1, true, Page(addr));
      return Some((p1.value, p2.value));
    }

    /** The two copies of an access across pages. */
    method CopyParts(p1: Host, p2: Host, ghost addr: nat, part1: nat, bytes: seq<byte>)
      requires Synced() && Pointer(mmu, addr, true) == Some(p1) && Pointer(mmu, addr + part1, true) == Some(p2)
      requires part1 <= |bytes| && Offset(addr) + part1 <= PAGE_SIZE
      requires Offset(addr + part1) + (|bytes| - part1) <= PAGE_SIZE
      modifies this`mmu
      ensures Synced() && mmu == WithBytes(old(mmu), addr, bytes)
    {
      WithBytesKeepsPages(mmu, addr, bytes[..part1]);
      CopyTo(p1, addr, bytes[..part1]);
      CopyTo(p2, addr + part1, bytes[part1..]);
      WithBytesJoin(old(mmu), addr, bytes[..part1], bytes[part1..]);
      assert bytes[..part1] + bytes[part1..] == bytes;
    }

    /** c_load64: one access when aligned, else byte by byte. */
    method Load64(addr: nat) returns (value: Option<nat>)
      requires Synced()
      modifies this, entries
      ensures Synced() && mmu == Access(old(mmu), addr, 8, false).0 && value.Some? == Access(old(mmu), addr, 8, false).1
      ensures value.Some? ==> value.value == LittleEndian(BytesAt(mmu, addr, 8))
    {
      if addr % 8 != 0 {
        value := LoadUnaligned(addr, 8);
        return;
      }
      AccessWithinPage(mmu, addr, 8, false);
      var p := ReadPtr(addr);
      if p.None? {
        return None;
      }
      PageBytes(mmu, addr, 8);
      return Some(LittleEndian(mmu.frames[p.value.frame][p.value.offset..p.value.offset + 8]));
    }

    method ReadByte(addr: nat) returns (b: Option<byte>)
      requires Synced()
      modifies this, entries
      ensures Synced() && mmu == Translated(old(mmu), Page(addr), false)
      ensures b.Some? == FrameOf(mmu, Page(addr), false).Some?
      ensures b.Some? ==> b.value == ByteAt(mmu, addr) && Page(addr) in mmu.pages
    {
      var p := ReadPtr(addr);
      if p.None? {
        return None;
      }
      return Some(mmu.frames[p.value.frame][p.value.offset]);
    }

    method WriteByte(addr: nat, b: byte) returns (ok: bool)
      requires Synced()
      modifies this, entries
      ensures Synced() && ok == FrameOf(Translated(old(mmu), Page(addr), true), Page(addr), true).Some?
      ensures var t := Translated(old(mmu), Page(addr), true); mmu == if ok then WithByte(t, addr, b) else t
    {
      var p := WritePtr(addr);
      if p.None? {
        return false;
      }
      WithOneByte(mmu, addr, b);
      CopyTo(p.value, addr, [b]);
      return true;
    }

    method LoadUnaligned(addr: nat, n: nat) returns (value: Option<nat>)
      requires Synced()
      modifies this, entries
      ensures Synced() && mmu == Access(old(mmu), addr, n, false).0 && value.Some? == Access(old(mmu), addr, n, false).1
      ensures value.Some? ==> value.value == LittleEndian(BytesAt(mmu, addr, n))
    {
      ghost var goal, fits := Access(mmu, addr, n, false).0, Access(mmu, addr, n, false).1;
      var result, i, a := 0, 0, addr;
      while i < n
        invariant 0 <= i <= n && a == addr + i && Synced() && Mapped(mmu, addr, i)
        invariant Access(mmu, a, n - i, false).0 == goal
        invariant Access(mmu, a, n - i, false).1 == fits
        invariant result == LittleEndian(BytesAt(mmu, addr, i))
      {
        ghost var m := mmu;
        var b := ReadByte(a);
        LoadAdvances(m, addr, a, n - i, goal, fits, b);
        if b.None? {
          return None;
        }
        result, i, a := result + b.value * Power(i), i + 1, a + 1;
      }
      return Some(result);
    }

    /** c_store64: one access when aligned, else byte by byte; a failure half-way leaves the bytes before it. */
    method Store64(addr: nat, value: nat) returns (ok: bool)
      requires Synced()
      modifies this, entries
      ensures Synced() && mmu == Store(old(mmu), addr, ToBytes(value, 8)).0 && ok == Store(old(mmu), addr, ToBytes(value, 8)).1
    {
      if addr % 8 != 0 {
        ok := StoreUnaligned(addr, value, 8);
        return;
      }
      StoreWithinPage(mmu, addr, ToBytes(value, 8));
      var p := WritePtr(addr);
      if p.None? {
        return false;
      }
      CopyTo(p.value, addr, ToBytes(value, 8));
      return true;
    }

    method StoreUnaligned(addr: nat, value: nat, n: nat) returns (ok: bool)
      requires Synced()
      modifies this, entries
      ensures Synced() && mmu == Store(old(mmu), addr, ToBytes(value, n)).0 && ok == Store(old(mmu), addr, ToBytes(value, n)).1
    {
      ghost var goal, fits := Store(mmu, addr, ToBytes(value, n)).0, Store(mmu, addr, ToBytes(value, n)).1;
      var rest, a, left := value, addr, n;
      while left > 0
        invariant Synced()
        invariant Store(mmu, a, ToBytes(rest, left)).0 == goal
        invariant Store(mmu, a, ToBytes(rest, left)).1 == fits
      {
        ghost var m := mmu;
        var written := WriteByte(a, rest % 256);
        StoreAdvances(m, mmu, a, rest, left, written, goal, fits);
        if !written {
          return false;
        }
        rest, a, left := rest / 256, a + 1, left - 1;
      }
      return true;
    }
  }

  function LittleEndian(bytes: seq<byte>): nat {
    if bytes == [] then 0 else bytes[0] + 256 * LittleEndian(bytes[1..])
  }

  function ToBytes(value: nat, n: nat): (r: seq<byte>)
    ensures |r| == n
    decreases n
  {
    if n == 0 then [] else [value % 256] + ToBytes(value / 256, n - 1)
  }

  function Power(n: nat): nat {
    if n == 0 then 1 else 256 * Power(n - 1)
  }

  /** An access across a page ends in the next one. */
  lemma LastPage(addr: nat, n: nat)
    requires PAGE_SIZE - Offset(addr) < n <= PAGE_SIZE
    ensures TlbPage(addr + (n - 1)) == (Page(addr) + 1) * PAGE_SIZE
  {
    assert addr == Page(addr) * PAGE_SIZE + Offset(addr);
  }

  /** The value of eight bytes, the first being the lowest. */
  lemma ValueOfEight(b: seq<byte>)
    requires |b| == 8
    ensures LittleEndian(b) == (b[0] as int) + 0x100 * (b[1] as int) + 0x1_0000 * (b[2] as int) + 0x100_0000 * (b[3] as int)
                             + 0x1_0000_0000 * (b[4] as int) + 0x100_0000_0000 * (b[5] as int) + 0x1_0000_0000_0000 * (b[6] as int)
                             + 0x100_0000_0000_0000 * (b[7] as int)
  {
    LowFour(b[1..][1..][1..][1..]);
    assert LittleEndian(b) == b[0] + 256 * LittleEndian(b[1..]);
    assert LittleEndian(b[1..]) == b[1] + 256 * LittleEndian(b[1..][1..]);
    assert LittleEndian(b[1..][1..]) == b[2] + 256 * LittleEndian(b[1..][1..][1..]);
    assert LittleEndian(b[1..][1..][1..]) == b[3] + 256 * LittleEndian(b[1..][1..][1..][1..]);
  }

  lemma LowFour(b: seq<byte>)
    requires |b| == 4
    ensures LittleEndian(b) == (b[0] as int) + 0x100 * (b[1] as int) + 0x1_0000 * (b[2] as int) + 0x100_0000 * (b[3] as int)
  {
    assert LittleEndian(b[1..]) == b[1] + 256 * LittleEndian(b[1..][1..]);
    assert LittleEndian(b[1..][1..]) == b[2] + 256 * LittleEndian(b[1..][1..][1..]);
    assert LittleEndian(b[1..][1..][1..]) == b[3] + 256 * LittleEndian(b[1..][1..][1..][1..]);
  }

  lemma {:induction false} LittleEndianSnoc(bytes: seq<byte>, b: byte)
    ensures LittleEndian(bytes + [b]) == LittleEndian(bytes) + b * Power(|bytes|)
    decreases |bytes|
  {
    if bytes == [] {
      assert [] + [b] == [b] && [b][1..] == [];
    } else {
      assert (bytes + [b])[1..] == bytes[1..] + [b];
      LittleEndianSnoc(bytes[1..], b);
      var k := Power(|bytes| - 1);
      assert 256 * (b * k) == b * (256 * k);
    }
  }

  /** A number and what its low bytes hold of it differ by a multiple of their range. */
  lemma {:induction false} ToBytesAndBack(value: nat, n: nat) returns (q: nat)
    ensures value == q * Power(n) + LittleEndian(ToBytes(value, n)) && LittleEndian(ToBytes(value, n)) < Power(n)
    decreases n
  {
    if n == 0 {
      q := value;
    } else {
      q := ToBytesAndBack(value / 256, n - 1);
      assert ToBytes(value, n)[1..] == ToBytes(value / 256, n - 1);
      assert 256 * (q * Power(n - 1)) == q * (256 * Power(n - 1));
    }
  }

  /** Bytes of a number stored, then loaded from the same address: the number up to a multiple of their range. */
  lemma StoreThenLoad(m: Mmu, addr: nat, value: nat, n: nat) returns (q: nat)
    requires Valid(m) && n <= PAGE_SIZE && Store(m, addr, ToBytes(value, n)).1
    ensures var stored := Store(m, addr, ToBytes(value, n)).0;
            && Access(stored, addr, n, false).0 == stored && Access(stored, addr, n, false).1
            && value == q * Power(n) + LittleEndian(BytesAt(stored, addr, n))
            && LittleEndian(BytesAt(stored, addr, n)) < Power(n)
  {
    StoreReadsBack(m, addr, ToBytes(value, n));
    AccessMapped(Store(m, addr, ToBytes(value, n)).0, addr, n);
    q := ToBytesAndBack(value, n);
  }

  const WORD: nat := 8
  const WORD_RANGE: nat := 0x1_0000_0000_0000_0000

  lemma PowerOfWord()
    ensures Power(WORD) == WORD_RANGE
  {
    assert Power(2) == 0x1_0000 && Power(4) == 0x1_0000_0000 && Power(6) == 0x1_0000_0000_0000;
  }

  /** A 64-bit store that succeeds, then a load from the same address: the value modulo 2^64, aligned or not. */
  lemma StoreThenLoad64(m: Mmu, addr: nat, value: nat)
    requires Valid(m) && Store(m, addr, ToBytes(value, WORD)).1
    ensures var stored := Store(m, addr, ToBytes(value, WORD)).0;
            && Access(stored, addr, WORD, false).0 == stored && Access(stored, addr, WORD, false).1
            && LittleEndian(BytesAt(stored, addr, WORD)) == value % WORD_RANGE
  {
    var q := StoreThenLoad(m, addr, value, WORD);
    WordRemainder(value, q, LittleEndian(BytesAt(Store(m, addr, ToBytes(value, WORD)).0, addr, WORD)));
  }

  lemma WordRemainder(value: nat, q: nat, r: nat)
    requires value == q * Power(WORD) + r && r < Power(WORD)
    ensures r == value % WORD_RANGE
  {
    PowerOfWord();
    assert value == q * WORD_RANGE + r;
  }

  /** A 64-bit store is all or nothing exactly unless it fails on its second page with other bytes than the first has. */
  lemma Store64IsAllOrNothingIff(m: Mmu, addr: nat, value: nat)
    requires Valid(m) && Private(m)
    ensures var bytes, k := ToBytes(value, WORD), PAGE_SIZE - Offset(addr);
            Store(m, addr, bytes).0 == AllOrNothing(m, addr, bytes)
            <==> (|| Access(m, addr, WORD, true).1
                  || FrameOf(Translated(m, Page(addr), true), Page(addr), true).None?
                  || (k < WORD && BytesAt(m, addr, k) == bytes[..k]))
    ensures addr % WORD == 0 ==> Store(m, addr, ToBytes(value, WORD)).0 == AllOrNothing(m, addr, ToBytes(value, WORD))
  {
    StoreIsAllOrNothingIff(m, addr, ToBytes(value, WORD));
    if addr % WORD == 0 {
      AlignedStore(m, addr, ToBytes(value, WORD));
    }
  }

  lemma AlignedFits(addr: nat)
    requires addr % 8 == 0
    ensures Offset(addr) + 8 <= PAGE_SIZE
  {
  }

  /** An aligned word can be written, or its first page cannot. */
  lemma AlignedStore(m: Mmu, addr: nat, bytes: seq<byte>)
    requires Valid(m) && Private(m) && addr % 8 == 0 && |bytes| == WORD
    ensures Store(m, addr, bytes).0 == AllOrNothing(m, addr, bytes)
  {
    AlignedFits(addr);
    AccessWithinPage(m, addr, WORD, true);
    StoreIsAllOrNothingIff(m, addr, bytes);
  }

  lemma BytesSnoc(m: Mmu, addr: nat, n: nat)
    ensures BytesAt(m, addr, n + 1) == BytesAt(m, addr, n) + [ByteAt(m, addr + n)]
  {
  }

  /** Translating a page, even copying it, leaves the bytes of the mapped pages. */
  lemma TranslateKeepsBytes(m: Mmu, page: nat, write: bool, addr: nat, n: nat)
    requires Valid(m) && Mapped(m, addr, n)
    ensures Mapped(Translated(m, page, write), addr, n)
    ensures BytesAt(Translated(m, page, write), addr, n) == BytesAt(m, addr, n)
  {
    var m' := Translated(m, page, write);
    forall a | addr <= a < addr + n ensures Page(a) in m'.pages && ByteAt(m', a) == ByteAt(m, a) {
      assert Page(a) in m.pages;
    }
  }

  lemma WithOneByte(m: Mmu, addr: nat, b: byte)
    ensures WithBytes(m, addr, [b]) == WithByte(m, addr, b)
  {
    assert [b][1..] == [];
  }

  /** One byte of a load is done. */
  lemma LoadAdvances(m: Mmu, addr: nat, a: nat, n: nat, goal: Mmu, fits: bool, b: Option<byte>)
    requires Valid(m) && addr <= a && n > 0 && Mapped(m, addr, a - addr)
    requires Access(m, a, n, false).0 == goal && Access(m, a, n, false).1 == fits
    requires b.Some? == FrameOf(Translated(m, Page(a), false), Page(a), false).Some?
    requires b.Some? ==> b.value == ByteAt(Translated(m, Page(a), false), a)
    ensures b.None? ==> Translated(m, Page(a), false) == goal && !fits
    ensures b.Some? ==>
              var t := Translated(m, Page(a), false);
              && Access(t, a + 1, n - 1, false).0 == goal && Access(t, a + 1, n - 1, false).1 == fits
              && Mapped(t, addr, a + 1 - addr)
              && LittleEndian(BytesAt(t, addr, a + 1 - addr)) == LittleEndian(BytesAt(m, addr, a - addr)) + b.value * Power(a - addr)
  {
    AccessUnfolds(m, a, n, false);
    if b.Some? {
      var t := Translated(m, Page(a), false);
      TranslateKeepsBytes(m, Page(a), false, addr, a - addr);
      BytesSnoc(t, addr, a - addr);
      LittleEndianSnoc(BytesAt(t, addr, a - addr), b.value);
    }
  }

  /** One byte of a store is done; `goal` and `fits` are what the whole store comes to. */
  lemma StoreAdvances(m: Mmu, m': Mmu, addr: nat, value: nat, n: nat, written: bool, goal: Mmu, fits: bool)
    requires n > 0 && Store(m, addr, ToBytes(value, n)).0 == goal && Store(m, addr, ToBytes(value, n)).1 == fits
    requires var t := Translated(m, Page(addr), true);
             written == FrameOf(t, Page(addr), true).Some? && m' == if written then WithByte(t, addr, value % 256) else t
    ensures !written ==> m' == goal && !fits
    ensures written ==> Store(m', addr + 1, ToBytes(value / 256, n - 1)).0 == goal
    ensures written ==> Store(m', addr + 1, ToBytes(value / 256, n - 1)).1 == fits
  {
    StoreUnfolds(m, addr, ToBytes(value, n));
    assert ToBytes(value, n)[1..] == ToBytes(value / 256, n - 1);
  }

  function Spliced(frame: seq<byte>, offset: nat, bytes: seq<byte>): seq<byte>
    requires offset + |bytes| <= |frame|
  {
    frame[..offset] + bytes + frame[offset + |bytes|..]
  }

  function Copied(m: Mmu, p: Host, bytes: seq<byte>): Mmu
    requires p.frame in m.frames && p.offset + |bytes| <= |m.frames[p.frame]|
  {
    m.(frames := m.frames[p.frame := Spliced(m.frames[p.frame], p.offset, bytes)])
  }

  lemma CopiedStep(m: Mmu, p: Host, bytes: seq<byte>)
    requires p.frame in m.frames && p.offset + |bytes| <= |m.frames[p.frame]| && bytes != []
    ensures var f: seq<byte> := m.frames[p.frame][p.offset := bytes[0]];
            var m1 := m.(frames := m.frames[p.frame := f]);
            Copied(m1, Host(p.frame, p.offset + 1), bytes[1..]) == Copied(m, p, bytes)
  {
    var frame := m.frames[p.frame];
    var f: seq<byte> := frame[p.offset := bytes[0]];
    var m1 := m.(frames := m.frames[p.frame := f]);
    assert Spliced(f, p.offset + 1, bytes[1..]) == Spliced(frame, p.offset, bytes);
    assert Copied(m1, Host(p.frame, p.offset + 1), bytes[1..]).frames == Copied(m, p, bytes).frames;
  }

  lemma CopiedNothing(m: Mmu, p: Host)
    requires p.frame in m.frames && p.offset <= |m.frames[p.frame]|
    ensures Copied(m, p, []) == m
  {
    assert Spliced(m.frames[p.frame], p.offset, []) == m.frames[p.frame];
    assert m.frames[p.frame := m.frames[p.frame]] == m.frames;
  }

  /** Copying bytes to the place in the frame stores them one by one. */
  lemma {:induction false} PageStore(m: Mmu, addr: nat, bytes: seq<byte>)
    requires Valid(m) && Page(addr) in m.pages && Offset(addr) + |bytes| <= PAGE_SIZE
    ensures Copied(m, Host(m.pages[Page(addr)].frame, Offset(addr)), bytes) == WithBytes(m, addr, bytes)
    decreases |bytes|
  {
    var p := Host(m.pages[Page(addr)].frame, Offset(addr));
    if bytes == [] {
      CopiedNothing(m, p);
    } else {
      var m1 := WithByte(m, addr, bytes[0]);
      WithByteValid(m, addr, bytes[0]);
      CopiedStep(m, p, bytes);
      if |bytes| == 1 {
        CopiedNothing(m1, Host(p.frame, p.offset + 1));
      } else {
        assert Page(addr + 1) == Page(addr) && Offset(addr + 1) == Offset(addr) + 1;
        PageStore(m1, addr + 1, bytes[1..]);
      }
    }
  }

  lemma {:induction false} WithBytesJoin(m: Mmu, addr: nat, head: seq<byte>, tail: seq<byte>)
    ensures WithBytes(WithBytes(m, addr, head), addr + |head|, tail) == WithBytes(m, addr, head + tail)
    decreases |head|
  {
    if head == [] {
      assert [] + tail == tail;
    } else {
      assert (head + tail)[1..] == head[1..] + tail && (head + tail)[0] == head[0];
      WithBytesJoin(WithByte(m, addr, head[0]), addr + 1, head[1..], tail);
    }
  }

  /** Entries stay right while only bytes change. */
  lemma EntriesKept(m: Mmu, addr: nat, bytes: seq<byte>, e: Entry)
    requires Valid(m) && EntryOk(m, e)
    ensures EntryOk(WithBytes(m, addr, bytes), e)
  {
    WithBytesKeepsPages(m, addr, bytes);
  }

  /** The bytes of an access within a page lie side by side in the frame. */
  lemma PageBytes(m: Mmu, addr: nat, n: nat)
    requires Valid(m) && Page(addr) in m.pages && Offset(addr) + n <= PAGE_SIZE
    ensures m.frames[m.pages[Page(addr)].frame][Offset(addr)..Offset(addr) + n] == BytesAt(m, addr, n)
  {
    var part := m.frames[m.pages[Page(addr)].frame][Offset(addr)..Offset(addr) + n];
    var bytes := BytesAt(m, addr, n);
    forall i | 0 <= i < n ensures part[i] == bytes[i] {
      assert Page(addr + i) == Page(addr) && Offset(addr + i) == Offset(addr) + i;
    }
  }

  /** Where the next page begins. */
  lemma NextPage(addr: nat)
    ensures var next := addr + (PAGE_SIZE - Offset(addr));
            next == (Page(addr) + 1) * PAGE_SIZE && Page(next) == Page(addr) + 1 && Offset(next) == 0
  {
  }

  lemma PartsAreBytes(m: Mmu, addr: nat, part1: nat, n: nat)
    requires Valid(m) && part1 <= n && Page(addr) in m.pages && Page(addr + part1) in m.pages
    requires Offset(addr) + part1 <= PAGE_SIZE && Offset(addr + part1) + (n - part1) <= PAGE_SIZE
    ensures m.frames[m.pages[Page(addr)].frame][Offset(addr)..Offset(addr) + part1]
            + m.frames[m.pages[Page(addr + part1)].frame][Offset(addr + part1)..Offset(addr + part1) + (n - part1)]
            == BytesAt(m, addr, n)
  {
    PageBytes(m, addr, part1);
    PageBytes(m, addr + part1, n - part1);
    BytesJoin(m, addr, part1, n);
  }

  lemma BytesJoin(m: Mmu, addr: nat, k: nat, n: nat)
    requires k <= n
    ensures BytesAt(m, addr, k) + BytesAt(m, addr + k, n - k) == BytesAt(m, addr, n)
  {
  }
}
