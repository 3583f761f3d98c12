/**
 Guest memory behind the translation of kernel/memory.c: pages map to frames, a page that may grow or is
 reserved gets a frame when it is touched, and a copy-on-write page gets a frame of its own when it is
 written.  Every change of the mapping is counted.
 */
module GuestMemory {
  import opened Common

  const PAGE_SIZE: nat := 4096

  datatype Pte = Pte(frame: nat, writable: bool, cow: bool)

  /** `lazy` holds the pages that are mapped when touched, and whether they are writable then. */
  datatype Mmu = Mmu(pages: map<nat, Pte>, lazy: map<nat, bool>, frames: map<nat, seq<byte>>, next: nat, changes: nat)

  function Page(addr: nat): nat {
    addr / PAGE_SIZE
  }

  function Offset(addr: nat): nat {
    addr % PAGE_SIZE
  }

  ghost predicate Valid(m: Mmu) {
    && (forall p :: p in m.pages ==> m.pages[p].frame in m.frames)
    && (forall f :: f in m.frames ==> f < m.next && |m.frames[f]| == PAGE_SIZE)
    && (forall p :: p in m.pages ==> p !in m.lazy)
  }

  // ---------------------------------------------------------------- translation

  function ZeroFrame(): (r: seq<byte>)
    ensures |r| == PAGE_SIZE
  {
    seq(PAGE_SIZE, _ => 0)
  }

  /** A page that is waiting for it gets a frame of zeroes. */
  function Populated(m: Mmu, page: nat): Mmu {
    if page in m.pages || page !in m.lazy then m
    else m.(pages := m.pages[page := Pte(m.next, m.lazy[page], false)], lazy := m.lazy - {page},
            frames := m.frames[m.next := ZeroFrame()], next := m.next + 1, changes := m.changes + 1)
  }

  /** A copy-on-write page gets a copy of its frame. */
  function Copied(m: Mmu, page: nat): Mmu {
    if page !in m.pages || !m.pages[page].cow || m.pages[page].frame !in m.frames then m
    else m.(pages := m.pages[page := m.pages[page].(frame := m.next, cow := false)],
            frames := m.frames[m.next := m.frames[m.pages[page].frame]], next := m.next + 1, changes := m.changes + 1)
  }

  function Translated(m: Mmu, page: nat, write: bool): Mmu {
    var m1 := Populated(m, page);
    if write && page in m1.pages && m1.pages[page].writable then Copied(m1, page) else m1
  }

  /** The frame of a page, if it may be accessed without further ado. */
  function FrameOf(m: Mmu, page: nat, write: bool): Option<nat> {
    if page in m.pages && (!write || (m.pages[page].writable && !m.pages[page].cow)) then Some(m.pages[page].frame) else None
  }

  /** mem_ptr: the frame of a page after whatever has to be done for the access. */
  function Translate(m: Mmu, page: nat, write: bool): (Mmu, Option<nat>) {
    (Translated(m, page, write), FrameOf(Translated(m, page, write), page, write))
  }

  lemma TranslateValid(m: Mmu, page: nat, write: bool)
    requires Valid(m)
    ensures Valid(Translated(m, page, write))
  {
  }

  /** What translating does to the mapping of other pages: nothing. */
  lemma TranslateKeepsOthers(m: Mmu, page: nat, write: bool, other: nat)
    requires Valid(m) && other in m.pages && other != page
    ensures other in Translated(m, page, write).pages && Translated(m, page, write).pages[other] == m.pages[other]
    ensures Translated(m, page, write).frames[m.pages[other].frame] == m.frames[m.pages[other].frame]
  {
  }

  /** An access is possible exactly if the page is mapped or waits to be, and may be written if it is to be. */
  lemma TranslateSucceedsIff(m: Mmu, page: nat, write: bool)
    requires Valid(m)
    ensures FrameOf(Translated(m, page, write), page, write).Some?
       <==> || (page in m.pages && (write ==> m.pages[page].writable))
            || (page !in m.pages && page in m.lazy && (write ==> m.lazy[page]))
  {
  }

  /** A page that was waiting reads as zeroes, and one that shared its frame for copying shares it with no other now. */
  lemma TranslateGivesOwnFrame(m: Mmu, page: nat, other: nat, offset: nat)
    requires Valid(m) && FrameOf(Translated(m, page, true), page, true).Some? && offset < 4096
    requires page !in m.pages || m.pages[page].cow
    ensures var t := Translated(m, page, true);
            && (other in t.pages && other != page ==> t.pages[other].frame != t.pages[page].frame)
            && t.frames[t.pages[page].frame][offset] == if page in m.pages then m.frames[m.pages[page].frame][offset] else 0
  {
  }

  /** A second translation does and gives nothing new. */
  lemma TranslateStable(m: Mmu, page: nat, write: bool)
    requires Valid(m)
    ensures Translated(Translated(m, page, write), page, write) == Translated(m, page, write)
  {
  }

  /** The mapping changes only together with the count. */
  lemma TranslateCounts(m: Mmu, page: nat, write: bool)
    ensures Translated(m, page, write).changes >= m.changes
    ensures Translated(m, page, write).changes == m.changes ==> Translated(m, page, write) == m
  {
  }

  /** A page that can be accessed as it is, is left as it is. */
  lemma TranslateReady(m: Mmu, page: nat, write: bool)
    requires FrameOf(m, page, write).Some?
    ensures Translated(m, page, write) == m
  {
  }

  // ---------------------------------------------------------------- bytes

  function ByteAt(m: Mmu, addr: nat): byte {
    if Page(addr) in m.pages && m.pages[Page(addr)].frame in m.frames
       && Offset(addr) < |m.frames[m.pages[Page(addr)].frame]|
    then m.frames[m.pages[Page(addr)].frame][Offset(addr)] else 0
  }

  /** The byte at an address is the one at its offset in the frame of its page. */
  lemma ByteAtMeans(m: Mmu, page: nat, offset: nat)
    requires Valid(m) && page in m.pages && offset < 4096
    ensures ByteAt(m, page * 4096 + offset) == m.frames[m.pages[page].frame][offset]
  {
    assert Page(page * 4096 + offset) == page && Offset(page * 4096 + offset) == offset;
  }

  /** Writing to a copy-on-write page changes no byte of any other page. */
  lemma CopyOnWriteIsolates(m: Mmu, addr: nat, b: byte, a: nat)
    requires Valid(m) && FrameOf(Translated(m, Page(addr), true), Page(addr), true).Some?
    requires Page(addr) in m.pages && m.pages[Page(addr)].cow && Page(a) in m.pages && Page(a) != Page(addr)
    ensures ByteAt(WithByte(Translated(m, Page(addr), true), addr, b), a) == ByteAt(m, a)
  {
    TranslateGivesOwnFrame(m, Page(addr), Page(a), 0);
  }

  function WithByte(m: Mmu, addr: nat, b: byte): Mmu {
    if Page(addr) in m.pages && m.pages[Page(addr)].frame in m.frames
       && Offset(addr) < |m.frames[m.pages[Page(addr)].frame]|
    then
      var frame := m.frames[m.pages[Page(addr)].frame];
      var changed: seq<byte> := frame[Offset(addr) := b];
      m.(frames := m.frames[m.pages[Page(addr)].frame := changed])
    else m
  }

  lemma WithByteValid(m: Mmu, addr: nat, b: byte)
    requires Valid(m)
    ensures Valid(WithByte(m, addr, b)) && WithByte(m, addr, b).pages == m.pages
  {
  }

  /** The bytes from an address on, page by page as mapped now. */
  function BytesAt(m: Mmu, addr: nat, n: nat): (r: seq<byte>)
    ensures |r| == n && forall i :: 0 <= i < n ==> r[i] == ByteAt(m, addr + i)
    decreases n
  {
    if n == 0 then [] else [ByteAt(m, addr)] + BytesAt(m, addr + 1, n - 1)
  }

  function WithBytes(m: Mmu, addr: nat, bytes: seq<byte>): Mmu
    decreases |bytes|
  {
    if bytes == [] then m else WithBytes(WithByte(m, addr, bytes[0]), addr + 1, bytes[1..])
  }

  // ---------------------------------------------------------------- access, one byte at a time

  /** Translating for each of n bytes in turn; false at the first that cannot be accessed. */
  function Access(m: Mmu, addr: nat, n: nat, write: bool): (Mmu, bool)
    decreases n
  {
    if n == 0 then (m, true)
    else
      var (m1, frame) := Translate(m, Page(addr), write);
      if frame.None? then (m1, false) else Access(m1, addr + 1, n - 1, write)
  }

  /** Storing bytes one at a time, each after translating for it; what is stored before a failure stays. */
  function Store(m: Mmu, addr: nat, bytes: seq<byte>): (Mmu, bool)
    decreases |bytes|
  {
    if bytes == [] then (m, true)
    else
      var (m1, frame) := Translate(m, Page(addr), true);
      if frame.None? then (m1, false) else Store(WithByte(m1, addr, bytes[0]), addr + 1, bytes[1..])
  }

  lemma {:induction false} AccessValid(m: Mmu, addr: nat, n: nat, write: bool)
    requires Valid(m)
    ensures Valid(Access(m, addr, n, write).0)
    decreases n
  {
    if n > 0 {
      TranslateValid(m, Page(addr), write);
      AccessValid(Translated(m, Page(addr), write), addr + 1, n - 1, write);
    }
  }

  /** Within one page, one translation does for all bytes. */
  lemma {:induction false} AccessWithinPage(m: Mmu, addr: nat, n: nat, write: bool)
    requires Valid(m) && 0 < n && Offset(addr) + n <= PAGE_SIZE
    ensures Access(m, addr, n, write).0 == Translated(m, Page(addr), write)
    ensures Access(m, addr, n, write).1 == FrameOf(Translated(m, Page(addr), write), Page(addr), write).Some?
    decreases n
  {
    if n > 1 && FrameOf(Translated(m, Page(addr), write), Page(addr), write).Some? {
      assert Page(addr + 1) == Page(addr) && Offset(addr + 1) == Offset(addr) + 1;
      TranslateValid(m, Page(addr), write);
      TranslateStable(m, Page(addr), write);
      AccessWithinPage(Translated(m, Page(addr), write), addr + 1, n - 1, write);
    }
  }

  lemma {:induction false} AccessSplit(m: Mmu, addr: nat, n: nat, k: nat, write: bool)
    requires k <= n
    ensures var r := Access(m, addr, k, write);
            && (r.1 ==> Access(m, addr, n, write).0 == Access(r.0, addr + k, n - k, write).0)
            && (r.1 ==> Access(m, addr, n, write).1 == Access(r.0, addr + k, n - k, write).1)
            && (!r.1 ==> Access(m, addr, n, write).0 == r.0 && !Access(m, addr, n, write).1)
    decreases k
  {
    if k > 0 {
      AccessUnfolds(m, addr, n, write);
      AccessUnfolds(m, addr, k, write);
      if FrameOf(Translated(m, Page(addr), write), Page(addr), write).Some? {
        AccessSplit(Translated(m, Page(addr), write), addr + 1, n - 1, k - 1, write);
      }
    }
  }

  /** Across two pages, one translation for each does. */
  lemma AccessAcrossPages(m: Mmu, addr: nat, n: nat, write: bool)
    requires Valid(m) && PAGE_SIZE - Offset(addr) < n <= PAGE_SIZE
    ensures var p := Page(addr); var m1 := Translated(m, p, write); var m2 := Translated(m1, p + 1, write);
            && Page(addr + (PAGE_SIZE - Offset(addr))) == p + 1 && Offset(addr + (PAGE_SIZE - Offset(addr))) == 0
            && (FrameOf(m1, p, write).None? ==> Access(m, addr, n, write).0 == m1 && !Access(m, addr, n, write).1)
            && (FrameOf(m1, p, write).Some? ==>
                  && Access(m, addr, n, write).0 == m2
                  && Access(m, addr, n, write).1 == FrameOf(m2, p + 1, write).Some?)
  {
    var k := PAGE_SIZE - Offset(addr);
    AccessSplit(m, addr, n, k, write);
    AccessWithinPage(m, addr, k, write);
    var m1 := Translated(m, Page(addr), write);
    TranslateValid(m, Page(addr), write);
    assert addr + k == (Page(addr) + 1) * PAGE_SIZE;
    AccessWithinPage(m1, addr + k, n - k, write);
  }

  // ---------------------------------------------------------------- loading after storing

  predicate Mapped(m: Mmu, addr: nat, n: nat) {
    forall a :: addr <= a < addr + n ==> Page(a) in m.pages
  }

  /** A byte elsewhere in its page is not disturbed, even if pages share a frame. */
  lemma WithByteElsewhere(m: Mmu, addr: nat, b: byte, a: nat)
    requires Offset(a) != Offset(addr)
    ensures ByteAt(WithByte(m, addr, b), a) == ByteAt(m, a)
  {
  }

  lemma {:induction false} WithBytesElsewhere(m: Mmu, addr: nat, bytes: seq<byte>, a: nat)
    requires forall c :: addr <= c < addr + |bytes| ==> Offset(c) != Offset(a)
    ensures ByteAt(WithBytes(m, addr, bytes), a) == ByteAt(m, a)
    decreases |bytes|
  {
    if bytes != [] {
      WithByteElsewhere(m, addr, bytes[0], a);
      WithBytesElsewhere(WithByte(m, addr, bytes[0]), addr + 1, bytes[1..], a);
    }
  }

  lemma OffsetsDiffer(addr: nat, c: nat)
    requires addr < c < addr + PAGE_SIZE
    ensures Offset(c) != Offset(addr)
  {
  }

  /** The bytes stored after one, within a page's length, leave it. */
  lemma LaterBytesElsewhere(m: Mmu, addr: nat, bytes: seq<byte>)
    requires |bytes| < PAGE_SIZE
    ensures ByteAt(WithBytes(m, addr + 1, bytes), addr) == ByteAt(m, addr)
  {
    forall c | addr + 1 <= c < addr + 1 + |bytes| ensures Offset(c) != Offset(addr) {
      OffsetsDiffer(addr, c);
    }
    WithBytesElsewhere(m, addr + 1, bytes, addr);
  }

  lemma {:induction false} WithBytesKeepsPages(m: Mmu, addr: nat, bytes: seq<byte>)
    requires Valid(m)
    ensures Valid(WithBytes(m, addr, bytes)) && WithBytes(m, addr, bytes).pages == m.pages
    ensures WithBytes(m, addr, bytes).changes == m.changes
    decreases |bytes|
  {
    if bytes != [] {
      WithByteValid(m, addr, bytes[0]);
      WithBytesKeepsPages(WithByte(m, addr, bytes[0]), addr + 1, bytes[1..]);
    }
  }

  /** What was stored is loaded again, page crossings included. */
  lemma {:induction false} LoadAfterStore(m: Mmu, addr: nat, bytes: seq<byte>)
    requires Valid(m) && |bytes| <= PAGE_SIZE && Mapped(m, addr, |bytes|)
    ensures BytesAt(WithBytes(m, addr, bytes), addr, |bytes|) == bytes
    decreases |bytes|
  {
    if bytes != [] {
      var m1, m2 := WithByte(m, addr, bytes[0]), WithBytes(m, addr, bytes);
      WithByteValid(m, addr, bytes[0]);
      LoadAfterStore(m1, addr + 1, bytes[1..]);
      LaterBytesElsewhere(m1, addr, bytes[1..]);
      assert ByteAt(m2, addr) == ByteAt(m1, addr) == bytes[0];
      assert BytesAt(m2, addr, |bytes|) == [bytes[0]] + BytesAt(m2, addr + 1, |bytes| - 1);
    }
  }

  /** Storing what is there changes nothing. */
  lemma {:induction false} StoreAfterLoad(m: Mmu, addr: nat, n: nat)
    ensures WithBytes(m, addr, BytesAt(m, addr, n)) == m
    decreases n
  {
    if n > 0 {
      var bytes := BytesAt(m, addr, n);
      assert bytes[0] == ByteAt(m, addr);
      StoreByteAfterLoad(m, addr);
      assert bytes[1..] == BytesAt(m, addr + 1, n - 1);
      StoreAfterLoad(m, addr + 1, n - 1);
    }
  }

  lemma StoreByteAfterLoad(m: Mmu, addr: nat)
    ensures WithByte(m, addr, ByteAt(m, addr)) == m
  {
    if Page(addr) in m.pages && m.pages[Page(addr)].frame in m.frames {
      var f := m.pages[Page(addr)].frame;
      assert m.frames[f := m.frames[f]] == m.frames;
      assert Offset(addr) < |m.frames[f]| ==> m.frames[f][Offset(addr) := ByteAt(m, addr)] == m.frames[f];
    }
  }

  // ---------------------------------------------------------------- all pages first, or byte by byte

  /** No frame is written through one page while another page waits to copy it. */
  ghost predicate Private(m: Mmu) {
    forall p, q :: p in m.pages && q in m.pages && m.pages[p].cow && m.pages[q].frame == m.pages[p].frame && p != q ==>
      m.pages[q].cow || !m.pages[q].writable
  }

  lemma TranslatePrivate(m: Mmu, page: nat, write: bool)
    requires Valid(m) && Private(m)
    ensures Private(Translated(m, page, write))
  {
  }

  /** A byte written before another page is translated might as well have been written after. */
  lemma TranslateCommutes(m: Mmu, a: nat, b: byte, page: nat)
    requires Valid(m) && Private(m) && FrameOf(m, Page(a), true).Some?
    ensures Translated(WithByte(m, a, b), page, true) == WithByte(Translated(m, page, true), a, b)
    ensures FrameOf(Translated(m, page, true), Page(a), true).Some?
  {
    if page == Page(a) {
      TranslateReady(m, page, true);
    } else {
      TranslateKeepsOthers(m, page, true, Page(a));
      var left, right := Translated(WithByte(m, a, b), page, true), WithByte(Translated(m, page, true), a, b);
      assert left.frames == right.frames;
      assert left.pages == right.pages;
    }
  }

  lemma {:induction false} AccessCommutes(m: Mmu, a: nat, b: byte, addr: nat, n: nat)
    requires Valid(m) && Private(m) && FrameOf(m, Page(a), true).Some?
    ensures Access(WithByte(m, a, b), addr, n, true).0 == WithByte(Access(m, addr, n, true).0, a, b)
    ensures Access(WithByte(m, a, b), addr, n, true).1 == Access(m, addr, n, true).1
    decreases n
  {
    if n > 0 {
      var t := Translated(m, Page(addr), true);
      TranslateCommutes(m, a, b, Page(addr));
      TranslateValid(m, Page(addr), true);
      TranslatePrivate(m, Page(addr), true);
      FrameAfterByte(t, a, b, Page(addr));
      AccessUnfolds(m, addr, n, true);
      AccessUnfolds(WithByte(m, a, b), addr, n, true);
      if FrameOf(t, Page(addr), true).Some? {
        AccessCommutes(t, a, b, addr + 1, n - 1);
      }
    }
  }

  lemma FrameAfterByte(m: Mmu, a: nat, b: byte, page: nat)
    ensures FrameOf(WithByte(m, a, b), page, true) == FrameOf(m, page, true)
  {
  }

  lemma AccessUnfolds(m: Mmu, addr: nat, n: nat, write: bool)
    requires n > 0
    ensures var t := Translated(m, Page(addr), write);
            && (FrameOf(t, Page(addr), write).None? ==> Access(m, addr, n, write).0 == t && !Access(m, addr, n, write).1)
            && (FrameOf(t, Page(addr), write).Some? ==>
                  && Access(m, addr, n, write).0 == Access(t, addr + 1, n - 1, write).0
                  && Access(m, addr, n, write).1 == Access(t, addr + 1, n - 1, write).1)
  {
  }

  /** Storing byte by byte succeeds exactly if all bytes can be accessed, and then is storing them all at once. */
  lemma {:induction false} StoreIsWithBytes(m: Mmu, addr: nat, bytes: seq<byte>)
    requires Valid(m) && Private(m)
    ensures Store(m, addr, bytes).1 == Access(m, addr, |bytes|, true).1
    ensures Store(m, addr, bytes).1 ==> Store(m, addr, bytes).0 == WithBytes(Access(m, addr, |bytes|, true).0, addr, bytes)
    decreases |bytes|
  {
    if bytes != [] {
      var m1 := Translated(m, Page(addr), true);
      TranslateValid(m, Page(addr), true);
      TranslatePrivate(m, Page(addr), true);
      if FrameOf(m1, Page(addr), true).Some? {
        var m2 := WithByte(m1, addr, bytes[0]);
        WithByteValid(m1, addr, bytes[0]);
        AccessCommutes(m1, addr, bytes[0], addr + 1, |bytes| - 1);
        StoreIsWithBytes(m2, addr + 1, bytes[1..]);
      }
    }
  }

  /** Within one page it is the same without a word on other pages. */
  lemma {:induction false} StoreWithinPage(m: Mmu, addr: nat, bytes: seq<byte>)
    requires Valid(m) && bytes != [] && Offset(addr) + |bytes| <= PAGE_SIZE
    ensures var m1 := Translated(m, Page(addr), true);
            if FrameOf(m1, Page(addr), true).None? then Store(m, addr, bytes) == (m1, false)
            else Store(m, addr, bytes) == (WithBytes(m1, addr, bytes), true)
    decreases |bytes|
  {
    var m1 := Translated(m, Page(addr), true);
    TranslateValid(m, Page(addr), true);
    if FrameOf(m1, Page(addr), true).Some? {
      var m2 := WithByte(m1, addr, bytes[0]);
      WithByteValid(m1, addr, bytes[0]);
      if |bytes| > 1 {
        assert Page(addr + 1) == Page(addr) && Offset(addr + 1) == Offset(addr) + 1;
        TranslateReady(m2, Page(addr), true);
        StoreWithinPage(m2, addr + 1, bytes[1..]);
      }
    }
  }

  // ---------------------------------------------------------------- what a failing store leaves

  lemma {:induction false} AccessMaps(m: Mmu, addr: nat, n: nat, write: bool)
    requires Valid(m) && Access(m, addr, n, write).1
    ensures Mapped(Access(m, addr, n, write).0, addr, n)
    ensures forall a :: Page(a) in m.pages ==>
              Page(a) in Access(m, addr, n, write).0.pages && ByteAt(Access(m, addr, n, write).0, a) == ByteAt(m, a)
    decreases n
  {
    if n > 0 {
      var t := Translated(m, Page(addr), write);
      TranslateValid(m, Page(addr), write);
      AccessUnfolds(m, addr, n, write);
      AccessMaps(t, addr + 1, n - 1, write);
      forall a | Page(a) in m.pages ensures Page(a) in t.pages && ByteAt(t, a) == ByteAt(m, a) {
      }
    }
  }

  /** Where every page is mapped, reading needs nothing. */
  lemma {:induction false} AccessMapped(m: Mmu, addr: nat, n: nat)
    requires Mapped(m, addr, n)
    ensures Access(m, addr, n, false).0 == m && Access(m, addr, n, false).1
    decreases n
  {
    if n > 0 {
      TranslateReady(m, Page(addr), false);
      AccessUnfolds(m, addr, n, false);
      AccessMapped(m, addr + 1, n - 1);
    }
  }

  /** Translating, even populating or copying a page, changes no byte. */
  lemma TranslateKeepsByte(m: Mmu, page: nat, write: bool, a: nat)
    requires Valid(m)
    ensures ByteAt(Translated(m, page, write), a) == ByteAt(m, a)
  {
  }

  lemma {:induction false} AccessKeepsByte(m: Mmu, addr: nat, n: nat, write: bool, a: nat)
    requires Valid(m)
    ensures ByteAt(Access(m, addr, n, write).0, a) == ByteAt(m, a)
    decreases n
  {
    if n > 0 {
      TranslateValid(m, Page(addr), write);
      TranslateKeepsByte(m, Page(addr), write, a);
      AccessUnfolds(m, addr, n, write);
      if FrameOf(Translated(m, Page(addr), write), Page(addr), write).Some? {
        AccessKeepsByte(Translated(m, Page(addr), write), addr + 1, n - 1, write, a);
      }
    }
  }

  /** The memory after a write that stores all bytes or, if some byte cannot be written, none. */
  function AllOrNothing(m: Mmu, addr: nat, bytes: seq<byte>): Mmu {
    var r := Access(m, addr, |bytes|, true);
    if r.1 then WithBytes(r.0, addr, bytes) else r.0
  }

  lemma StoreUnfolds(m: Mmu, addr: nat, bytes: seq<byte>)
    requires bytes != []
    ensures var t := Translated(m, Page(addr), true); var s := Store(m, addr, bytes);
            && (FrameOf(t, Page(addr), true).None? ==> s.0 == t && !s.1)
            && (FrameOf(t, Page(addr), true).Some? ==>
                  && s.0 == Store(WithByte(t, addr, bytes[0]), addr + 1, bytes[1..]).0
                  && s.1 == Store(WithByte(t, addr, bytes[0]), addr + 1, bytes[1..]).1)
  {
  }

  lemma {:induction false} StoreSplit(m: Mmu, addr: nat, head: seq<byte>, tail: seq<byte>)
    requires Store(m, addr, head).1
    ensures Store(m, addr, head + tail).0 == Store(Store(m, addr, head).0, addr + |head|, tail).0
    ensures Store(m, addr, head + tail).1 == Store(Store(m, addr, head).0, addr + |head|, tail).1
    decreases |head|
  {
    if head == [] {
      assert head + tail == tail;
    } else {
      assert (head + tail)[1..] == head[1..] + tail;
      StoreUnfolds(m, addr, head);
      StoreUnfolds(m, addr, head + tail);
      StoreSplit(WithByte(Translated(m, Page(addr), true), addr, head[0]), addr + 1, head[1..], tail);
    }
  }

  /** Bytes of one page written before another page is translated might as well have been written after. */
  lemma {:induction false} TranslateCommutesBytes(m: Mmu, addr: nat, bytes: seq<byte>, page: nat)
    requires Valid(m) && Private(m) && Offset(addr) + |bytes| <= PAGE_SIZE && FrameOf(m, Page(addr), true).Some?
    ensures Translated(WithBytes(m, addr, bytes), page, true) == WithBytes(Translated(m, page, true), addr, bytes)
    decreases |bytes|
  {
    if bytes != [] {
      TranslateCommutes(m, addr, bytes[0], page);
      WithByteValid(m, addr, bytes[0]);
      if |bytes| == 1 {
        assert bytes[1..] == [];
      } else {
        assert Page(addr + 1) == Page(addr) && Offset(addr + 1) == Offset(addr) + 1;
        FrameAfterByte(m, addr, bytes[0], Page(addr));
        TranslateCommutesBytes(WithByte(m, addr, bytes[0]), addr + 1, bytes[1..], page);
      }
    }
  }

  /** A store byte by byte that fails has stored what fits on the first page, or nothing if that page fails already. */
  lemma StoreFails(m: Mmu, addr: nat, bytes: seq<byte>)
    requires Valid(m) && Private(m) && 0 < |bytes| <= PAGE_SIZE && !Access(m, addr, |bytes|, true).1
    ensures !Store(m, addr, bytes).1
    ensures var p := Page(addr); var m1 := Translated(m, p, true); var k := PAGE_SIZE - Offset(addr);
            && (FrameOf(m1, p, true).None? ==> Store(m, addr, bytes).0 == m1)
            && (FrameOf(m1, p, true).Some? ==>
                  && k < |bytes|
                  && Store(m, addr, bytes).0 == WithBytes(Access(m, addr, |bytes|, true).0, addr, bytes[..k]))
  {
    StoreUnfolds(m, addr, bytes);
    if FrameOf(Translated(m, Page(addr), true), Page(addr), true).Some? {
      FailureCrosses(m, addr, |bytes|);
      StoreFailsLate(m, addr, bytes);
    }
  }

  /** An access that fails although the first page can be written goes on to the second, which cannot. */
  lemma FailureCrosses(m: Mmu, addr: nat, n: nat)
    requires Valid(m) && 0 < n <= PAGE_SIZE && !Access(m, addr, n, true).1
    requires FrameOf(Translated(m, Page(addr), true), Page(addr), true).Some?
    ensures var p := Page(addr); var m2 := Translated(Translated(m, p, true), p + 1, true);
            && PAGE_SIZE - Offset(addr) < n && Page(addr + (PAGE_SIZE - Offset(addr))) == p + 1
            && Access(m, addr, n, true).0 == m2 && FrameOf(m2, p + 1, true).None?
  {
    if n <= PAGE_SIZE - Offset(addr) {
      AccessWithinPage(m, addr, n, true);
    } else {
      AccessAcrossPages(m, addr, n, true);
    }
  }

  /** The head can be written and goes to one page, the tail begins another that cannot. */
  lemma StoreFailsBetween(m: Mmu, addr: nat, head: seq<byte>, tail: seq<byte>, p: nat, q: nat)
    requires Valid(m) && Private(m) && head != [] && tail != [] && Offset(addr) + |head| <= PAGE_SIZE
    requires p == Page(addr) && FrameOf(Translated(m, p, true), p, true).Some?
    requires q == Page(addr + |head|) && FrameOf(Translated(Translated(m, p, true), q, true), q, true).None?
    ensures Store(m, addr, head + tail).0 == WithBytes(Translated(Translated(m, p, true), q, true), addr, head)
    ensures !Store(m, addr, head + tail).1
  {
    TranslateValid(m, p, true);
    TranslatePrivate(m, p, true);
    FirstPageStored(m, addr, head);
    StoreSplit(m, addr, head, tail);
    SecondPageFails(Translated(m, p, true), addr, head, tail, q);
  }

  lemma StoreFailsLate(m: Mmu, addr: nat, bytes: seq<byte>)
    requires Valid(m) && Private(m) && PAGE_SIZE - Offset(addr) < |bytes|
    requires FrameOf(Translated(m, Page(addr), true), Page(addr), true).Some?
    requires var p := Page(addr); var m2 := Translated(Translated(m, p, true), p + 1, true);
             Page(addr + (PAGE_SIZE - Offset(addr))) == p + 1 && FrameOf(m2, p + 1, true).None?
    ensures var p := Page(addr); var m2 := Translated(Translated(m, p, true), p + 1, true);
            Store(m, addr, bytes).0 == WithBytes(m2, addr, bytes[..PAGE_SIZE - Offset(addr)]) && !Store(m, addr, bytes).1
  {
    var k := PAGE_SIZE - Offset(addr);
    assert bytes == bytes[..k] + bytes[k..];
    StoreFailsBetween(m, addr, bytes[..k], bytes[k..], Page(addr), Page(addr) + 1);
  }

  lemma FirstPageStored(m: Mmu, addr: nat, head: seq<byte>)
    requires Valid(m) && head != [] && Offset(addr) + |head| <= PAGE_SIZE
    requires FrameOf(Translated(m, Page(addr), true), Page(addr), true).Some?
    ensures Store(m, addr, head).0 == WithBytes(Translated(m, Page(addr), true), addr, head) && Store(m, addr, head).1
  {
    StoreWithinPage(m, addr, head);
  }

  /** The rest of a store whose next page cannot be written: the bytes so far stay. */
  lemma SecondPageFails(m: Mmu, addr: nat, head: seq<byte>, tail: seq<byte>, page: nat)
    requires Valid(m) && Private(m) && Offset(addr) + |head| <= PAGE_SIZE && FrameOf(m, Page(addr), true).Some?
    requires tail != [] && Page(addr + |head|) == page && FrameOf(Translated(m, page, true), page, true).None?
    ensures Store(WithBytes(m, addr, head), addr + |head|, tail).0 == WithBytes(Translated(m, page, true), addr, head)
    ensures !Store(WithBytes(m, addr, head), addr + |head|, tail).1
  {
    TranslateCommutesBytes(m, addr, head, page);
    TranslateValid(m, page, true);
    WithBytesKeepsPages(Translated(m, page, true), addr, head);
    StoreUnfolds(WithBytes(m, addr, head), addr + |head|, tail);
  }

  /** Storing bytes leaves memory as it is exactly if they are there already. */
  lemma SameBytesIff(m: Mmu, addr: nat, bytes: seq<byte>)
    requires Valid(m) && |bytes| <= PAGE_SIZE && Mapped(m, addr, |bytes|)
    ensures WithBytes(m, addr, bytes) == m <==> BytesAt(m, addr, |bytes|) == bytes
  {
    LoadAfterStore(m, addr, bytes);
    StoreAfterLoad(m, addr, |bytes|);
  }

  /**
   Storing byte by byte leaves the memory of an all-or-nothing write exactly if every byte can be written, or
   the first page cannot, or what would go on the first page is there already.
   */
  lemma StoreIsAllOrNothingIff(m: Mmu, addr: nat, bytes: seq<byte>)
    requires Valid(m) && Private(m) && 0 < |bytes| <= PAGE_SIZE
    ensures var k := PAGE_SIZE - Offset(addr);
            Store(m, addr, bytes).0 == AllOrNothing(m, addr, bytes)
            <==> (|| Access(m, addr, |bytes|, true).1
                  || FrameOf(Translated(m, Page(addr), true), Page(addr), true).None?
                  || (k < |bytes| && BytesAt(m, addr, k) == bytes[..k]))
  {
    StoreIsWithBytes(m, addr, bytes);
    if !Access(m, addr, |bytes|, true).1 {
      StoreFails(m, addr, bytes);
      if FrameOf(Translated(m, Page(addr), true), Page(addr), true).Some? {
        FailedStoreIff(m, addr, bytes);
      } else {
        AccessUnfolds(m, addr, |bytes|, true);
      }
    }
  }

  /** A page that can be written and, after it, one that cannot. */
  function HalfWritable(): Mmu {
    Mmu(map[0 := Pte(0, true, false), 1 := Pte(1, false, false)], map[], map[0 := ZeroFrame(), 1 := ZeroFrame()], 2, 0)
  }

  /** A store across these pages fails and has changed the first all the same. */
  lemma FailedStoreLeavesBytes(bytes: seq<byte>)
    requires |bytes| == 8 && bytes[0] != 0
    ensures var m := HalfWritable();
            && Valid(m) && Private(m)
            && !Store(m, 4093, bytes).1 && ByteAt(m, 4093) == 0 && ByteAt(Store(m, 4093, bytes).0, 4093) == bytes[0]
            && AllOrNothing(m, 4093, bytes) == m
  {
    var m := HalfWritable();
    assert Page(4093) == 0 && Offset(4093) == 4093 && Page(4096) == 1;
    AccessAcrossPages(m, 4093, 8, true);
    StoreFails(m, 4093, bytes);
    var head := bytes[..3];
    forall a | 4093 <= a < 4093 + 3 ensures Page(a) in m.pages {
    }
    LoadAfterStore(m, 4093, head);
    assert BytesAt(WithBytes(m, 4093, head), 4093, 3)[0] == head[0];
  }

  lemma FailedStoreIff(m: Mmu, addr: nat, bytes: seq<byte>)
    requires Valid(m) && PAGE_SIZE - Offset(addr) < |bytes| <= PAGE_SIZE
    requires FrameOf(Translated(m, Page(addr), true), Page(addr), true).Some?
    ensures var k := PAGE_SIZE - Offset(addr); var m2 := Access(m, addr, |bytes|, true).0;
            WithBytes(m2, addr, bytes[..k]) == m2 <==> BytesAt(m, addr, k) == bytes[..k]
  {
    var k, m2 := PAGE_SIZE - Offset(addr), Access(m, addr, |bytes|, true).0;
    AccessValid(m, addr, |bytes|, true);
    FirstPageStays(m, addr, |bytes|);
    SameBytesIff(m2, addr, bytes[..k]);
    AccessKeepsBytes(m, addr, |bytes|, true, addr, k);
  }

  lemma AccessKeepsBytes(m: Mmu, addr: nat, n: nat, write: bool, a: nat, k: nat)
    requires Valid(m)
    ensures BytesAt(Access(m, addr, n, write).0, a, k) == BytesAt(m, a, k)
  {
    var now, was := BytesAt(Access(m, addr, n, write).0, a, k), BytesAt(m, a, k);
    forall i | 0 <= i < k ensures now[i] == was[i] {
      AccessKeepsByte(m, addr, n, write, a + i);
    }
  }

  lemma FirstPageStays(m: Mmu, addr: nat, n: nat)
    requires Valid(m) && PAGE_SIZE - Offset(addr) < n <= PAGE_SIZE
    requires FrameOf(Translated(m, Page(addr), true), Page(addr), true).Some?
    ensures Mapped(Access(m, addr, n, true).0, addr, PAGE_SIZE - Offset(addr))
  {
    var p := Page(addr);
    var m1 := Translated(m, p, true);
    AccessAcrossPages(m, addr, n, true);
    TranslateValid(m, p, true);
    TranslateKeepsOthers(m1, p + 1, true, p);
    forall a | addr <= a < addr + (PAGE_SIZE - Offset(addr)) ensures Page(a) == p {
    }
  }

  // ---------------------------------------------------------------- loading what was stored byte by byte

  lemma FirstByteElsewhere(m: Mmu, addr: nat, b: byte, a: nat)
    requires Valid(m) && Page(a) in m.pages && Offset(addr) != Offset(a)
    ensures var t := Translated(m, Page(addr), true);
            && Valid(t) && Page(a) in t.pages && ByteAt(t, a) == ByteAt(m, a)
            && (FrameOf(t, Page(addr), true).Some? ==>
                  var m1 := WithByte(t, addr, b); Valid(m1) && Page(a) in m1.pages && ByteAt(m1, a) == ByteAt(m, a))
  {
    var t := Translated(m, Page(addr), true);
    TranslateValid(m, Page(addr), true);
    TranslateKeepsByte(m, Page(addr), true, a);
    if FrameOf(t, Page(addr), true).Some? {
      WithByteElsewhere(t, addr, b, a);
      WithByteValid(t, addr, b);
    }
  }

  /** A mapped byte elsewhere in its page survives a store, failing or not. */
  lemma {:induction false} StoreElsewhere(m: Mmu, addr: nat, bytes: seq<byte>, a: nat)
    requires Valid(m) && Page(a) in m.pages && forall c :: addr <= c < addr + |bytes| ==> Offset(c) != Offset(a)
    ensures Page(a) in Store(m, addr, bytes).0.pages && ByteAt(Store(m, addr, bytes).0, a) == ByteAt(m, a)
    ensures Valid(Store(m, addr, bytes).0)
    decreases |bytes|
  {
    if bytes != [] {
      StoreUnfolds(m, addr, bytes);
      FirstByteElsewhere(m, addr, bytes[0], a);
      var t := Translated(m, Page(addr), true);
      if FrameOf(t, Page(addr), true).Some? {
        StoreElsewhere(WithByte(t, addr, bytes[0]), addr + 1, bytes[1..], a);
      }
    }
  }

  /** Bytes stored one at a time are all there afterwards, whatever frames the pages share. */
  lemma {:induction false} StoreReadsBack(m: Mmu, addr: nat, bytes: seq<byte>)
    requires Valid(m) && |bytes| <= PAGE_SIZE && Store(m, addr, bytes).1
    ensures Valid(Store(m, addr, bytes).0) && Mapped(Store(m, addr, bytes).0, addr, |bytes|)
    ensures BytesAt(Store(m, addr, bytes).0, addr, |bytes|) == bytes
    decreases |bytes|
  {
    if bytes != [] {
      var t := Translated(m, Page(addr), true);
      var m1, m2 := WithByte(t, addr, bytes[0]), Store(m, addr, bytes).0;
      StoreUnfolds(m, addr, bytes);
      TranslateValid(m, Page(addr), true);
      WithByteValid(t, addr, bytes[0]);
      StoreReadsBack(m1, addr + 1, bytes[1..]);
      LaterStoreElsewhere(m1, addr, bytes[1..]);
      assert ByteAt(m2, addr) == bytes[0];
      ConsBytes(m2, addr, bytes);
    }
  }

  lemma LaterStoreElsewhere(m: Mmu, addr: nat, bytes: seq<byte>)
    requires Valid(m) && Page(addr) in m.pages && |bytes| < PAGE_SIZE
    ensures Page(addr) in Store(m, addr + 1, bytes).0.pages
    ensures ByteAt(Store(m, addr + 1, bytes).0, addr) == ByteAt(m, addr)
  {
    forall c | addr + 1 <= c < addr + 1 + |bytes| ensures Offset(c) != Offset(addr) {
      OffsetsDiffer(addr, c);
    }
    StoreElsewhere(m, addr + 1, bytes, addr);
  }

  lemma ConsBytes(m: Mmu, addr: nat, bytes: seq<byte>)
    requires bytes != [] && Page(addr) in m.pages && Mapped(m, addr + 1, |bytes| - 1)
    requires ByteAt(m, addr) == bytes[0] && BytesAt(m, addr + 1, |bytes| - 1) == bytes[1..]
    ensures Mapped(m, addr, |bytes|) && BytesAt(m, addr, |bytes|) == bytes
  {
    assert BytesAt(m, addr, |bytes|) == [ByteAt(m, addr)] + BytesAt(m, addr + 1, |bytes| - 1);
  }
}
