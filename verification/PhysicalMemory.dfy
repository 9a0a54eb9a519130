/** src/mm/pmm.cpp: the packed bitmap and the allocator over it, proved to compute the
    functions of PhysicalPages and to keep its record of owners exact. */
module PhysicalMemory {
  import opened Machine
  import opened PhysicalPages
  import opened PhysicalPagesProofs

  // ---------------------------------------------------------------- packed bits

  /** 0b10000000 >> k */
  function Mask(k: nat): bv8
    requires k < 8
  {
    match k
    case 0 => 0x80
    case 1 => 0x40
    case 2 => 0x20
    case 3 => 0x10
    case 4 => 0x08
    case 5 => 0x04
    case 6 => 0x02
    case _ => 0x01
  }

  predicate BitOf(byte: bv8, k: nat)
    requires k < 8
  {
    byte & Mask(k) != 0
  }

  function Unpack(bytes: seq<bv8>): (bits: seq<bool>)
    ensures |bits| == 8 * |bytes|
  {
    seq(8 * |bytes|, i requires 0 <= i < 8 * |bytes| => BitOf(bytes[i / 8], i % 8))
  }

  function Cleared(byte: bv8, mask: bv8): bv8 { byte & !mask }

  function Raised(byte: bv8, mask: bv8): bv8 { byte | mask }

  function Write(byte: bv8, k: nat, value: bool): bv8
    requires k < 8
  {
    if value then Raised(Cleared(byte, Mask(k)), Mask(k)) else Cleared(byte, Mask(k))
  }

  /** Writing bit k of a byte changes bit k only. */
  lemma WriteBit(byte: bv8, k: nat, j: nat, value: bool)
    requires k < 8 && j < 8
    ensures BitOf(Write(byte, k, value), j) == if j == k then value else BitOf(byte, j)
  {
  }

  lemma UnpackUpdate(bytes: seq<bv8>, index: nat, value: bool)
    requires index < 8 * |bytes|
    ensures Unpack(bytes[index / 8 := Write(bytes[index / 8], index % 8, value)])
         == Unpack(bytes)[index := value]
  {
    var bytes' := bytes[index / 8 := Write(bytes[index / 8], index % 8, value)];
    forall i | 0 <= i < 8 * |bytes|
      ensures Unpack(bytes')[i] == Unpack(bytes)[index := value][i]
    {
      if i / 8 == index / 8 {
        WriteBit(bytes[index / 8], index % 8, i % 8, value);
        assert i == index <==> i % 8 == index % 8;
      }
    }
  }

  lemma UnpackFull(bytes: seq<bv8>)
    requires forall i | 0 <= i < |bytes| :: bytes[i] == 0xFF
    ensures forall i | 0 <= i < 8 * |bytes| :: Unpack(bytes)[i]
  {
    forall i | 0 <= i < 8 * |bytes| ensures Unpack(bytes)[i] {
      assert bytes[i / 8] == 0xFF;
    }
  }

  // ---------------------------------------------------------------- boot

  datatype EntryType = Usable | Framebuffer | Other

  datatype Entry = Entry(base: nat, length: nat, kind: EntryType)

  function AlignUp(a: nat, b: nat): nat
    requires b > 0
  {
    (a + (b - 1)) / b * b
  }

  /** Bytes of bitmap for a machine of pages pages, as Initialize computes it. */
  function BitmapSize(pages: nat): (size: nat)
    ensures size % PAGE_SIZE == 0 && pages / 8 <= size < pages / 8 + PAGE_SIZE
  {
    AlignUp(pages / 8, PAGE_SIZE)
  }

  /** The bitmap has a bit for every page exactly when the division by 8 lost nothing or
      the rounding up to a page made up for it. */
  lemma BitmapCoversIff(pages: nat)
    ensures 8 * BitmapSize(pages) >= pages <==> pages % 8 == 0 || (pages / 8) % PAGE_SIZE != 0
  {
    var q := pages / 8;
    assert pages == 8 * q + pages % 8;
    var z := (q + 4095) / 4096;
    assert q % 4096 == 0 ==> z == q / 4096;
    assert q % 4096 != 0 ==> z == q / 4096 + 1;
  }

  /** A machine of 32769 pages has one page without a bit. */
  lemma BitmapCanFallShort()
    ensures 8 * BitmapSize(32769) == 32768
  {
  }

  function Top(e: Entry): nat { e.base + e.length }

  function HighestTop(es: seq<Entry>): (h: nat)
    ensures forall k | 0 <= k < |es| && es[k].kind.Usable? :: Top(es[k]) <= h
  {
    if es == [] then 0
    else
      var h := HighestTop(es[..|es| - 1]);
      var e := es[|es| - 1];
      if e.kind.Usable? && Top(e) > h then Top(e) else h
  }

  function UsableBytes(es: seq<Entry>): nat {
    if es == [] then 0
    else
      var e := es[|es| - 1];
      UsableBytes(es[..|es| - 1]) + if e.kind.Usable? then e.length else 0
  }

  predicate HasRoom(e: Entry, size: nat) { e.kind.Usable? && e.length >= size }

  /** k is the entry the bitmap is carved from. */
  ghost predicate FirstRoom(es: seq<Entry>, size: nat, k: nat) {
    && k < |es| && HasRoom(es[k], size)
    && forall j | 0 <= j < k :: !HasRoom(es[j], size)
  }

  function Shrunk(e: Entry, size: nat): Entry
    requires e.length >= size
  {
    Entry(e.base + size, e.length - size, e.kind)
  }

  lemma {:induction false} CarvingTakesItsSize(es: seq<Entry>, size: nat, k: nat)
    requires k < |es| && HasRoom(es[k], size)
    ensures UsableBytes(es[k := Shrunk(es[k], size)]) == UsableBytes(es) - size
  {
    var es' := es[k := Shrunk(es[k], size)];
    var n := |es| - 1;
    if k == n {
      assert es'[..n] == es[..n];
    } else {
      assert es'[..n] == es[..n][k := Shrunk(es[k], size)];
      CarvingTakesItsSize(es[..n], size, k);
    }
  }

  ghost predicate InEntry(e: Entry, page: nat) {
    e.kind.Usable? && e.base <= page * PAGE_SIZE < Top(e)
  }

  ghost predicate UsablePage(es: seq<Entry>, page: nat) {
    exists k :: 0 <= k < |es| && InEntry(es[k], page)
  }

  ghost function ClearPages(bits: seq<bool>): set<nat> {
    set i: nat | i < |bits| && !bits[i]
  }

  lemma ClearingOneMore(bits: seq<bool>, index: nat)
    requires index < |bits| && bits[index]
    ensures |ClearPages(bits[index := false])| == |ClearPages(bits)| + 1
  {
    assert ClearPages(bits[index := false]) == ClearPages(bits) + {index};
  }

  lemma {:induction false} AtMost(s: set<nat>, n: nat)
    requires forall i | i in s :: i < n
    ensures |s| <= n
  {
    if n > 0 {
      AtMost(s - {n - 1}, n - 1);
      assert s - {n - 1} == s || |s| == |s - {n - 1}| + 1;
    } else {
      assert s == {};
    }
  }

  /** A memory map as the boot loader hands it over: usable entries are whole pages, do
      not overlap and stay below 2^63. */
  ghost predicate WellFormedMap(es: seq<Entry>) {
    && (forall k | 0 <= k < |es| && es[k].kind.Usable? ::
          && es[k].base % PAGE_SIZE == 0 && es[k].length % PAGE_SIZE == 0
          && Top(es[k]) < 0x8000_0000_0000_0000)
    && (forall j, k | 0 <= j < k < |es| && es[j].kind.Usable? && es[k].kind.Usable? ::
          Top(es[j]) <= es[k].base || Top(es[k]) <= es[j].base)
  }

  lemma CarvedMapIsWellFormed(es: seq<Entry>, size: nat, k: nat)
    requires WellFormedMap(es) && k < |es| && HasRoom(es[k], size) && size % PAGE_SIZE == 0
    ensures WellFormedMap(es[k := Shrunk(es[k], size)])
  {
  }

  // ---------------------------------------------------------------- the bitmap

  /** Bitmap::Set: the bit's mask comes out of its byte and, for true, goes back in. */
  method SetBit(buffer: array<bv8>, index: nat, value: bool)
    requires index < 8 * buffer.Length
    modifies buffer
    ensures Unpack(buffer[..]) == old(Unpack(buffer[..]))[index := value]
  {
    hide Unpack, Write, Mask;
    UnpackUpdate(buffer[..], index, value);
    WriteByte(buffer, index / 8, index % 8, value);
  }

  method WriteByte(buffer: array<bv8>, bytei: nat, k: nat, value: bool)
    requires bytei < buffer.Length && k < 8
    modifies buffer
    ensures buffer[..] == old(buffer[..])[bytei := Write(old(buffer[bytei]), k, value)]
  {
    hide Mask, Cleared, Raised;
    var bitindexer := Mask(k);
    buffer[bytei] := Cleared(buffer[bytei], bitindexer);
    if value {
      buffer[bytei] := Raised(buffer[bytei], bitindexer);
    }
  }

  method GetBit(buffer: array<bv8>, index: nat) returns (value: bool)
    requires index < 8 * buffer.Length
    ensures value == Unpack(buffer[..])[index]
  {
    value := buffer[index / 8] & Mask(index % 8) != 0;
  }

  lemma WrapSmall()
    ensures Wrap(0) == 0
  {
  }

  lemma WrapAdd(a: int, b: int)
    ensures Wrap(Wrap(a) + b) == Wrap(a + b)
  {
    ModShift(Wrap(a) + b, a / TWO_64);
  }

  /** The first loop of Initialize: the top of usable memory and its size in bytes. */
  method Survey(mmap: array<Entry>) returns (highest: nat, bytes: nat)
    ensures highest == HighestTop(mmap[..])
    ensures bytes == Wrap(UsableBytes(mmap[..]))
  {
    hide Wrap;
    highest, bytes := 0, 0;
    WrapSmall();
    for i := 0 to mmap.Length
      invariant highest == HighestTop(mmap[..i])
      invariant bytes == Wrap(UsableBytes(mmap[..i]))
    {
      assert mmap[..i + 1][..i] == mmap[..i];
      if mmap[i].kind.Usable? {
        var top := mmap[i].base + mmap[i].length;
        WrapAdd(UsableBytes(mmap[..i]), mmap[i].length);
        bytes := Wrap(bytes + mmap[i].length);
        if top > highest {
          highest := top;
        }
      }
    }
    assert mmap[..mmap.Length] == mmap[..];
  }

  /** The second loop: the bitmap's bytes come off the front of the first entry with room. */
  method Carve(mmap: array<Entry>, size: nat) returns (k: nat)
    requires WellFormedMap(mmap[..]) && size % PAGE_SIZE == 0
    requires exists j | 0 <= j < mmap.Length :: HasRoom(mmap[j], size)
    modifies mmap
    ensures FirstRoom(old(mmap[..]), size, k)
    ensures mmap[..] == old(mmap[..])[k := Shrunk(old(mmap[..])[k], size)]
    ensures WellFormedMap(mmap[..]) && UsableBytes(mmap[..]) == old(UsableBytes(mmap[..])) - size
  {
    ghost var es := mmap[..];
    k := 0;
    while !HasRoom(mmap[k], size)
      invariant 0 <= k < mmap.Length && mmap[..] == es
      invariant forall j | 0 <= j < k :: !HasRoom(mmap[j], size)
      invariant exists j :: k <= j < mmap.Length && HasRoom(mmap[j], size)
      decreases mmap.Length - k
    {
      k := k + 1;
    }
    assert FirstRoom(es, size, k);
    CarvingTakesItsSize(es, size, k);
    CarvedMapIsWellFormed(es, size, k);
    mmap[k] := Shrunk(mmap[k], size);
    assert mmap[..] == es[k := Shrunk(es[k], size)];
  }

  /** Pages of es[..n], and of the first done bytes of es[n]. */
  ghost predicate ReleasedPage(es: seq<Entry>, n: nat, done: nat, page: nat)
    requires n <= |es|
  {
    || UsablePage(es[..n], page)
    || (n < |es| && InEntry(es[n], page) && page * PAGE_SIZE < es[n].base + done)
  }

  lemma OneMorePage(es: seq<Entry>, n: nat, done: nat, page: nat)
    requires WellFormedMap(es) && n < |es| && es[n].kind.Usable?
    requires done < es[n].length && done % PAGE_SIZE == 0
    ensures var here := (es[n].base + done) / PAGE_SIZE;
            && !ReleasedPage(es, n, done, here)
            && (ReleasedPage(es, n, done + PAGE_SIZE, page) <==> page == here || ReleasedPage(es, n, done, page))
  {
    var here := (es[n].base + done) / PAGE_SIZE;
    assert here * PAGE_SIZE == es[n].base + done;
    forall k | 0 <= k < n ensures !InEntry(es[..n][k], here) {
      assert es[..n][k] == es[k];
    }
  }

  lemma NextEntry(es: seq<Entry>, n: nat, page: nat)
    requires n < |es|
    ensures ReleasedPage(es, n, es[n].length, page) <==> ReleasedPage(es, n + 1, 0, page)
    ensures !es[n].kind.Usable? ==> (ReleasedPage(es, n, 0, page) <==> ReleasedPage(es, n + 1, 0, page))
  {
    var longer := es[..n + 1];
    assert longer == es[..n] + [es[n]];
    if UsablePage(es[..n], page) {
      var k :| 0 <= k < n && InEntry(es[..n][k], page);
      assert InEntry(longer[k], page);
    }
    if UsablePage(longer, page) {
      var k :| 0 <= k < n + 1 && InEntry(longer[k], page);
      assert k < n ==> InEntry(es[..n][k], page);
    }
    assert longer[n] == es[n];
  }

  /** The bits, and the count of clear ones, after releasing es[..n] and done bytes of es[n]. */
  ghost predicate ReleasedExactly(bits: seq<bool>, es: seq<Entry>, n: nat, done: nat)
    requires n <= |es|
  {
    && (forall i: nat | i < |bits| :: bits[i] <==> !ReleasedPage(es, n, done, i))
    && PAGE_SIZE * |ClearPages(bits)| == UsableBytes(es[..n]) + done
  }

  lemma ReleaseOnePage(bits: seq<bool>, es: seq<Entry>, n: nat, done: nat)
    requires WellFormedMap(es) && n < |es| && es[n].kind.Usable?
    requires done < es[n].length && done % PAGE_SIZE == 0
    requires (es[n].base + done) / PAGE_SIZE < |bits|
    requires ReleasedExactly(bits, es, n, done)
    ensures ReleasedExactly(bits[(es[n].base + done) / PAGE_SIZE := false], es, n, done + PAGE_SIZE)
  {
    var page := (es[n].base + done) / PAGE_SIZE;
    forall i: nat | i < |bits| {
      OneMorePage(es, n, done, i);
    }
    OneMorePage(es, n, done, page);
    ClearingOneMore(bits, page);
  }

  lemma ReleaseNextEntry(bits: seq<bool>, es: seq<Entry>, n: nat)
    requires n < |es|
    requires ReleasedExactly(bits, es, n, if es[n].kind.Usable? then es[n].length else 0)
    ensures ReleasedExactly(bits, es, n + 1, 0)
  {
    assert es[..n + 1][..n] == es[..n];
    forall i: nat | i < |bits| {
      NextEntry(es, n, i);
    }
  }

  lemma EntryIsWhole(es: seq<Entry>, n: nat)
    requires WellFormedMap(es) && n < |es| && es[n].kind.Usable?
    ensures es[n].base % PAGE_SIZE == 0 && es[n].length % PAGE_SIZE == 0
  {
  }

  /** The inner of the last two loops of Initialize. */
  method ReleaseEntry(buffer: array<bv8>, e: Entry, ghost es: seq<Entry>, ghost n: nat)
    requires WellFormedMap(es) && n < |es| && es[n] == e && e.kind.Usable?
    requires Top(e) / PAGE_SIZE <= 8 * buffer.Length
    requires ReleasedExactly(Unpack(buffer[..]), es, n, 0)
    modifies buffer
    ensures ReleasedExactly(Unpack(buffer[..]), es, n, e.length)
  {
    hide Unpack, ReleasedExactly, WellFormedMap;
    EntryIsWhole(es, n);
    var t: nat := 0;
    while t < e.length
      invariant t <= e.length && t % PAGE_SIZE == 0
      invariant ReleasedExactly(Unpack(buffer[..]), es, n, t)
    {
      assert t + PAGE_SIZE <= e.length;
      ReleaseOnePage(Unpack(buffer[..]), es, n, t);
      SetBit(buffer, (e.base + t) / PAGE_SIZE, false);
      t := t + PAGE_SIZE;
    }
  }

  /** The last loop of Initialize: clear the bit of every page of every usable entry. */
  method ReleaseUsable(buffer: array<bv8>, mmap: array<Entry>)
    requires buffer as object != mmap as object
    requires WellFormedMap(mmap[..])
    requires forall k | 0 <= k < mmap.Length && mmap[k].kind.Usable? :: Top(mmap[k]) / PAGE_SIZE <= 8 * buffer.Length
    requires forall i | 0 <= i < 8 * buffer.Length :: Unpack(buffer[..])[i]
    modifies buffer
    ensures forall i: nat | i < 8 * buffer.Length :: Unpack(buffer[..])[i] <==> !UsablePage(mmap[..], i)
    ensures PAGE_SIZE * |ClearPages(Unpack(buffer[..]))| == UsableBytes(mmap[..])
  {
    ghost var es := mmap[..];
    assert ClearPages(Unpack(buffer[..])) == {};
    for n := 0 to mmap.Length
      invariant mmap[..] == es
      invariant ReleasedExactly(Unpack(buffer[..]), es, n, 0)
    {
      if mmap[n].kind.Usable? {
        ReleaseEntry(buffer, mmap[n], es, n);
      }
      ReleaseNextEntry(Unpack(buffer[..]), es, n);
    }
    assert es[..mmap.Length] == es;
  }

  /** Neither the sum over the entries nor the carving wraps around 2^64. */
  lemma FreeRamIsExact(es: seq<Entry>, bits: seq<bool>, total: nat, bytes: nat, size: nat, left: nat)
    requires WellFormedMap(es)
    requires forall i: nat | i < |bits| :: bits[i] <==> !UsablePage(es, i)
    requires PAGE_SIZE * |ClearPages(bits)| == UsableBytes(es) == total - size
    requires bytes == Wrap(total) && left == Wrap(bytes - size)
    ensures left == PAGE_SIZE * |ClearPages(bits)|
  {
    forall i | i in ClearPages(bits) ensures i < 0x8_0000_0000_0000 {
      assert UsablePage(es, i);
    }
    AtMost(ClearPages(bits), 0x8_0000_0000_0000);
    assert total == TWO_64 * (total / TWO_64) + total % TWO_64;
    ModShift(total % TWO_64 - size, total / TWO_64);
  }

  ghost function ReservedPages(es: seq<Entry>, pages: nat): set<nat> {
    set i: nat | i < pages && !UsablePage(es, i)
  }

  /** Ownership is exact from the start exactly when page 0, the null pointer, is nobody's to
      have. */
  lemma BootLeavesOwnershipIff(es: seq<Entry>, s: Pages)
    requires s.cursor == 0 && s.limit <= |s.bits|
    requires forall i: nat | i < |s.bits| :: s.bits[i] <==> !UsablePage(es, i)
    ensures Owned(s, ReservedPages(es, s.limit), map[]) <==> 0 in ReservedPages(es, s.limit)
  {
  }

  /** So it is where usable memory begins above page 0. */
  lemma PageZeroIsReserved(es: seq<Entry>, size: nat, k: nat)
    requires FirstRoom(es, size, k) && forall j | 0 <= j < |es| && es[j].kind.Usable? :: PAGE_SIZE <= es[j].base
    ensures 0 in ReservedPages(es[k := Shrunk(es[k], size)], HighestTop(es) / PAGE_SIZE)
  {
    assert Top(es[k]) >= PAGE_SIZE;
  }

  lemma {:induction false} HighestIsBelow(es: seq<Entry>, bound: nat)
    requires forall k | 0 <= k < |es| && es[k].kind.Usable? :: Top(es[k]) <= bound
    ensures HighestTop(es) <= bound
  {
    if es != [] {
      HighestIsBelow(es[..|es| - 1], bound);
    }
  }

  lemma CarvedPagesAreReserved(es: seq<Entry>, size: nat, k: nat, pages: nat, i: nat)
    requires WellFormedMap(es) && k < |es| && HasRoom(es[k], size) && size % PAGE_SIZE == 0
    requires Top(es[k]) / PAGE_SIZE <= pages
    requires es[k].base <= i * PAGE_SIZE < es[k].base + size
    ensures i in ReservedPages(es[k := Shrunk(es[k], size)], pages)
  {
    var carved := es[k := Shrunk(es[k], size)];
    forall j | 0 <= j < |carved| ensures !InEntry(carved[j], i) {
      if j != k {
        assert carved[j] == es[j];
      }
    }
  }

  /** Carve, fill with ones, release: the bitmap at the end of Initialize. */
  method BuildBitmap(mmap: array<Entry>, pages: nat) returns (bitmap: array<bv8>, k: nat)
    requires WellFormedMap(mmap[..])
    requires pages == HighestTop(mmap[..]) / PAGE_SIZE
    requires pages % 8 == 0 || (pages / 8) % PAGE_SIZE != 0
    requires exists j | 0 <= j < mmap.Length :: HasRoom(mmap[j], BitmapSize(pages))
    modifies mmap
    ensures fresh(bitmap) && bitmap.Length == BitmapSize(pages)
    ensures FirstRoom(old(mmap[..]), bitmap.Length, k)
    ensures mmap[..] == old(mmap[..])[k := Shrunk(old(mmap[..])[k], bitmap.Length)]
    ensures WellFormedMap(mmap[..])
    ensures var bits := Unpack(bitmap[..]);
            && pages <= |bits|
            && (forall i: nat | i < |bits| :: bits[i] <==> !UsablePage(mmap[..], i))
            && PAGE_SIZE * |ClearPages(bits)| == UsableBytes(mmap[..]) == old(UsableBytes(mmap[..])) - bitmap.Length
  {
    ghost var es := mmap[..];
    var bitmapSize := BitmapSize(pages);
    k := Carve(mmap, bitmapSize);
    BitmapCoversIff(pages);
    bitmap := new bv8[bitmapSize](_ => 0xFF);
    UnpackFull(bitmap[..]);
    assert mmap[..] == es[k := Shrunk(es[k], bitmapSize)];
    forall j | 0 <= j < mmap.Length && mmap[j].kind.Usable?
      ensures Top(mmap[j]) <= HighestTop(es)
    {
      assert Top(mmap[..][j]) == Top(es[j]);
    }
    ReleaseUsable(bitmap, mmap);
  }

  /** freeRam -= bitmapSize, once the bitmap is built. */
  method DeductBitmap(bytes: nat, size: nat, ghost total: nat, ghost es: seq<Entry>, ghost bits: seq<bool>)
    returns (left: nat)
    requires WellFormedMap(es) && bytes == Wrap(total)
    requires forall i: nat | i < |bits| :: bits[i] <==> !UsablePage(es, i)
    requires PAGE_SIZE * |ClearPages(bits)| == UsableBytes(es) == total - size
    ensures left == PAGE_SIZE * |ClearPages(bits)| && left < TWO_64
  {
    left := Wrap(bytes - size);
    FreeRamIsExact(es, bits, total, bytes, size, left);
  }

  /** What Initialize owes: the bitmap's size bytes came off the front of the first entry
      with room; exactly the pages of the entries that remain are clear; freeRam counts
      them; every other page, the bitmap's own included, is reserved for good. */
  ghost predicate Booted(es: seq<Entry>, es': seq<Entry>, k: nat, s: Pages, addr: nat, size: nat, reserved: set<nat>) {
    && s.limit == HighestTop(es) / PAGE_SIZE && size == BitmapSize(s.limit) && |s.bits| == 8 * size
    && FirstRoom(es, size, k) && es' == es[k := Shrunk(es[k], size)] && addr == es[k].base
    && (forall i: nat | i < |s.bits| :: s.bits[i] <==> !UsablePage(es', i))
    && s.freeRam == PAGE_SIZE * |ClearPages(s.bits)| && s.usedRam == 0 && s.cursor == 0
    && reserved == ReservedPages(es', s.limit)
    && (forall i: nat | addr <= i * PAGE_SIZE < addr + size :: i in reserved)
  }

  lemma BootReservesTheBitmap(es: seq<Entry>, size: nat, k: nat, pages: nat)
    requires WellFormedMap(es) && FirstRoom(es, size, k) && size % PAGE_SIZE == 0
    requires pages == HighestTop(es) / PAGE_SIZE
    ensures forall i: nat | es[k].base <= i * PAGE_SIZE < es[k].base + size ::
              i in ReservedPages(es[k := Shrunk(es[k], size)], pages)
  {
    forall i: nat | es[k].base <= i * PAGE_SIZE < es[k].base + size
      ensures i in ReservedPages(es[k := Shrunk(es[k], size)], pages)
    {
      CarvedPagesAreReserved(es, size, k, pages, i);
    }
  }

  /** Usable memory from page 1 to page 7 makes an eight-page machine, page 1 the bitmap. */
  lemma EightPagesBoot(es': seq<Entry>, k: nat, s: Pages, addr: nat, size: nat, reserved: set<nat>)
    requires Booted([Entry(4096, 28672, Usable)], es', k, s, addr, size, reserved)
    ensures WellFormedMap([Entry(4096, 28672, Usable)])
    ensures s.cursor == 0 && TakenExactly(s, {0, 1})
  {
    var es := [Entry(4096, 28672, Usable)];
    assert es[..0] == [] && HighestTop(es[..0]) == 0 && HighestTop(es) == 32768;
    assert size == 4096 && es' == [Entry(8192, 24576, Usable)];
    forall i: nat | i < 8 ensures s.bits[i] <==> i in {0, 1} {
      assert UsablePage(es', i) <==> InEntry(es'[0], i);
    }
  }

  /** With page 0 usable too, above the bitmap in the map, one page is asked for and the
      machine halts: seven pages are free, page 0 serves the request, and null is the answer. */
  lemma PageZeroHalts(es': seq<Entry>, k: nat, s: Pages, addr: nat, size: nat, reserved: set<nat>)
    requires Booted([Entry(4096, 28672, Usable), Entry(0, 4096, Usable)], es', k, s, addr, size, reserved)
    ensures WellFormedMap([Entry(4096, 28672, Usable), Entry(0, 4096, Usable)])
    ensures TakenExactly(s, {1}) && s.freeRam == 7 * PAGE_SIZE
    ensures Serves(s.bits, 0, 1, s.cursor, s.limit) && Alloc(s, 1).None?
  {
    var es := [Entry(4096, 28672, Usable), Entry(0, 4096, Usable)];
    assert es[..1] == [es[0]] && es[..1][..0] == [];
    assert HighestTop([]) == 0 && HighestTop(es[..1]) == 32768 && HighestTop(es) == 32768;
    PageZeroBits(es', s);
  }

  lemma PageZeroBits(es': seq<Entry>, s: Pages)
    requires es' == [Entry(8192, 24576, Usable), Entry(0, 4096, Usable)]
    requires s.limit == 8 && |s.bits| == 32768 && s.cursor == 0 && s.freeRam == PAGE_SIZE * |ClearPages(s.bits)|
    requires forall i: nat | i < |s.bits| :: s.bits[i] <==> !UsablePage(es', i)
    ensures TakenExactly(s, {1}) && s.freeRam == 7 * PAGE_SIZE
    ensures Serves(s.bits, 0, 1, s.cursor, s.limit) && Alloc(s, 1).None?
  {
    hide UsablePage;
    forall i: nat | i < |s.bits| ensures !s.bits[i] <==> i in {0, 2, 3, 4, 5, 6, 7} {
      PageZeroUsable(es', i);
    }
    assert ClearPages(s.bits) == {0, 2, 3, 4, 5, 6, 7};
    hide ClearPages;
    HaltsAtPageZero(s);
  }

  lemma PageZeroUsable(es': seq<Entry>, i: nat)
    requires es' == [Entry(8192, 24576, Usable), Entry(0, 4096, Usable)]
    ensures UsablePage(es', i) <==> i in {0, 2, 3, 4, 5, 6, 7}
  {
    assert UsablePage(es', i) <==> InEntry(es'[0], i) || InEntry(es'[1], i);
  }

  lemma HaltsAtPageZero(s: Pages)
    requires TakenExactly(s, {1}) && s.cursor == 0
    ensures Serves(s.bits, 0, 1, s.cursor, s.limit) && Alloc(s, 1).None?
  {
    assert Serves(s.bits, 0, 1, 0, 8);
    assert PageZeroAnswers(s, 1);
    HaltsOnlyForWantOfARunIff(s, 1);
    LowestRunIsLowest(s.bits, 1, 0, 8);
  }

  // ---------------------------------------------------------------- searching

  /** Half way through a scan of [from, limit): it stands at end, the last p pages are
      clear and no further ones before them, and no run of count pages was passed over. */
  ghost predicate Scanned(bits: seq<bool>, count: nat, from: nat, limit: nat, end: nat, p: nat) {
    && (end == from || from < end <= limit) && limit <= |bits|
    && from + p <= end && (count == 0 || p < count)
    && (forall i | end - p <= i < end :: !bits[i])
    && (from < end - p ==> bits[end - p - 1])
    && (forall q: nat | q + count <= end :: !Serves(bits, q, count, from, limit))
  }

  lemma ScanStarts(bits: seq<bool>, count: nat, from: nat, limit: nat)
    requires limit <= |bits|
    ensures Scanned(bits, count, from, limit, from, 0)
  {
  }

  lemma ScanOnePage(bits: seq<bool>, count: nat, from: nat, limit: nat, end: nat, p: nat)
    requires Scanned(bits, count, from, limit, end, p) && end < limit
    ensures bits[end] ==> Scanned(bits, count, from, limit, end + 1, 0)
    ensures !bits[end] && p + 1 != count ==> Scanned(bits, count, from, limit, end + 1, p + 1)
    ensures !bits[end] && p + 1 == count ==>
              LowestRun(bits, count, from, limit) == Some(end + 1 - count)
  {
    LowestRunIsLowest(bits, count, from, limit);
    if !bits[end] && p + 1 == count {
      assert Serves(bits, end + 1 - count, count, from, limit);
    }
  }

  lemma ScanFoundNone(bits: seq<bool>, count: nat, from: nat, limit: nat, end: nat, p: nat)
    requires Scanned(bits, count, from, limit, end, p) && limit <= end
    ensures LowestRun(bits, count, from, limit) == None
  {
    LowestRunIsLowest(bits, count, from, limit);
  }

  lemma OwnedBounds(s: Pages, reserved: set<nat>, live: map<nat, nat>)
    requires Owned(s, reserved, live)
    ensures s.cursor <= s.limit <= |s.bits| && forall p | p in live :: p + live[p] <= s.limit
  {
  }

  class PhysicalAllocator {
    var buffer: array<bv8>
    var bufferAddr: nat
    var highestAddr: nat
    var lastI: nat
    var usedRam: nat
    var freeRam: nat
    ghost var reserved: set<nat>
    ghost var live: map<nat, nat>

    ghost function View(): Pages
      reads this, buffer
    {
      Pages(Unpack(buffer[..]), highestAddr / PAGE_SIZE, lastI, usedRam, freeRam)
    }

    ghost predicate Valid()
      reads this, buffer
    {
      Owned(View(), reserved, live)
    }

    constructor Initialize(mmap: array<Entry>)
      requires WellFormedMap(mmap[..])
      requires var pages := HighestTop(mmap[..]) / PAGE_SIZE;
               && (pages % 8 == 0 || (pages / 8) % PAGE_SIZE != 0)
               && exists k | 0 <= k < mmap.Length :: HasRoom(mmap[k], BitmapSize(pages))
      modifies mmap
      ensures fresh(buffer) && live == map[] && highestAddr <= 0x8000_0000_0000_0000
      ensures Valid() <==> 0 in reserved
      ensures exists k: nat :: Booted(old(mmap[..]), mmap[..], k, View(), bufferAddr, buffer.Length, reserved)
    {
      hide UsablePage, UsableBytes, Unpack, BitmapSize, AlignUp, Owned, ReservedPages, Wrap, ClearPages;
      ghost var es := mmap[..];
      var highest, bytes := Survey(mmap);
      var pages := highest / PAGE_SIZE;
      var bitmap, k := BuildBitmap(mmap, pages);
      ghost var s := Pages(Unpack(bitmap[..]), pages, 0, 0, 0);
      var left := DeductBitmap(bytes, bitmap.Length, UsableBytes(es), mmap[..], s.bits);
      s := s.(freeRam := left);
      BootReservesTheBitmap(es, bitmap.Length, k, pages);
      BootLeavesOwnershipIff(mmap[..], s);
      HighestIsBelow(es, 0x8000_0000_0000_0000);

      buffer, bufferAddr, highestAddr := bitmap, mmap[k].base - bitmap.Length, highest;
      lastI, usedRam, freeRam := 0, 0, left;
      live := map[];
      reserved := ReservedPages(mmap[..], pages);
      new;
      assert View() == s;
      assert Booted(es, mmap[..], k, s, bufferAddr, buffer.Length, reserved);
    }

    /** The loop of inner_alloc: a scan of [lastI, limit), counting clear pages in a row. */
    method Scan(count: nat, limit: nat) returns (found: bool)
      requires limit <= 8 * buffer.Length
      modifies this`lastI
      ensures match LowestRun(Unpack(buffer[..]), count, old(lastI), limit)
              case Some(p) => found && lastI == p + count
              case None => !found && lastI == if old(lastI) < limit then limit else old(lastI)
    {
      hide Unpack, LowestRun, Serves;
      ghost var bits, from := Unpack(buffer[..]), lastI;
      var p: nat := 0;
      ScanStarts(bits, count, from, limit);
      while lastI < limit
        invariant Scanned(bits, count, from, limit, lastI, p)
        decreases limit - lastI
      {
        ScanOnePage(bits, count, from, limit, lastI, p);
        var taken := GetBit(buffer, lastI);
        lastI := lastI + 1;
        if !taken {
          p := p + 1;
          if p == count {
            return true;
          }
        } else {
          p := 0;
        }
      }
      ScanFoundNone(bits, count, from, limit, lastI, p);
      found := false;
    }

    method InnerAlloc(count: nat, limit: nat) returns (addr: nat)
      requires limit <= 8 * buffer.Length
      modifies this`lastI, buffer
      ensures var a := Search(old(View()), count, limit);
              addr == a.page * PAGE_SIZE && View() == a.pages
    {
      LowestRunIsLowest(Unpack(buffer[..]), count, lastI, limit);
      var found := Scan(count, limit);
      if !found {
        return 0;
      }
      var page := lastI - count;
      TakeRange(page, lastI);
      addr := page * PAGE_SIZE;
    }

    /** The two marking loops of the source. */
    method TakeRange(lo: nat, hi: nat)
      requires lo <= hi <= 8 * buffer.Length
      modifies buffer
      ensures Unpack(buffer[..]) == SetRange(old(Unpack(buffer[..])), lo, hi, true)
    {
      ghost var bits := Unpack(buffer[..]);
      for i := lo to hi
        invariant Unpack(buffer[..]) == SetRange(bits, lo, i, true)
      {
        SetBit(buffer, i, true);
        assert SetRange(bits, lo, i, true)[i := true] == SetRange(bits, lo, i + 1, true);
      }
    }

    method ClearRange(lo: nat, hi: nat)
      requires lo <= hi <= 8 * buffer.Length
      modifies buffer
      ensures Unpack(buffer[..]) == SetRange(old(Unpack(buffer[..])), lo, hi, false)
    {
      ghost var bits := Unpack(buffer[..]);
      for i := lo to hi
        invariant Unpack(buffer[..]) == SetRange(bits, lo, i, false)
      {
        SetBit(buffer, i, false);
        assert SetRange(bits, lo, i, false)[i := false] == SetRange(bits, lo, i + 1, false);
      }
    }

    /** The second pass of alloc, up to the old cursor i, and its accounting. */
    method WrapAround(size: nat, i: nat) returns (ret: nat)
      requires i <= 8 * buffer.Length
      modifies this`lastI, this`usedRam, this`freeRam, buffer
      ensures var second := Search(old(View()).(cursor := 0), size, i);
              && ret == second.page * PAGE_SIZE
              && View() == if ret == 0 then second.pages else Charged(second.pages, size)
    {
      ghost var s := View();
      lastI := 0;
      assert View() == s.(cursor := 0);
      ret := InnerAlloc(size, i);
      if ret != 0 {
        usedRam := Wrap(usedRam + size * 0x1000);
        freeRam := Wrap(freeRam - size * 0x1000);
      }
    }

    /** alloc over the bitmap alone; 0 stands for HaltCatchFire. */
    method TwoPasses(size: nat) returns (ret: nat)
      requires highestAddr / PAGE_SIZE <= 8 * buffer.Length && lastI <= 8 * buffer.Length
      modifies this`lastI, this`usedRam, this`freeRam, buffer
      ensures match PhysicalPages.Alloc(old(View()), size)
              case None => ret == 0
              case Some(a) => ret == a.page * PAGE_SIZE && ret != 0 && View() == a.pages
    {
      var i := lastI;
      ret := InnerAlloc(size, highestAddr / 0x1000);
      if ret == 0 {
        ret := WrapAround(size, i);
      }
    }

    /** None is HaltCatchFire. */
    method Alloc(size: nat) returns (r: Option<nat>)
      requires Valid()
      modifies this, buffer
      ensures buffer == old(buffer) && highestAddr == old(highestAddr) && reserved == old(reserved)
      ensures match PhysicalPages.Alloc(old(View()), size)
              case None => r.None?
              case Some(a) => && r == Some(a.page * PAGE_SIZE) && View() == a.pages
                              && Valid() && live == old(live)[a.page := size]
                              && a.page !in old(live) && 1 <= a.page && 1 <= size
    {
      hide Owned, PhysicalPages.Alloc, Unpack;
      ghost var s := View();
      OwnedBounds(s, reserved, live);
      var ret := TwoPasses(size);
      if ret == 0 {
        return None;
      }
      AllocKeepsOwnership(s, reserved, live, size);
      live := live[ret / PAGE_SIZE := size];
      r := Some(ret);
    }

    method Free(ptr: nat, size: nat)
      requires Valid()
      requires ptr % PAGE_SIZE == 0 && ptr / PAGE_SIZE in live && live[ptr / PAGE_SIZE] == size
      modifies this, buffer
      ensures buffer == old(buffer) && highestAddr == old(highestAddr) && reserved == old(reserved)
      ensures View() == PhysicalPages.Free(old(View()), ptr / PAGE_SIZE, size)
      ensures Valid() && live == old(live) - {ptr / PAGE_SIZE}
    {
      hide Owned, Unpack;
      FreeKeepsOwnership(View(), reserved, live, ptr / PAGE_SIZE);
      OwnedBounds(View(), reserved, live);
      var page := ptr / 0x1000;
      ClearRange(page, page + size);
      if lastI > page {
        lastI := page;
      }
      usedRam := Wrap(usedRam - size * 0x1000);
      freeRam := Wrap(freeRam + size * 0x1000);
      live := live - {page};
    }
  }
}
