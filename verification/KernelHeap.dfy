/** src/mm/liballoc.cpp: the boundary-tag allocator on its tags, its 32 free lists and its
    standby counters, proved to compute the functions of HeapModel. */
module KernelHeap {
  import opened Machine
  import opened HeapModel
  import opened HeapSteps
  import opened HeapKeepers
  import opened HeapOperations
  import opened HeapTheorems
  import opened HeapNumbers
  import opened TagMemory
  import PhysicalPages
  import PhysicalPagesProofs
  import opened PhysicalMemory

  method GetExp(size: nat) returns (r: int)
    requires size < 0x1_0000_0000
    ensures r == Exponent(size)
  {
    if size < 256 {
      return -1;
    }
    Pow2Values();
    Log2AtLeast(size, 8);
    var shift: nat := 8;
    ghost var e := Log2(size);
    Log2Bounds(size);
    Log2Below(size, 32);
    while shift < 32
      invariant 8 <= shift <= 32 && shift <= e + 1
    {
      if OneShifted(shift) > size {
        break;
      }
      Log2AtLeast(size, shift);
      shift := shift + 1;
    }
    if shift <= e {
      Pow2Grows(shift, e);
    }
    r := shift - 1;
  }

  /** 1 << shift */
  function OneShifted(shift: nat): int { Pow2(shift) }

  lemma {:induction false} Pow2Grows(m: nat, n: nat)
    requires m <= n
    ensures Pow2(m) <= Pow2(n)
    decreases n
  {
    if m < n {
      Pow2Grows(m, n - 1);
    }
  }

  /** Each region is one live allocation of the page allocator, seen through the offset. */
  ghost predicate RegionsOwned(regions: map<int, int>, offset: nat, live: map<nat, nat>) {
    forall b | b in regions ::
      && 0 <= b - offset && (b - offset) % PAGE_SIZE == 0
      && (b - offset) / PAGE_SIZE in live && live[(b - offset) / PAGE_SIZE] == regions[b]
  }

  ghost predicate SizesMatch(tags: map<int, Tag>, held: map<int, int>) {
    forall a | a in held :: a in tags && tags[a].size == held[a]
  }

  lemma SizesStay(tags: map<int, Tag>, tags': map<int, Tag>, h: Heap)
    requires SizesMatch(tags, Allocations(h))
    requires forall b | b in h.blocks && b in tags :: b in tags' && tags'[b].size == tags[b].size
    ensures SizesMatch(tags', Allocations(h))
  {
  }

  lemma SizesGrow(tags: map<int, Tag>, tags': map<int, Tag>, h: Heap, a: int, size: int)
    requires SizesMatch(tags, Allocations(h))
    requires forall b | b in h.blocks && b in tags && b != a :: b in tags' && tags'[b].size == tags[b].size
    requires a in tags' && tags'[a].size == size
    ensures SizesMatch(tags', Allocations(h)[a := size])
  {
  }

  lemma SizesShrink(tags: map<int, Tag>, tags': map<int, Tag>, h: Heap, h': Heap, a: int)
    requires SizesMatch(tags, Allocations(h)) && Allocations(h') == Allocations(h) - {a}
    requires forall b | b in h'.blocks && b in tags :: b in tags' && tags'[b].size == tags[b].size
    ensures SizesMatch(tags', Allocations(h'))
  {
    assert forall b | b in Allocations(h') :: b in Allocations(h) && b in h'.blocks;
  }

  lemma ResizedStandby(h: Heap, a: int, size: int, i: int)
    requires a in h.blocks
    ensures Standby(Resized(h, a, size), i) == Standby(h, i)
  {
  }

  lemma NewRegionStandby(h: Heap, base: int, size: nat, i: int)
    requires base !in h.blocks && 0 <= i
    ensures Standby(AddRegion(h, base, size), i) == Standby(h, i)
  {
  }

  /** Pages that were nobody's make a region that is new. */
  lemma NewPagesAreANewRegion(h: Heap, offset: nat, live: map<nat, nat>, page: nat, pages: nat)
    requires RegionsOwned(h.regions, offset, live)
    requires 1 <= page && MIN_PAGES <= pages && 4096 * pages < 0x8000_0000 && page !in live
    requires forall p | p in live :: p + live[p] <= page || page + pages <= p
    ensures RegionIsNew(h, page * PAGE_SIZE + offset, pages)
    ensures RegionsOwned(h.regions[page * PAGE_SIZE + offset := pages], offset, live[page := pages])
  {
    var base := page * PAGE_SIZE + offset;
    forall b | b in h.regions ensures End(h, b) <= base || base + 4096 * pages <= b {
      var p := (b - offset) / PAGE_SIZE;
      assert b == p * PAGE_SIZE + offset;
    }
    forall b | b in h.regions ensures (b - offset) / PAGE_SIZE in live[page := pages]
                                      && live[page := pages][(b - offset) / PAGE_SIZE] == h.regions[b] {
      assert (b - offset) / PAGE_SIZE == page ==> b == base;
    }
  }

  /** The n bytes from dest are those gap further on; nothing else has changed. */
  ghost predicate Shifted(data: map<int, byte>, data': map<int, byte>, dest: int, gap: int, n: int) {
    && (forall q {:trigger ByteAt(data', q)} | dest <= q < dest + n :: ByteAt(data', q) == ByteAt(data, q + gap))
    && (forall q {:trigger ByteAt(data', q)} | q < dest || dest + n <= q :: ByteAt(data', q) == ByteAt(data, q))
  }

  lemma NothingShifted(data: map<int, byte>, dest: int, gap: int)
    ensures Shifted(data, data, dest, gap, 0)
  {
  }

  /** One more unit of k bytes extends the copied prefix, because the source, gap further
      on, is not overwritten. */
  lemma ShiftMore(data: map<int, byte>, data1: map<int, byte>, data2: map<int, byte>,
                  dest: int, gap: int, length: nat, n: nat, k: nat)
    requires Apart(dest, dest + length, dest + gap, dest + gap + length) && n + k <= length
    requires Shifted(data, data1, dest, gap, n) && Shifted(data1, data2, dest + n, gap, k)
    ensures Shifted(data, data2, dest, gap, n + k)
  {
    hide ByteAt;
    forall q | dest <= q < dest + (n + k) ensures ByteAt(data2, q) == ByteAt(data, q + gap) {
      if dest + n <= q {
        assert ByteAt(data2, q) == ByteAt(data1, q + gap);
        assert q + gap < dest || dest + n <= q + gap;
      }
    }
  }

  class Liballoc {
    var mem: TagStore
    var initialized: bool
    const freePages: array<int>
    const completePages: array<int>
    const pmm: PhysicalAllocator
    const offset: nat
    ghost var heap: Heap

    // -------------------------------------------------------------- invariant

    /** The tags and list heads are those of the model, whatever the sizes. */
    ghost predicate Shape()
      reads this, freePages
    {
      && freePages.Length == MAX_EXP
      && Tiled(heap) && Listed(heap) && Represents(mem.tags, freePages[..], heap)
    }

    /** Each region is, at its offset, one live allocation of the page allocator. */
    ghost predicate Owns()
      reads this, pmm
    {
      RegionsOwned(heap.regions, offset, pmm.live)
    }

    ghost predicate Separate()
      reads this, pmm
    {
      && freePages != completePages
      && freePages as object != pmm.buffer as object && completePages as object != pmm.buffer as object
    }

    ghost predicate Counted()
      reads this, completePages
    {
      && completePages.Length == MAX_EXP
      && forall i | 0 <= i < MAX_EXP :: completePages[i] == |Standby(heap, i)|
    }

    /** The size field of a live tag is what its holder asked for. */
    ghost predicate SizesKept()
      reads this
    {
      SizesMatch(mem.tags, Allocations(heap))
    }

    ghost predicate Sound()
      reads this, freePages, completePages, pmm, pmm.buffer
    {
      Inv(heap) && Shape() && Counted() && SizesKept() && Owns() && pmm.Valid() && Separate()
    }

    /** Before the first malloc the arrays may hold anything. */
    ghost predicate Valid()
      reads this, freePages, completePages, pmm, pmm.buffer
    {
      if initialized then Sound()
      else heap == Empty() && pmm.Valid() && Separate() && freePages.Length == completePages.Length == MAX_EXP
    }

    constructor (pages: PhysicalAllocator, hhdmOffset: nat)
      requires pages.Valid()
      ensures Valid() && fresh(freePages) && fresh(completePages)
      ensures pmm == pages && offset == hhdmOffset && heap == Empty() && !initialized
    {
      pmm, offset := pages, hhdmOffset;
      freePages := new int[32](_ => 0);
      completePages := new int[32](_ => 0);
      initialized := false;
      mem := RawMemory(map[], map[]);
      heap := Empty();
    }

    /** The page allocator is the same machine's as before. */
    twostate predicate PoolKept()
      reads this, pmm
    {
      pmm.buffer == old(pmm.buffer) && pmm.highestAddr == old(pmm.highestAddr) && pmm.reserved == old(pmm.reserved)
    }

    // -------------------------------------------------------------- helpers

    method Store(a: int, t: Tag)
      requires ClearOf(heap, a)
      modifies this`mem
      ensures a in mem.tags && mem.tags[a] == t
      ensures forall b | b in heap.blocks && b in old(mem.tags) && b != a ::
                b in mem.tags && mem.tags[b] == old(mem.tags)[b]
      ensures forall p | !(a <= p < a + TAG_SIZE) :: ByteAt(mem.data, p) == ByteAt(old(mem.data), p)
    {
      mem := Written(mem, a, t);
    }

    /** The stores of insert_tag, on list i. */
    method PushFront(tag: int, i: int)
      requires 0 <= i < freePages.Length && tag in heap.blocks && tag in mem.tags && mem.tags[tag].next == 0
      requires freePages[i] == 0 || (freePages[i] in heap.blocks && freePages[i] in mem.tags && freePages[i] != tag)
      requires 0 !in heap.blocks && forall a | a in heap.blocks :: ClearOf(heap, a)
      modifies this`mem, freePages
      ensures Inserted(old(mem.tags), mem.tags, heap, tag, i, old(freePages[i]))
      ensures freePages[..] == old(freePages[..])[i := tag]
      ensures forall p | OffHeaders(heap, p) :: ByteAt(mem.data, p) == ByteAt(old(mem.data), p)
    {
      hide ClearOf;
      Store(tag, mem.tags[tag].(index := i));
      if freePages[i] != 0 {
        Store(freePages[i], mem.tags[freePages[i]].(prev := tag));
        Store(tag, mem.tags[tag].(next := freePages[i]));
      }
      freePages[i] := tag;
    }

    method InsertTag(tag: int, index: int)
      requires Shape() && Live(heap, tag) && PutReady(heap, tag) && heap.blocks[tag].realSize < 0x8000_0000
      requires index < 0 || index == Bucket(heap.blocks[tag].realSize - TAG_SIZE)
      modifies this`mem, this`heap, freePages
      ensures heap == Put(old(heap), tag) && Shape()
      ensures forall b | b in heap.blocks && b in old(mem.tags) ::
                b in mem.tags && mem.tags[b].size == old(mem.tags)[b].size
      ensures forall p | OffHeaders(heap, p) :: ByteAt(mem.data, p) == ByteAt(old(mem.data), p)
    {
      hide Tiled, Listed, Linked, Threaded, ClearOf;
      BlocksAreClear(heap);
      ListFacts(heap, Bucket(heap.blocks[tag].realSize - TAG_SIZE));
      var realIndex := index;
      if index < 0 {
        realIndex := GetExp(mem.tags[tag].realSize - TAG_SIZE);
        if realIndex < MIN_EXP {
          realIndex := MIN_EXP;
        }
      }
      HeadIsFirst(mem.tags, heap.lists[realIndex], freePages[realIndex]);
      PushFront(tag, realIndex);
      InsertKeepsShape(old(mem.tags), mem.tags, old(freePages[..]), heap, tag, realIndex);
      heap := Put(heap, tag);
    }

    /** The stores of remove_tag. */
    method Unlink(tag: int)
      requires tag in heap.blocks && tag in mem.tags && 0 <= mem.tags[tag].index < freePages.Length
      requires var t := mem.tags[tag];
               && (t.prev == 0 || (t.prev in heap.blocks && t.prev in mem.tags && t.prev != tag))
               && (t.next == 0 || (t.next in heap.blocks && t.next in mem.tags && t.next != tag))
               && (t.prev == 0 || t.prev != t.next)
      requires 0 !in heap.blocks && forall a | a in heap.blocks :: ClearOf(heap, a)
      modifies this`mem, freePages
      ensures Removed(old(mem.tags), mem.tags, heap, tag)
      ensures var i := old(mem.tags)[tag].index;
              freePages[..] == old(freePages[..])[i := if old(freePages[i]) == tag then old(mem.tags)[tag].next
                                                       else old(freePages[i])]
      ensures forall p | OffHeaders(heap, p) :: ByteAt(mem.data, p) == ByteAt(old(mem.data), p)
    {
      hide ClearOf;
      var t := mem.tags[tag];
      if freePages[t.index] == tag {
        freePages[t.index] := t.next;
      }
      if t.prev != 0 {
        Store(t.prev, mem.tags[t.prev].(next := t.next));
      }
      if t.next != 0 {
        Store(t.next, mem.tags[t.next].(prev := t.prev));
      }
      Store(tag, mem.tags[tag].(next := 0, prev := 0, index := -1));
    }

    method RemoveTag(tag: int)
      requires Shape() && IsFree(heap, tag)
      modifies this`mem, this`heap, freePages
      ensures TakeReady(old(heap), tag) && heap == Take(old(heap), tag) && Shape()
      ensures forall b | b in heap.blocks && b in old(mem.tags) ::
                b in mem.tags && mem.tags[b].size == old(mem.tags)[b].size
      ensures forall p | OffHeaders(heap, p) :: ByteAt(mem.data, p) == ByteAt(old(mem.data), p)
    {
      hide Tiled, Listed, Linked, Threaded, ClearOf;
      BlocksAreClear(heap);
      ListNeighbours(mem.tags, heap, tag, freePages[..]);
      Unlink(tag);
      RemoveKeepsShape(old(mem.tags), mem.tags, old(freePages[..]), heap, tag);
      heap := Take(heap, tag);
    }

    /** The stores that make b, right of a, part of a. */
    method Absorb(a: int, b: int)
      requires JoinReady(heap, a, b) && heap.blocks[b].right != a && Mirrors(mem.tags, heap)
      requires 0 !in heap.blocks && forall c | c in heap.blocks :: ClearOf(heap, c)
      modifies this`mem
      ensures Joined(old(mem.tags), mem.tags, heap, a, b)
      ensures forall p | OffHeaders(heap, p) :: ByteAt(mem.data, p) == ByteAt(old(mem.data), p)
    {
      hide ClearOf;
      var right := mem.tags[b].splitRight;
      Store(a, mem.tags[a].(realSize := mem.tags[a].realSize + mem.tags[b].realSize, splitRight := right));
      if right != 0 {
        Store(right, mem.tags[right].(splitLeft := a));
      }
    }

    method MeltLeft(tag: int) returns (left: int)
      requires Shape() && Live(heap, tag) && heap.blocks[tag].left != 0
      modifies this`mem, this`heap
      ensures left == old(heap).blocks[tag].left && JoinReady(old(heap), left, tag)
      ensures heap == Join(old(heap), left, tag) && Shape()
      ensures forall b | b in heap.blocks && b in old(mem.tags) ::
                b in mem.tags && mem.tags[b].size == old(mem.tags)[b].size
      ensures forall p | OffHeaders(old(heap), p) :: ByteAt(mem.data, p) == ByteAt(old(mem.data), p)
    {
      hide Tiled, Listed, Threaded, ClearOf, Distinct, Linked;
      BlocksAreClear(heap);
      LeftJoins(heap, tag);
      left := mem.tags[tag].splitLeft;
      Absorb(left, tag);
      JoinKeepsShape(old(mem.tags), mem.tags, freePages[..], heap, left);
      heap := Join(heap, left, tag);
    }

    method AbsorbRight(tag: int)
      requires Shape() && Live(heap, tag) && IsFree(heap, heap.blocks[tag].right)
      modifies this`mem, this`heap, freePages
      ensures var r := old(heap).blocks[tag].right;
              && TakeReady(old(heap), r) && JoinReady(Take(old(heap), r), tag, r)
              && heap == Join(Take(old(heap), r), tag, r)
      ensures Shape()
      ensures forall b | b in heap.blocks && b in old(mem.tags) ::
                b in mem.tags && mem.tags[b].size == old(mem.tags)[b].size
      ensures forall p | OffHeaders(old(heap), p) :: ByteAt(mem.data, p) == ByteAt(old(mem.data), p)
    {
      hide Tiled, Listed, Threaded, ClearOf, Linked;
      var right := mem.tags[tag].splitRight;
      RemoveTag(right);
      BlocksAreClear(heap);
      TiledFacts(heap);
      JoinTiles(heap, tag);
      ghost var before := mem.tags;
      Absorb(tag, right);
      JoinKeepsShape(before, mem.tags, freePages[..], heap, tag);
      heap := Join(heap, tag, right);
    }

    /** The stores of split_tag before its call of insert_tag; heap is already cut. */
    method Divide(tag: int, n: int, ghost h: Heap)
      requires Mirrors(mem.tags, h) && Live(h, tag) && CutReady(h, tag) && n == TailOf(tag, h.blocks[tag])
      requires mem.tags[tag].size == h.blocks[tag].size
      requires heap == Cut(h, tag) && n !in h.blocks && h.blocks[tag].right != tag
      requires 0 !in heap.blocks && forall c | c in heap.blocks :: ClearOf(heap, c)
      modifies this`mem
      ensures Divided(old(mem.tags), mem.tags, h, tag, n)
      ensures forall b | b in h.blocks && b in old(mem.tags) ::
                b in mem.tags && mem.tags[b].size == old(mem.tags)[b].size
      ensures forall p | OffHeaders(heap, p) :: ByteAt(mem.data, p) == ByteAt(old(mem.data), p)
    {
      hide ClearOf;
      var remainder := mem.tags[tag].realSize - TAG_SIZE - mem.tags[tag].size;
      var right := mem.tags[tag].splitRight;
      var uninitialised: int :| 0 <= uninitialised < 0x1_0000_0000;
      assert n in heap.blocks && tag in heap.blocks && (right != 0 ==> right in heap.blocks);
      Store(n, Tag(MAGIC, uninitialised, remainder, -1, tag, right, 0, 0));
      if right != 0 {
        Store(right, mem.tags[right].(splitLeft := n));
      }
      Store(tag, mem.tags[tag].(splitRight := n, realSize := mem.tags[tag].realSize - remainder));
    }

    method SplitTag(tag: int)
      requires Shape() && Live(heap, tag) && 0 <= heap.blocks[tag].size == mem.tags[tag].size
                 && Splits(heap.blocks[tag])
      modifies this`mem, this`heap, freePages
      ensures CutReady(old(heap), tag)
      ensures var n := TailOf(tag, old(heap).blocks[tag]); var c := Cut(old(heap), tag);
              n !in old(heap).blocks && PutReady(c, n) && heap == Put(c, n)
      ensures Shape()
      ensures forall b | b in old(heap).blocks && b in old(mem.tags) ::
                b in mem.tags && mem.tags[b].size == old(mem.tags)[b].size
      ensures forall p | OffHeaders(heap, p) :: ByteAt(mem.data, p) == ByteAt(old(mem.data), p)
    {
      hide Tiled, Listed, Threaded, ClearOf, Linked, Represents, OffHeaders, Divided;
      ghost var h := heap;
      assert Mirrors(mem.tags, h) && TAG_SIZE <= h.blocks[tag].realSize by { TagsMirror(); }
      TiledFacts(h);
      var n := tag + TAG_SIZE + mem.tags[tag].size;
      TailIsClear(h, tag);
      heap := Cut(heap, tag);
      Divide(tag, n, h);
      CutKeepsShape(old(mem.tags), mem.tags, freePages[..], h, tag);
      BucketBounds(heap.blocks[n].realSize - TAG_SIZE);
      ListFacts(heap, 0);
      FewerTagsFewerHeaders(Put(heap, n), heap);
      InsertTag(n, -1);
    }

    lemma TagsMirror()
      requires Shape()
      ensures Mirrors(mem.tags, heap)
      ensures forall a | a in heap.blocks :: TAG_SIZE <= heap.blocks[a].realSize < 0x8000_0000
    {
      TiledFacts(heap);
    }

    /** liballoc_alloc for a payload of size bytes; None is the halted machine. */
    method NewPages(size: nat) returns (r: Option<int>)
      requires Owns() && pmm.Valid() && size <= MAX_REQUEST
      modifies pmm, pmm.buffer
      ensures PoolKept()
      ensures r.None? <==> PhysicalPages.Alloc(old(pmm.View()), PagesFor(size)).None?
      ensures r.Some? ==>
                && RegionIsNew(heap, r.value, PagesFor(size)) && pmm.Valid() && offset <= r.value
                && pmm.View() == PhysicalPages.Alloc(old(pmm.View()), PagesFor(size)).value.pages
                && (r.value - offset) % PAGE_SIZE == 0 && (r.value - offset) / PAGE_SIZE !in old(pmm.live)
                && pmm.live == old(pmm.live)[(r.value - offset) / PAGE_SIZE := PagesFor(size)]
                && RegionsOwned(heap.regions[r.value := PagesFor(size)], offset, pmm.live)
    {
      hide RegionsOwned, RegionIsNew, PhysicalPages.Alloc, PhysicalPages.Owned;
      PagesAreEnough(size);
      var usage := size + TAG_SIZE;
      var pages := usage / 4096;
      if usage % 4096 != 0 {
        pages := pages + 1;
      }
      if pages < MIN_PAGES {
        pages := MIN_PAGES;
      }
      ghost var live := pmm.live;
      var addr := pmm.Alloc(pages);
      if addr.None? {
        return None;
      }
      ghost var page := addr.value / PAGE_SIZE;
      PhysicalPagesProofs.LiveIsApart(pmm.View(), pmm.reserved, pmm.live, page);
      assert forall p | p in live :: p in pmm.live && p != page && pmm.live[p] == live[p];
      NewPagesAreANewRegion(heap, offset, live, page, pages);
      r := Some(addr.value + offset);
    }

    /** None is the halted machine. */
    method AllocateNewTag(size: nat) returns (r: Option<int>)
      requires Shape() && Owns() && pmm.Valid() && Separate() && size <= MAX_REQUEST
      modifies this`mem, this`heap, pmm, pmm.buffer
      ensures Separate() && PoolKept()
      ensures r.None? <==> PhysicalPages.Alloc(old(pmm.View()), PagesFor(size)).None?
      ensures match r
              case None => heap == old(heap)
              case Some(base) =>
                && RegionIsNew(old(heap), base, PagesFor(size)) && heap == AddRegion(old(heap), base, size)
                && base !in old(heap).blocks && base in mem.tags && mem.tags[base].size == size
                && pmm.View() == PhysicalPages.Alloc(old(pmm.View()), PagesFor(size)).value.pages
                && Shape() && Owns() && pmm.Valid() && offset <= base
                && (base - offset) % PAGE_SIZE == 0 && (base - offset) / PAGE_SIZE !in old(pmm.live)
                && pmm.live == old(pmm.live)[(base - offset) / PAGE_SIZE := PagesFor(size)]
                && (forall b | b in old(heap).blocks && b in old(mem.tags) ::
                    b in mem.tags && mem.tags[b].size == old(mem.tags)[b].size)
                && (forall p | OffHeaders(heap, p) :: ByteAt(mem.data, p) == ByteAt(old(mem.data), p))
    {
      hide RegionsOwned, RegionIsNew, Tiled, Listed, Represents, ClearOf;
      r := NewPages(size);
      if r.None? {
        return;
      }
      var base := r.value;
      ghost var h := heap;
      AddRegionTiles(h, base, size);
      heap := AddRegion(h, base, size);
      BlocksAreClear(heap);
      assert base in heap.blocks;
      Store(base, Tag(MAGIC, size, PagesFor(size) * 4096, -1, 0, 0, 0, 0));
      RegionRepresents(old(mem.tags), mem.tags, freePages[..], h, heap);
      AddRegionKeepsLists(h, base, size);
    }

    // -------------------------------------------------------------- malloc

    /** The search loop of malloc over one free list. */
    method FindFit(size: nat, index: int) returns (tag: int)
      requires Shape() && 0 <= index < MAX_EXP
      ensures match FirstFit(heap.blocks, heap.lists[index], size)
              case Some(a) => tag == a && tag != 0
              case None => tag == 0
    {
      hide Tiled, Listed, Linked, Distinct;
      BlocksAreClear(heap);
      ListFacts(heap, index);
      ghost var list := heap.lists[index];
      ghost var j: nat := 0;
      tag := freePages[index];
      while tag != 0
        invariant j <= |list| && tag == Nth(list, j)
        invariant forall i | 0 <= i < j :: list[i] in heap.blocks && !Fits(heap.blocks[list[i]], size)
        decreases |list| - j
      {
        assert list[j] in list;
        if mem.tags[tag].realSize - TAG_SIZE >= size + TAG_SIZE {
          break;
        }
        tag := mem.tags[tag].next;
        j := j + 1;
      }
      assert j < |list| ==> list[j] in list;
      FirstFitAfter(heap.blocks, list, size, j);
    }

    /** The found block leaves its list, and the standby count if it is a whole region. */
    method Withdraw(tag: int, index: int)
      requires Shape() && Counted() && Separate()
      requires IsFree(heap, tag) && index == heap.blocks[tag].index
      modifies this`mem, this`heap, freePages, completePages
      ensures TakeReady(old(heap), tag) && heap == Take(old(heap), tag)
      ensures Shape() && Counted()
      ensures forall b | b in heap.blocks && b in old(mem.tags) ::
                b in mem.tags && mem.tags[b].size == old(mem.tags)[b].size
      ensures forall p | OffHeaders(heap, p) :: ByteAt(mem.data, p) == ByteAt(old(mem.data), p)
    {
      hide Tiled, Listed, Represents, Threaded, ClearOf, Linked, Standby, OffHeaders;
      ghost var h := heap;
      ListFacts(h, 0);
      RemoveTag(tag);
      assert Mirrors(mem.tags, heap) by { TagsMirror(); }
      if mem.tags[tag].splitLeft == 0 && mem.tags[tag].splitRight == 0 {
        completePages[index] := completePages[index] - 1;
      }
      OneFewer(h, tag, index);
    }

    /** One fewer stands by on the block's list if it was a whole region; elsewhere as many. */
    lemma OneFewer(h: Heap, tag: int, index: int)
      requires TakeReady(h, tag) && index == h.blocks[tag].index < MAX_EXP
      ensures forall i | 0 <= i < MAX_EXP ::
                |Standby(Take(h, tag), i)| == |Standby(h, i)| - if i == index && Whole(h.blocks[tag]) then 1 else 0
    {
      forall i | 0 <= i < MAX_EXP {
        StandbyAfterTake(h, tag, i);
      }
    }

    method SetSize(tag: int, size: int)
      requires Shape() && tag in heap.blocks
      modifies this`mem, this`heap
      ensures heap == Resized(old(heap), tag, size) && Shape()
      ensures tag in mem.tags && mem.tags[tag].size == size
      ensures forall b | b in heap.blocks && b in old(mem.tags) && b != tag ::
                b in mem.tags && mem.tags[b].size == old(mem.tags)[b].size
      ensures forall p | OffHeaders(heap, p) :: ByteAt(mem.data, p) == ByteAt(old(mem.data), p)
    {
      hide Tiled, Listed, Represents, Threaded, ClearOf, Linked;
      assert Mirrors(mem.tags, heap) by { TagsMirror(); }
      BlocksAreClear(heap);
      Store(tag, mem.tags[tag].(size := size));
      ResizeKeepsShape(old(mem.tags), mem.tags, freePages[..], heap, tag, size);
      FewerTagsFewerHeaders(Resized(heap, tag, size), heap);
      assert tag in heap.blocks;
      heap := Resized(heap, tag, size);
    }

    /** malloc with a block from a free list, up to the splitting. */
    method ObtainListed(tag: int, index: int, size: nat)
      requires Sound() && IsFree(heap, tag) && index == heap.blocks[tag].index
      requires size <= heap.blocks[tag].realSize - TAG_SIZE
      modifies this`mem, this`heap, freePages, completePages
      ensures TakeReady(old(heap), tag) && heap == Claim(old(heap), tag, size) && Sound()
      ensures forall p | OffHeaders(heap, p) :: ByteAt(mem.data, p) == ByteAt(old(mem.data), p)
    {
      hide Tiled, Listed, Represents, Linked, OffHeaders, Sized, Coalesced, FewStandby, Standby,
           SizesMatch, RegionsOwned, Take, Allocations, PhysicalPages.Owned, SameShape;
      ghost var h := heap;
      ClaimKeepsInv(h, tag, size);
      ClaimedKeys(h, tag, size);
      Withdraw(tag, index);
      forall i | 0 <= i < MAX_EXP {
        ResizedStandby(heap, tag, size, i);
      }
      SetSize(tag, size);
      ClaimAllocates(h, tag, size);
      FewerTagsFewerHeaders(heap, Take(h, tag));
      SizesGrow(old(mem.tags), mem.tags, h, tag, size);
    }

    lemma ClaimedKeys(h: Heap, tag: int, size: nat)
      requires TakeReady(h, tag)
      ensures Take(h, tag).blocks.Keys == Claim(h, tag, size).blocks.Keys == h.blocks.Keys
      ensures Claim(h, tag, size).regions == h.regions
    {
    }

    /** malloc with a region of its own, up to the splitting. */
    method ObtainNew(size: nat) returns (r: Option<int>)
      requires Sound() && size <= MAX_REQUEST
      modifies this`mem, this`heap, pmm, pmm.buffer
      ensures PoolKept()
      ensures r.None? <==> PhysicalPages.Alloc(old(pmm.View()), PagesFor(size)).None?
      ensures r.Some? ==>
                && RegionIsNew(old(heap), r.value, PagesFor(size)) && heap == AddRegion(old(heap), r.value, size)
                && pmm.View() == PhysicalPages.Alloc(old(pmm.View()), PagesFor(size)).value.pages
                && Sound() && offset <= r.value
                && (r.value - offset) % PAGE_SIZE == 0 && (r.value - offset) / PAGE_SIZE !in old(pmm.live)
                && pmm.live == old(pmm.live)[(r.value - offset) / PAGE_SIZE := PagesFor(size)]
                && forall p | OffHeaders(heap, p) :: ByteAt(mem.data, p) == ByteAt(old(mem.data), p)
    {
      hide Tiled, Listed, Represents, Linked, OffHeaders, Sized, Coalesced, FewStandby, Standby,
           SizesMatch, RegionsOwned, RegionIsNew, Allocations, PhysicalPages.Owned, PhysicalPages.Alloc;
      ghost var h := heap;
      r := AllocateNewTag(size);
      if r.None? {
        return;
      }
      var base := r.value;
      AddRegionKeepsInv(h, base, size);
      AddRegionAllocates(h, base, size);
      ghost var before := heap;
      SetSize(base, size);
      assert heap.blocks == before.blocks;
      forall i | 0 <= i < MAX_EXP {
        NewRegionStandby(h, base, size, i);
      }
      SizesGrow(old(mem.tags), mem.tags, h, base, size);
    }

    /** The first half of malloc: a block off the free lists or a new region. */
    method ObtainBlock(size: nat, index: int) returns (r: Option<int>, ghost base: int)
      requires Sound() && size <= MAX_REQUEST && index == Bucket(size)
      modifies this`mem, this`heap, freePages, completePages, pmm, pmm.buffer
      ensures ObtainReady(old(heap), size) && PoolKept()
      ensures r.None? <==> Choice(old(heap), size).None? && PhysicalPages.Alloc(old(pmm.View()), PagesFor(size)).None?
      ensures r.Some? ==>
                && Request(old(heap), size, base) && r.value == Chosen(old(heap), size, base)
                && heap == Obtain(old(heap), size, base) && Sound()
                && PagesLeft(old(heap), size, old(pmm.View())) == Some(pmm.View())
                && Drew(old(heap), size, base, old(pmm.live), pmm.live)
                && forall p | OffHeaders(heap, p) :: ByteAt(mem.data, p) == ByteAt(old(mem.data), p)
    {
      hide Inv, Shape, Counted, SizesKept, Owns, OffHeaders, RegionIsNew, Claim, PhysicalPages.Owned,
           PhysicalPages.Alloc;
      assert Listed(heap) && Inv(heap) by { ShapeIsListed(); }
      ListsCoverRequests(heap, size);
      var tag := FindFit(size, index);
      base := 0;
      if tag == 0 {
        r := ObtainNew(size);
        base := r.GetOr(0);
      } else {
        ChoiceIsFree(heap, size);
        ObtainListed(tag, index, size);
        r := Some(tag);
      }
    }

    lemma ShapeIsListed()
      requires Sound()
      ensures Listed(heap) && Inv(heap) && Shape()
    {
    }

    /** The pages malloc takes over: those of a new region, or none. */
    ghost function LiveAfter(h: Heap, size: nat, base: int, live: map<nat, nat>): map<nat, nat>
      requires Bucket(size) < |h.lists|
    {
      if Choice(h, size).Some? || base < offset then live else live[(base - offset) / PAGE_SIZE := PagesFor(size)]
    }

    /** malloc has taken those pages, and nobody had them. */
    ghost predicate Drew(h: Heap, size: nat, base: int, live: map<nat, nat>, live': map<nat, nat>)
      requires Bucket(size) < |h.lists|
    {
      && live' == LiveAfter(h, size, base, live)
      && (Choice(h, size).None? ==>
            offset <= base && (base - offset) % PAGE_SIZE == 0 && (base - offset) / PAGE_SIZE !in live)
    }

    /** The second half of malloc: give back the tail if it is worth a block.  The source
        computes the remainder modulo 2^32 and reads it back signed, which for sizes below
        2^31 is the remainder itself. */
    method TrimBlock(tag: int, size: nat)
      requires Sound() && Live(heap, tag) && heap.blocks[tag].size == size && RightLive(heap, tag)
      modifies this`mem, this`heap, freePages
      ensures TrimReady(old(heap), tag) && heap == Trim(old(heap), tag) && Sound()
      ensures forall p | OffHeaders(heap, p) :: ByteAt(mem.data, p) == ByteAt(old(mem.data), p)
    {
      hide Tiled, Listed, Represents, Linked, OffHeaders, Sized, Coalesced, FewStandby, Standby,
           RegionsOwned, Allocations, PhysicalPages.Owned, RightLive;
      ghost var h := heap;
      TrimKeepsInv(h, tag);
      TrimAllocatesNothing(h, tag);
      OnlyLiveAreAllocated(h, tag);
      forall i | 0 <= i < MAX_EXP {
        TrimKeepsStandby(h, tag, i);
      }
      assert Mirrors(mem.tags, heap) by { TagsMirror(); }
      TagsMirror();
      assert mem.tags[tag].size == size;
      var remainder := mem.tags[tag].realSize - size - TAG_SIZE * 2;
      if remainder > 0 {
        var childIndex := GetExp(remainder);
        if childIndex >= 0 {
          SplitTag(tag);
          TrimKeepsRegions(h, tag);
          SizesStay(old(mem.tags), mem.tags, h);
        }
      }
    }

    lemma TrimKeepsRegions(h: Heap, a: int)
      requires TrimReady(h, a)
      ensures Trim(h, a).regions == h.regions
    {
    }

    /** What malloc leaves of the page allocator, if there is a block or there are pages. */
    static ghost function PagesLeft(h: Heap, size: nat, s: PhysicalPages.Pages): Option<PhysicalPages.Pages>
      requires Bucket(size) < |h.lists|
    {
      if Choice(h, size).Some? then Some(s)
      else
        match PhysicalPages.Alloc(s, PagesFor(size))
        case None => None
        case Some(a) => Some(a.pages)
    }

    method Malloc(size: nat) returns (r: Option<int>, ghost base: int)
      requires Valid() && size <= MAX_REQUEST
      modifies this`mem, this`heap, this`initialized, freePages, completePages, pmm, pmm.buffer
      ensures PoolKept() && initialized
      ensures r.Some? ==> forall a, q | Held(old(heap), a, q) :: ByteAt(mem.data, q) == ByteAt(old(mem.data), q)
      ensures Bucket(size) < |old(heap).lists|
      ensures r.None? <==> Choice(old(heap), size).None? && PhysicalPages.Alloc(old(pmm.View()), PagesFor(size)).None?
      ensures r.Some? ==> PagesLeft(old(heap), size, old(pmm.View())) == Some(pmm.View())
      ensures r.Some? ==>
                && Malloced(old(heap), heap, size, base, r.value - TAG_SIZE)
                && ServedFrom(old(heap), heap, size, r.value - TAG_SIZE)
                && Request(old(heap), size, base)
                && Drew(old(heap), size, base, old(pmm.live), pmm.live)
                && (forall p | OffHeaders(heap, p) :: ByteAt(mem.data, p) == ByteAt(old(mem.data), p))
                && Valid()
    {
      hide Inv, Shape, Counted, SizesKept, Owns, OffHeaders, RegionIsNew, Obtain, Trim, ServedFrom, PhysicalPages.Owned,
           PhysicalPages.Alloc, Allocations, PagesLeft;
      if !initialized {
        ClearLists();
      }
      BucketBounds(size);
      var index := GetExp(size);
      if index < MIN_EXP {
        index := MIN_EXP;
      }
      r, base := ObtainBlock(size, index);
      if r.None? {
        return;
      }
      var tag := r.value;
      ghost var obtained := heap;
      ObtainKeepsInv(old(heap), size, base);
      TrimKeepsInv(heap, tag);
      TrimBlock(tag, size);
      TrimKeepsKeys(obtained, tag);
      FewerTagsFewerHeaders(heap, obtained);
      MallocAllocates(old(heap), size, base);
      OnlyLiveAreAllocated(old(heap), tag);
      HeldStaysOffHeaders(old(heap), heap, tag, size);
      MallocServes(old(heap), heap, size, base, tag);
      r := Some(tag + TAG_SIZE);
    }

    lemma TrimKeepsKeys(h: Heap, a: int)
      requires TrimReady(h, a)
      ensures h.blocks.Keys <= Trim(h, a).blocks.Keys
    {
    }

    /** The first call of malloc empties the lists and the counters. */
    method ClearLists()
      requires !initialized && Valid()
      modifies this`initialized, freePages, completePages
      ensures initialized && Sound()
    {
      for index := 0 to MAX_EXP
        invariant forall i | 0 <= i < index :: freePages[i] == 0 && completePages[i] == 0
      {
        freePages[index] := 0;
        completePages[index] := 0;
      }
      initialized := true;
      EmptyIsSound();
      assert forall i | 0 <= i < MAX_EXP :: Standby(heap, i) == {};
    }

    // -------------------------------------------------------------- free

    /** What survives while free merges blocks: all but the size field of the tag it holds. */
    ghost predicate Merging(tag: int)
      reads this, freePages, completePages, pmm, pmm.buffer
    {
      Inv(heap) && Shape() && Counted() && Owns() && pmm.Valid() && Separate() && Live(heap, tag)
    }

    /** One turn of the first loop of free: the left neighbour grows and leaves its list. */
    method MeltLeftOnce(tag: int) returns (left: int)
      requires Merging(tag) && IsFree(heap, heap.blocks[tag].left)
      modifies this`mem, this`heap, freePages
      ensures MeltLeftReady(old(heap), tag) && At(heap, left) == HeapModel.MeltLeft(old(heap), tag)
      ensures Merging(left) && !IsFree(heap, heap.blocks[left].left)
      ensures heap.blocks.Keys <= old(heap).blocks.Keys && heap.regions == old(heap).regions
      ensures forall b | b in heap.blocks && b in old(mem.tags) ::
                b in mem.tags && mem.tags[b].size == old(mem.tags)[b].size
      ensures forall p | OffHeaders(old(heap), p) :: ByteAt(mem.data, p) == ByteAt(old(mem.data), p)
    {
      hide Inv, Tiled, Listed, Represents, Linked, OffHeaders, Standby, RegionsOwned, PhysicalPages.Owned, Take, Join;
      ghost var h := heap;
      MeltLeftKeepsInv(h, tag);
      forall i | 0 <= i < MAX_EXP {
        MeltLeftKeepsStandby(h, tag, i);
      }
      MeltLeftKeys(h, tag);
      NoNullBlock();
      left := MeltLeft(tag);
      MeltedKeys(h, left, tag);
      FewerTagsFewerHeaders(h, heap);
      ghost var joined := heap;
      RemoveTag(left);
      assert heap.blocks.Keys == joined.blocks.Keys by { TakenKeys(joined, left); }
      FewerTagsFewerHeaders(joined, heap);
    }

    /** The first loop of free.  Its guard fails after one turn: the new left neighbour of
        a block that was free is not free. */
    method MeltLeftLoop(tag: int) returns (melted: int)
      requires Merging(tag)
      modifies this`mem, this`heap, freePages
      ensures MeltLeftReady(old(heap), tag) && At(heap, melted) == HeapModel.MeltLeft(old(heap), tag)
      ensures Merging(melted) && !IsFree(heap, heap.blocks[melted].left)
      ensures heap.blocks.Keys <= old(heap).blocks.Keys && heap.regions == old(heap).regions
      ensures forall b | b in heap.blocks && b in old(mem.tags) ::
                b in mem.tags && mem.tags[b].size == old(mem.tags)[b].size
      ensures forall p | OffHeaders(old(heap), p) :: ByteAt(mem.data, p) == ByteAt(old(mem.data), p)
    {
      hide Inv, Tiled, Listed, Represents, Linked, OffHeaders, Standby, RegionsOwned, PhysicalPages.Owned, Take,
           Join, Owns, Counted;
      ghost var h, done := heap, false;
      MeltLeftKeepsInv(h, tag);
      melted := tag;
      TagsMirror();
      NoNullBlock();
      while mem.tags[melted].splitLeft != 0 && mem.tags[mem.tags[melted].splitLeft].index >= 0
        invariant Merging(melted) && Mirrors(mem.tags, heap) && LinksExist(heap, melted) && 0 !in heap.blocks
        invariant if done
                  then At(heap, melted) == HeapModel.MeltLeft(h, tag) && !IsFree(heap, heap.blocks[melted].left)
                  else heap == h && melted == tag && mem == old(mem)
        invariant heap.blocks.Keys <= h.blocks.Keys && heap.regions == h.regions
        invariant forall b | b in heap.blocks && b in old(mem.tags) ::
                    b in mem.tags && mem.tags[b].size == old(mem.tags)[b].size
        invariant forall p | OffHeaders(h, p) :: ByteAt(mem.data, p) == ByteAt(old(mem.data), p)
        decreases !done
      {
        melted := MeltLeftOnce(melted);
        done := true;
        TagsMirror();
        NoNullBlock();
      }
    }

    lemma TakenKeys(h: Heap, a: int)
      requires TakeReady(h, a)
      ensures Take(h, a).blocks.Keys == h.blocks.Keys
    {
    }

    ghost predicate LinksExist(h: Heap, a: int) {
      && a in h.blocks
      && (h.blocks[a].left != 0 ==> h.blocks[a].left in h.blocks)
      && (h.blocks[a].right != 0 ==> h.blocks[a].right in h.blocks)
    }

    lemma NoNullBlock()
      requires Shape()
      ensures 0 !in heap.blocks && forall a | a in heap.blocks :: LinksExist(heap, a)
    {
      TiledFacts(heap);
    }

    lemma MeltLeftKeys(h: Heap, a: int)
      requires MeltLeftReady(h, a)
      ensures HeapModel.MeltLeft(h, a).heap.blocks.Keys <= h.blocks.Keys
      ensures HeapModel.MeltLeft(h, a).heap.regions == h.regions
    {
    }

    lemma MeltedKeys(h: Heap, l: int, a: int)
      requires JoinReady(h, l, a)
      ensures Join(h, l, a).blocks.Keys == h.blocks.Keys - {a}
    {
    }

    lemma MeltRightKeys(h: Heap, a: int)
      requires MeltRightReady(h, a)
      ensures HeapModel.MeltRight(h, a).blocks.Keys <= h.blocks.Keys
      ensures HeapModel.MeltRight(h, a).regions == h.regions
    {
    }

    /** One turn of the second loop of free. */
    method MeltRightOnce(tag: int)
      requires Merging(tag) && !IsFree(heap, heap.blocks[tag].left) && IsFree(heap, heap.blocks[tag].right)
      modifies this`mem, this`heap, freePages
      ensures MeltRightReady(old(heap), tag) && heap == HeapModel.MeltRight(old(heap), tag)
      ensures Merging(tag) && NeighboursLive(heap, tag)
      ensures heap.blocks.Keys <= old(heap).blocks.Keys && heap.regions == old(heap).regions
      ensures forall b | b in heap.blocks && b in old(mem.tags) ::
                b in mem.tags && mem.tags[b].size == old(mem.tags)[b].size
      ensures forall p | OffHeaders(old(heap), p) :: ByteAt(mem.data, p) == ByteAt(old(mem.data), p)
    {
      hide Inv, Tiled, Listed, Represents, Linked, OffHeaders, Standby, RegionsOwned, PhysicalPages.Owned, Take,
           Join, NeighboursLive;
      ghost var h := heap;
      MeltRightKeepsInv(h, tag);
      forall i | 0 <= i < MAX_EXP {
        MeltRightKeepsStandby(h, tag, i);
      }
      MeltRightKeys(h, tag);
      AbsorbRight(tag);
    }

    /** The second loop of free, whose guard fails after one turn for the same reason. */
    method MeltRightLoop(tag: int)
      requires Merging(tag) && !IsFree(heap, heap.blocks[tag].left)
      modifies this`mem, this`heap, freePages
      ensures MeltRightReady(old(heap), tag) && heap == HeapModel.MeltRight(old(heap), tag)
      ensures Merging(tag) && NeighboursLive(heap, tag)
      ensures heap.blocks.Keys <= old(heap).blocks.Keys && heap.regions == old(heap).regions
      ensures forall b | b in heap.blocks && b in old(mem.tags) ::
                b in mem.tags && mem.tags[b].size == old(mem.tags)[b].size
      ensures forall p | OffHeaders(old(heap), p) :: ByteAt(mem.data, p) == ByteAt(old(mem.data), p)
    {
      hide Inv, Tiled, Listed, Represents, Linked, OffHeaders, Standby, RegionsOwned, PhysicalPages.Owned, Take,
           Join, Owns, Counted;
      ghost var h, done := heap, false;
      MeltRightKeepsInv(h, tag);
      TagsMirror();
      NoNullBlock();
      while mem.tags[tag].splitRight != 0 && mem.tags[mem.tags[tag].splitRight].index >= 0
        invariant Merging(tag) && Mirrors(mem.tags, heap) && LinksExist(heap, tag) && 0 !in heap.blocks
        invariant if done
                  then heap == HeapModel.MeltRight(h, tag) && NeighboursLive(heap, tag)
                  else heap == h && mem == old(mem)
        invariant heap.blocks.Keys <= h.blocks.Keys && heap.regions == h.regions
        invariant forall b | b in heap.blocks && b in old(mem.tags) ::
                    b in mem.tags && mem.tags[b].size == old(mem.tags)[b].size
        invariant forall p | OffHeaders(h, p) :: ByteAt(mem.data, p) == ByteAt(old(mem.data), p)
        decreases !done
      {
        MeltRightOnce(tag);
        done := true;
        TagsMirror();
        NoNullBlock();
      }
    }

    /** liballoc_free of a whole region. */
    method ReturnRegion(tag: int)
      requires Merging(tag) && PutReady(heap, tag) && Returns(heap, tag)
      modifies this`heap, pmm, pmm.buffer
      ensures heap == DropRegion(old(heap), tag)
      ensures Shape() && Counted() && Owns() && pmm.Valid() && Separate() && PoolKept()
      ensures offset <= tag && pmm.live == old(pmm.live) - {(tag - offset) / PAGE_SIZE}
    {
      hide Tiled, Listed, Sized, Coalesced, FewStandby, Represents, Linked, Standby, PhysicalPages.Owned;
      ghost var h := heap;
      SettleReturnsExactly(h, tag);
      DropRegionTiles(h, tag);
      SameIndicesKeepLists(h, DropRegion(h, tag));
      forall i | 0 <= i < MAX_EXP {
        DroppedStandby(h, tag, i);
      }
      assert Mirrors(mem.tags, heap) by { TagsMirror(); }
      var pages := mem.tags[tag].realSize / 4096;
      if mem.tags[tag].realSize % 4096 != 0 {
        pages := pages + 1;
      }
      if pages < MIN_PAGES {
        pages := MIN_PAGES;
      }
      RegionRepresents(mem.tags, mem.tags, freePages[..], h, DropRegion(h, tag));
      pmm.Free(tag - offset, pages);
      heap := DropRegion(h, tag);
    }

    lemma DroppedStandby(h: Heap, tag: int, i: int)
      requires Live(h, tag) && 0 <= i
      ensures Standby(DropRegion(h, tag), i) == Standby(h, i)
    {
    }

    /** Where the merged block goes: back to the page allocator or onto its list. */
    method SettleBlock(tag: int)
      requires Merging(tag) && NeighboursLive(heap, tag)
      modifies this`mem, this`heap, freePages, completePages, pmm, pmm.buffer
      ensures PutReady(old(heap), tag) && heap == Settle(old(heap), tag)
      ensures Settled(old(heap), heap, tag)
      ensures Shape() && Counted() && Owns() && pmm.Valid() && Separate() && PoolKept()
      ensures pmm.live == if Returns(old(heap), tag) && offset <= tag
                          then old(pmm.live) - {(tag - offset) / PAGE_SIZE} else old(pmm.live)
      ensures forall b | b in heap.blocks && b in old(mem.tags) ::
                b in mem.tags && mem.tags[b].size == old(mem.tags)[b].size
      ensures forall p | OffHeaders(old(heap), p) :: ByteAt(mem.data, p) == ByteAt(old(mem.data), p)
    {
      hide Inv, Tiled, Listed, Represents, Linked, OffHeaders, Standby, RegionsOwned, PhysicalPages.Owned, Put;
      hide Settled;
      TagsMirror();
      BucketBounds(heap.blocks[tag].realSize - TAG_SIZE);
      ShapeCoversLists();
      SettleSettles(heap, tag);
      ghost var h := heap;
      var index := GetExp(mem.tags[tag].realSize - TAG_SIZE);
      if index < MIN_EXP {
        index := MIN_EXP;
      }
      if mem.tags[tag].splitLeft == 0 && mem.tags[tag].splitRight == 0 {
        if completePages[index] == MAX_COMPLETE {
          ReturnRegion(tag);
          return;
        }
        completePages[index] := completePages[index] + 1;
      }
      OneMore(h, tag);
      SettledKeys(h, tag);
      FewerTagsFewerHeaders(h, Put(h, tag));
      InsertTag(tag, index);
    }

    /** One more stands by on the block's list if it is a whole region; elsewhere as many. */
    lemma OneMore(h: Heap, tag: int)
      requires PutReady(h, tag) && Live(h, tag) && Bucket(h.blocks[tag].realSize - TAG_SIZE) < MAX_EXP
      ensures forall i | 0 <= i < MAX_EXP ::
                |Standby(Put(h, tag), i)| == |Standby(h, i)|
                  + if i == Bucket(h.blocks[tag].realSize - TAG_SIZE) && Whole(h.blocks[tag]) then 1 else 0
    {
      forall i | 0 <= i < MAX_EXP {
        StandbyAfterPut(h, tag, i);
      }
    }

    lemma ShapeCoversLists()
      requires Shape()
      ensures |heap.lists| == MAX_EXP
    {
    }

    lemma SettledKeys(h: Heap, a: int)
      requires PutReady(h, a)
      ensures Put(h, a).blocks.Keys == h.blocks.Keys && Put(h, a).regions == h.regions
    {
    }

    /** The pages free gives back: those of a whole region too many, or none. */
    ghost function LiveAfterFree(h: Heap, a: int, live: map<nat, nat>): map<nat, nat>
      requires FreeReady(h, a)
    {
      var m := Merge(h, a);
      if Returns(m.heap, m.tag) && offset <= m.tag then live - {(m.tag - offset) / PAGE_SIZE} else live
    }

    /** The block is free again, and its region's pages if the whole region is one too many. */
    ghost predicate Released(h: Heap, h': Heap, tag: int, live: map<nat, nat>, live': map<nat, nat>) {
      Freed(h, h', tag) && live' == LiveAfterFree(h, tag, live)
    }

    /** realloc has put the block elsewhere, taken the pages of the new place and given back
        those of the old. */
    ghost predicate Exchanged(h: Heap, h': Heap, size: nat, base: int, tag: int, answer: int,
                              live: map<nat, nat>, live': map<nat, nat>)
    {
      && Reallocated(h, h', size, base, tag, answer)
      && Bucket(size) < |h.lists| && Drew(h, size, base, live, LiveAfter(h, size, base, live))
      && live' == LiveAfterFree(HeapModel.Malloc(h, size, base), tag, LiveAfter(h, size, base, live))
    }

    lemma MallocThenFree(h: Heap, m: Heap, h': Heap, size: nat, base: int, tag: int, answer: int,
                         live: map<nat, nat>, live1: map<nat, nat>, live2: map<nat, nat>)
      requires Malloced(h, m, size, base, answer) && Released(m, h', tag, live1, live2)
      requires Bucket(size) < |h.lists| && Drew(h, size, base, live, live1)
      ensures Exchanged(h, h', size, base, tag, answer, live, live2)
    {
      hide MallocReady, FreeReady, HeapModel.Malloc, HeapModel.Free, Chosen, Choice;
    }

    /** free is for null, for live blocks, and for anything that the magic number does not
        precede. */
    ghost predicate MayFree(ptr: int)
      reads this
    {
      ptr == 0 || (Number(mem.data, ptr - TAG_SIZE, 4) == MAGIC ==> initialized && Live(heap, ptr - TAG_SIZE))
    }

    method Free(ptr: int)
      requires MayFree(ptr) && Valid()
      modifies this`mem, this`heap, freePages, completePages, pmm, pmm.buffer
      ensures PoolKept()
      ensures if ptr == 0 || Number(old(mem.data), ptr - TAG_SIZE, 4) != MAGIC
              then heap == old(heap) && mem == old(mem) && pmm.live == old(pmm.live)
              else && Released(old(heap), heap, ptr - TAG_SIZE, old(pmm.live), pmm.live)
                   && KeptOrReturned(old(heap), heap, ptr - TAG_SIZE)
      ensures forall p | OffHeaders(old(heap), p) :: ByteAt(mem.data, p) == ByteAt(old(mem.data), p)
      ensures forall a, q | Held(old(heap), a, q) :: ByteAt(mem.data, q) == ByteAt(old(mem.data), q)
      ensures Valid()
    {
      hide Inv, Shape, Counted, Owns, OffHeaders, PhysicalPages.Owned, HeapModel.MeltLeft, HeapModel.MeltRight,
           Settle, Returns, NeighboursLive, Allocations, SizesMatch, KeptOrReturned;
      if ptr == 0 {
        return;
      }
      var tag := ptr - TAG_SIZE;
      if Number(mem.data, tag, 4) != MAGIC {
        return;
      }
      ghost var h := heap;
      FreeKeepsInv(h, tag);
      FreeReleases(h, tag);
      HeldOffHeaders(h);
      var melted := MeltLeftLoop(tag);
      ghost var h1 := heap;
      MeltRightLoop(melted);
      ghost var h2 := heap;
      FewerTagsFewerHeaders(h, h1);
      FewerTagsFewerHeaders(h, h2);
      SettleBlock(melted);
      SettleKeys(h2, melted);
      FreeKeepsOrReturns(h, heap, tag);
      SizesShrink(old(mem.tags), mem.tags, h, heap, tag);
    }

    lemma SettleKeys(h: Heap, a: int)
      requires PutReady(h, a)
      ensures Settle(h, a).blocks.Keys <= h.blocks.Keys
    {
    }

    // -------------------------------------------------------------- realloc

    /** *(dest) = *(dest + gap) for len bytes at once; a tag under the bytes written is gone. */
    method CopyUnit(dest: int, gap: int, len: nat)
      modifies this`mem
      ensures Shifted(old(mem.data), mem.data, dest, gap, len)
      ensures mem.tags == Spared(old(mem.tags), dest, dest + len)
    {
      mem := Copied(mem, dest, gap, len);
    }

    /** liballoc_memcpy: whole words first, then the odd bytes. */
    method MemCopy(s1: int, s2: int, length: nat)
      requires Apart(s1, s1 + length, s2, s2 + length)
      modifies this`mem
      ensures Shifted(old(mem.data), mem.data, s1, s2 - s1, length)
      ensures forall b | b in old(mem.tags) && (b + TAG_SIZE <= s1 || s1 + length <= b) ::
                b in mem.tags && mem.tags[b] == old(mem.tags)[b]
    {
      hide Shifted;
      var n := length;
      var ldest, lsrc := s1, s2;
      NothingShifted(mem.data, s1, s2 - s1);
      while n >= 4
        invariant 0 <= n <= length && ldest == s1 + (length - n) && lsrc == s2 + (length - n)
        invariant Shifted(old(mem.data), mem.data, s1, s2 - s1, length - n)
        invariant forall b | b in old(mem.tags) && (b + TAG_SIZE <= s1 || s1 + length <= b) ::
                    b in mem.tags && mem.tags[b] == old(mem.tags)[b]
      {
        ghost var before := mem.data;
        CopyUnit(ldest, lsrc - ldest, 4);
        ShiftMore(old(mem.data), before, mem.data, s1, s2 - s1, length, length - n, 4);
        ldest, lsrc, n := ldest + 4, lsrc + 4, n - 4;
      }
      while n > 0
        invariant 0 <= n <= length && ldest == s1 + (length - n) && lsrc == s2 + (length - n)
        invariant Shifted(old(mem.data), mem.data, s1, s2 - s1, length - n)
        invariant forall b | b in old(mem.tags) && (b + TAG_SIZE <= s1 || s1 + length <= b) ::
                    b in mem.tags && mem.tags[b] == old(mem.tags)[b]
      {
        ghost var before := mem.data;
        CopyUnit(ldest, lsrc - ldest, 1);
        ShiftMore(old(mem.data), before, mem.data, s1, s2 - s1, length, length - n, 1);
        ldest, lsrc, n := ldest + 1, lsrc + 1, n - 1;
      }
    }

    /** A copy into the payload of a live block disturbs no tag. */
    method CopyPayload(dest: int, src: int, length: nat, ghost a: int)
      requires Sound() && Live(heap, a) && InPayload(heap, a, dest, dest + length)
      requires Apart(dest, dest + length, src, src + length)
      modifies this`mem
      ensures Sound()
      ensures forall b | b in heap.blocks && b in old(mem.tags) :: b in mem.tags && mem.tags[b] == old(mem.tags)[b]
      ensures Shifted(old(mem.data), mem.data, dest, src - dest, length)
    {
      hide Tiled, Listed, Represents, Sized, Coalesced, FewStandby, RegionsOwned, Standby, PhysicalPages.Owned;
      PayloadIsOffHeaders(heap, a, dest, dest + length);
      MemCopy(dest, src, length);
      SameTagsRepresent(old(mem.tags), mem.tags, freePages[..], heap);
      assert Mirrors(old(mem.tags), heap) by { RepresentsMirrors(old(mem.tags), freePages[..], heap); }
      SizesStay(old(mem.tags), mem.tags, heap);
    }

    lemma RepresentsMirrors(tags: map<int, Tag>, heads: seq<int>, h: Heap)
      requires Represents(tags, heads, h)
      ensures Mirrors(tags, h)
    {
    }

    /** The moving half of realloc: a new block, a copy of what fits, and the old block freed. */
    method MoveBlock(p: int, size: nat) returns (r: Option<int>, ghost base: int)
      requires Live(heap, p - TAG_SIZE) && size <= MAX_REQUEST && initialized && Valid()
      modifies this`mem, this`heap, this`initialized, freePages, completePages, pmm, pmm.buffer
      ensures PoolKept()
      ensures Bucket(size) < |old(heap).lists|
      ensures r.None? <==> Choice(old(heap), size).None? && PhysicalPages.Alloc(old(pmm.View()), PagesFor(size)).None?
      ensures r.Some? ==>
                && Exchanged(old(heap), heap, size, base, p - TAG_SIZE, r.value - TAG_SIZE, old(pmm.live), pmm.live)
                && Moved(old(heap), old(mem.data), mem.data, p, r.value, size)
                && Request(old(heap), size, base) && initialized && Valid()
    {
      hide Inv, Shape, Counted, Owns, OffHeaders, Request, MallocReady, FreeReady, Chosen, HeapModel.Malloc,
           HeapModel.Free, Moved, Allocations,
           PhysicalPages.Owned, PhysicalPages.Alloc, Shifted, Choice, LiveAfter,
           LiveAfterFree, Released, Drew, Exchanged, Held, ByteAt, Number;
      ghost var h := heap;
      var tag := p - TAG_SIZE;
      OnlyLiveAreAllocated(h, tag);
      var kept := mem.tags[tag].size;
      if kept > size {
        kept := size;
      }
      r, base := Malloc(size);
      if r.None? {
        return;
      }
      ghost var m, data1, answer := heap, mem.data, Chosen(h, size, base);
      ReallocIsServed(h, tag, size, base);
      MallocAllocates(h, size, base);
      OnlyLiveAreAllocated(h, answer);
      AnswerHasRoom(h, m, tag, answer, size);
      CopyPayload(r.value, p, kept, answer);
      ghost var data2, live1 := mem.data, pmm.live;
      TagsOfBlocks(tag);
      Free(p);
      MallocThenFree(h, m, heap, size, base, tag, answer, old(pmm.live), live1, pmm.live);
      BytesMoved(h, m, tag, answer, size, kept, old(mem.data), data1, data2, mem.data);
      MovedMeans(h, old(mem.data), mem.data, tag, answer, size, kept);
    }

    lemma TagsOfBlocks(tag: int)
      requires Sound() && tag in heap.blocks
      ensures 0 < tag && tag in mem.tags && Number(mem.data, tag, 4) == MAGIC
    {
      hide Linked, Number;
      TiledFacts(heap);
      RepresentsMirrors(mem.tags, freePages[..], heap);
      MagicReadsBack(mem, tag);
    }

    method Realloc(p: int, size: nat) returns (r: Option<int>, ghost base: int)
      requires p == 0 || (initialized && Live(heap, p - TAG_SIZE))
      requires size <= MAX_REQUEST && Valid()
      modifies this`mem, this`heap, this`initialized, freePages, completePages, pmm, pmm.buffer
      ensures PoolKept()
      ensures size == 0 && p == 0 ==>
                r == Some(0) && heap == old(heap) && mem == old(mem) && pmm.live == old(pmm.live)
      ensures size == 0 && p != 0 ==>
                && r == Some(0) && Released(old(heap), heap, p - TAG_SIZE, old(pmm.live), pmm.live)
                && forall q | OffHeaders(old(heap), q) :: ByteAt(mem.data, q) == ByteAt(old(mem.data), q)
      ensures size > 0 && p == 0 && r.Some? ==>
                && Bucket(size) < |old(heap).lists| && Drew(old(heap), size, base, old(pmm.live), pmm.live)
                && Malloced(old(heap), heap, size, base, r.value - TAG_SIZE)
                && forall q | OffHeaders(heap, q) :: ByteAt(mem.data, q) == ByteAt(old(mem.data), q)
      ensures size > 0 && p != 0 && r.Some? ==>
                && Exchanged(old(heap), heap, size, base, p - TAG_SIZE, r.value - TAG_SIZE, old(pmm.live), pmm.live)
                && Moved(old(heap), old(mem.data), mem.data, p, r.value, size)
      ensures size > 0 && r.Some? ==> Request(old(heap), size, base)
      ensures size > 0 ==>
                && Bucket(size) < |old(heap).lists|
                && (r.None? <==> Choice(old(heap), size).None?
                                 && PhysicalPages.Alloc(old(pmm.View()), PagesFor(size)).None?)
      ensures r.Some? ==> Valid()
    {
      hide Inv, Shape, Counted, Owns, SizesKept, OffHeaders, Request, MallocReady, FreeReady, Chosen,
           HeapModel.Malloc, HeapModel.Free, Moved, PhysicalPages.Alloc, Drew, Exchanged, Released;
      base := 0;
      if size == 0 {
        if p != 0 {
          TagsOfBlocks(p - TAG_SIZE);
        }
        Free(p);
        return Some(0), 0;
      }
      if p == 0 {
        r, base := Malloc(size);
        return;
      }
      r, base := MoveBlock(p, size);
    }
  }

  // ---------------------------------------------------------------- other owners

  /** The first pages of the heap's regions. */
  ghost function FirstPages(regions: map<int, int>, offset: nat): set<int> {
    set b | b in regions :: (b - offset) / PAGE_SIZE
  }

  /** The page allocations that are not the heap's. */
  ghost function Others(h: Heap, offset: nat, live: map<nat, nat>): map<nat, nat> {
    map p | p in live && p !in FirstPages(h.regions, offset) :: live[p]
  }

  /** malloc leaves the page allocations of all others alone .. */
  lemma MallocLeavesOthers(a: Liballoc, h: Heap, h': Heap, size: nat, base: int, tag: int,
                           live: map<nat, nat>, live': map<nat, nat>)
    requires Request(h, size, base) && Malloced(h, h', size, base, tag) && Bucket(size) < |h.lists|
    requires a.Drew(h, size, base, live, live') && RegionsOwned(h.regions, a.offset, live)
    ensures Others(h', a.offset, live') == Others(h, a.offset, live) && RegionsOwned(h'.regions, a.offset, live')
  {
    hide Inv, HeapModel.Malloc, Choice;
    MallocObtainsExactly(h, size, base);
    if Choice(h, size).None? {
      var page := (base - a.offset) / PAGE_SIZE;
      assert base == page * PAGE_SIZE + a.offset;
      OneMoreRegion(h.regions, a.offset, base, PagesFor(size));
    }
  }

  lemma OneMoreRegion(regions: map<int, int>, offset: nat, base: int, pages: int)
    ensures FirstPages(regions[base := pages], offset) == FirstPages(regions, offset) + {(base - offset) / PAGE_SIZE}
  {
    var more := regions[base := pages];
    assert base in more;
    assert forall b | b in regions :: b in more;
    forall p | p in FirstPages(regions, offset) + {(base - offset) / PAGE_SIZE} ensures p in FirstPages(more, offset) {
      if p != (base - offset) / PAGE_SIZE {
        var b :| b in regions && (b - offset) / PAGE_SIZE == p;
        assert b in more;
      }
    }
  }

  lemma OneFewerRegion(regions: map<int, int>, offset: nat, live: map<nat, nat>, base: int)
    requires RegionsOwned(regions, offset, live) && base in regions
    ensures FirstPages(regions - {base}, offset) == FirstPages(regions, offset) - {(base - offset) / PAGE_SIZE}
    ensures RegionsOwned(regions - {base}, offset, live - {(base - offset) / PAGE_SIZE})
  {
    var less := regions - {base};
    forall b | b in less ensures (b - offset) / PAGE_SIZE != (base - offset) / PAGE_SIZE {
      assert b == (b - offset) / PAGE_SIZE * PAGE_SIZE + offset;
      assert base == (base - offset) / PAGE_SIZE * PAGE_SIZE + offset;
    }
    forall p | p in FirstPages(regions, offset) && p != (base - offset) / PAGE_SIZE
      ensures p in FirstPages(less, offset)
    {
      var b :| b in regions && (b - offset) / PAGE_SIZE == p;
      assert b in less;
    }
  }

  /** .. and so does free: it gives back pages of the heap's own, and keeps none of them. */
  lemma FreeLeavesOthers(a: Liballoc, h: Heap, h': Heap, tag: int, live: map<nat, nat>, live': map<nat, nat>)
    requires Inv(h) && Live(h, tag) && a.Released(h, h', tag, live, live') && RegionsOwned(h.regions, a.offset, live)
    ensures Others(h', a.offset, live') == Others(h, a.offset, live) && RegionsOwned(h'.regions, a.offset, live')
  {
    hide Inv, HeapModel.Free, Merge, Returns;
    FreeReturnsExactly(h, tag);
    var m := Merge(h, tag);
    if Returns(m.heap, m.tag) {
      OneFewerRegion(h.regions, a.offset, live, m.tag);
    }
  }

  /** .. and realloc, which is the one and then the other. */
  lemma ReallocLeavesOthers(a: Liballoc, h: Heap, h': Heap, size: nat, base: int, tag: int, answer: int,
                            live: map<nat, nat>, live': map<nat, nat>)
    requires Request(h, size, base) && Live(h, tag) && RegionsOwned(h.regions, a.offset, live)
    requires a.Exchanged(h, h', size, base, tag, answer, live, live')
    ensures Others(h', a.offset, live') == Others(h, a.offset, live) && RegionsOwned(h'.regions, a.offset, live')
  {
    hide Inv, HeapModel.Free, HeapModel.Malloc, Merge, Others, Choice;
    var m, live1 := HeapModel.Malloc(h, size, base), a.LiveAfter(h, size, base, live);
    ReallocIsServed(h, tag, size, base);
    MallocLeavesOthers(a, h, m, size, base, answer, live, live1);
    FreeLeavesOthers(a, m, h', tag, live1, live');
  }

  /** What a realloc from p to ptr does to the bytes held by others, and to its own. */
  ghost predicate Moved(h: Heap, data: map<int, byte>, data': map<int, byte>, p: int, ptr: int, size: nat)
    requires Live(h, p - TAG_SIZE)
  {
    var kept := if h.blocks[p - TAG_SIZE].size > size then size else h.blocks[p - TAG_SIZE].size;
    && (forall a, q | Held(h, a, q) && a != p - TAG_SIZE :: ByteAt(data', q) == ByteAt(data, q))
    && (forall q | ptr <= q < ptr + kept :: ByteAt(data', q) == ByteAt(data, q + (p - ptr)))
  }

  lemma MovedMeans(h: Heap, data: map<int, byte>, data': map<int, byte>, tag: int, answer: int, size: nat, kept: int)
    requires Live(h, tag) && kept == (if h.blocks[tag].size > size then size else h.blocks[tag].size)
    requires forall a, q | Held(h, a, q) && a != tag :: ByteAt(data', q) == ByteAt(data, q)
    requires forall q | answer + TAG_SIZE <= q < answer + TAG_SIZE + kept ::
               ByteAt(data', q) == ByteAt(data, q + (tag - answer))
    ensures Moved(h, data, data', tag + TAG_SIZE, answer + TAG_SIZE, size)
  {
    hide ByteAt, Held;
  }

  /** The new block has room for all it was asked for and lies off the old one. */
  lemma AnswerHasRoom(h: Heap, m: Heap, tag: int, answer: int, size: nat)
    requires Inv(m) && Live(h, tag) && tag != answer && Live(m, tag)
    requires Allocations(m) == Allocations(h)[answer := size]
    ensures Live(m, answer) && m.blocks[answer].size == size && m.blocks[tag].size == h.blocks[tag].size >= 0
    ensures InPayload(m, answer, answer + TAG_SIZE, answer + TAG_SIZE + size)
    ensures Apart(answer + TAG_SIZE, answer + TAG_SIZE + size, tag + TAG_SIZE, tag + TAG_SIZE + m.blocks[tag].size)
  {
    hide Tiled, Listed, Coalesced, FewStandby, Allocations;
    OnlyLiveAreAllocated(m, answer);
    OnlyLiveAreAllocated(m, tag);
    OnlyLiveAreAllocated(h, tag);
    PayloadsAndHeadersAreApart(m, answer, tag);
  }

  /** Through malloc, the copy and free: what is held stays, what moved arrives. */
  lemma BytesMoved(h: Heap, m: Heap, tag: int, answer: int, size: nat, kept: nat,
                   data0: map<int, byte>, data1: map<int, byte>, data2: map<int, byte>, data3: map<int, byte>)
    requires Live(h, tag) && tag != answer && !Live(h, answer) && Live(m, tag)
    requires kept == (if h.blocks[tag].size > size then size else h.blocks[tag].size)
    requires Shifted(data1, data2, answer + TAG_SIZE, tag - answer, kept)
    requires Allocations(m) == Allocations(h)[answer := size]
    requires forall q | OffHeaders(m, q) :: ByteAt(data1, q) == ByteAt(data0, q)
    requires forall q | OffHeaders(m, q) :: ByteAt(data3, q) == ByteAt(data2, q)
    requires Inv(m)
    ensures forall a, q | Held(h, a, q) && a != tag :: ByteAt(data3, q) == ByteAt(data0, q)
    ensures forall q | answer + TAG_SIZE <= q < answer + TAG_SIZE + kept ::
              ByteAt(data3, q) == ByteAt(data0, q + (tag - answer))
  {
    hide Inv, OffHeaders, ByteAt, Allocations;
    AnswerHasRoom(h, m, tag, answer, size);
    HeldOffHeaders(m);
    forall a, q | Held(h, a, q) && a != tag ensures ByteAt(data3, q) == ByteAt(data0, q) {
      OnlyLiveAreAllocated(h, a);
      OnlyLiveAreAllocated(m, a);
      assert Held(m, a, q);
      PayloadsAndHeadersAreApart(m, answer, a);
    }
    forall q | answer + TAG_SIZE <= q < answer + TAG_SIZE + kept
      ensures ByteAt(data3, q) == ByteAt(data0, q + (tag - answer))
    {
      assert Held(m, answer, q) && Held(m, tag, q + (tag - answer));
    }
  }

  lemma HeldOffHeaders(h: Heap)
    requires Inv(h)
    ensures forall a, q | Held(h, a, q) :: OffHeaders(h, q)
  {
    hide Tiled, Listed, Sized, Coalesced, FewStandby, OffHeaders;
    HeldBytesAreOffHeaders(h);
  }

  /** Bytes held before malloc are still held, so they are in no tag it wrote. */
  lemma HeldStaysOffHeaders(h: Heap, m: Heap, answer: int, size: nat)
    requires Allocations(m) == Allocations(h)[answer := size] && !Live(h, answer)
    requires Inv(m)
    ensures forall a, q | Held(h, a, q) :: OffHeaders(m, q)
  {
    hide Inv, OffHeaders, Allocations;
    HeldOffHeaders(m);
    forall a, q | Held(h, a, q) ensures OffHeaders(m, q) {
      OnlyLiveAreAllocated(h, a);
      OnlyLiveAreAllocated(m, a);
      assert Held(m, a, q);
    }
  }
}
