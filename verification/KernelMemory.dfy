/** The kernel heap and the page tables on the one page allocator they share: neither gets
    the other's pages, and neither's operations disturb the other. */
module KernelMemory {
  import opened Machine
  import opened HeapModel
  import opened HeapOperations
  import opened HeapTheorems
  import opened TagMemory
  import opened HeapSteps
  import opened HeapNumbers
  import opened PageTables
  import opened TablePaths
  import opened Windows
  import opened PhysicalMemory
  import PhysicalPages
  import PhysicalPagesProofs
  import opened KernelHeap
  import opened VirtualMemory
  import opened ThreadStart

  ghost predicate Together(heap: Liballoc, spaces: AddressSpaces)
    reads heap, heap.freePages, heap.completePages, heap.pmm, heap.pmm.buffer, spaces, spaces.pmm, spaces.pmm.buffer
  {
    heap.pmm == spaces.pmm && heap.Valid() && spaces.Valid()
  }

  /** No table lies in a region of the heap. */
  lemma TablesAreOffTheHeap(heap: Liballoc, spaces: AddressSpaces, f: nat, base: int)
    requires Together(heap, spaces) && f in spaces.tree && base in heap.heap.regions
    ensures f + PAGE_SIZE <= base - heap.offset || End(heap.heap, base) - heap.offset <= f
  {
    hide Listed, Sized, Coalesced, FewStandby, PhysicalPages.Owned;
    var live := heap.pmm.live;
    assert heap.Owns() && Tiled(heap.heap) by { InitializedIsSound(heap, base); }
    var p, q := f / PAGE_SIZE, (base - heap.offset) / PAGE_SIZE;
    assert live[p] == 1 && live[q] == heap.heap.regions[base] >= MIN_PAGES;
    PhysicalPagesProofs.LiveIsApart(heap.pmm.View(), heap.pmm.reserved, live, q);
    assert f % PAGE_SIZE == 0 by { assert TableOk(spaces.frames, spaces.tree, f); }
  }

  lemma InitializedIsSound(heap: Liballoc, base: int)
    requires heap.Valid() && base in heap.heap.regions
    ensures heap.initialized && heap.Sound() && Inv(heap.heap)
  {
  }

  // ---------------------------------------------------------------- the heap's side

  lemma HeapKeepsPool(heap: Liballoc)
    requires heap.Valid()
    ensures heap.pmm.Valid()
  {
  }

  /** Whatever else changed hands, the tables are still one-page allocations. */
  twostate lemma TablesStay(spaces: AddressSpaces)
    requires old(spaces.Valid()) && unchanged(spaces)
    requires spaces.pmm.Valid() && spaces.pmm.highestAddr == old(spaces.pmm.highestAddr)
    requires forall f | f in spaces.tree :: f / PAGE_SIZE in spaces.pmm.live && spaces.pmm.live[f / PAGE_SIZE] == 1
    ensures spaces.Valid()
  {
  }

  lemma DrewOutlives(heap: Liballoc, h: Heap, size: nat, base: int, live: map<nat, nat>, live': map<nat, nat>)
    requires Bucket(size) < |h.lists| && heap.Drew(h, size, base, live, live')
    ensures Outlives(live, live')
  {
  }

  /** The pages free gives back were a region's, so no table's. */
  lemma ReleaseSpares(heap: Liballoc, h: Heap, h': Heap, tag: int, live: map<nat, nat>, live': map<nat, nat>, p: nat)
    requires Inv(h) && Live(h, tag) && heap.Released(h, h', tag, live, live')
    requires RegionsOwned(h.regions, heap.offset, live) && p in live && live[p] == 1
    ensures p in live' && live'[p] == 1
  {
    hide Inv, HeapModel.Free, Merge;
    FreeReturnsExactly(h, tag);
    RegionsAreBig(h);
  }

  lemma RegionsAreBig(h: Heap)
    requires Inv(h)
    ensures forall b | b in h.regions :: MIN_PAGES <= h.regions[b]
  {
  }

  /** The page allocations that are not the heap's: tables, stacks and whatever else. */
  ghost function OthersPages(heap: Liballoc): map<nat, nat>
    reads heap, heap.pmm
  {
    Others(heap.heap, heap.offset, heap.pmm.live)
  }

  lemma ListsAreEnough(heap: Liballoc, size: nat)
    requires heap.Valid() && size <= MAX_REQUEST
    ensures heap.pmm.Valid() && Bucket(size) < |heap.heap.lists|
  {
    EmptyIsSound();
    ListsCoverRequests(heap.heap, size);
  }

  lemma RegionsAreOwned(heap: Liballoc)
    requires heap.Valid()
    ensures RegionsOwned(heap.heap.regions, heap.offset, heap.pmm.live)
  {
  }

  /** What malloc leaves of the page allocator; None where no block has room for size bytes
      and there are not the pages for them. */
  ghost function AfterMalloc(heap: Liballoc, size: nat): Option<PhysicalPages.Pages>
    reads heap, heap.pmm, heap.pmm.buffer
  {
    if Bucket(size) < |heap.heap.lists| then Liballoc.PagesLeft(heap.heap, size, heap.pmm.View()) else None
  }

  /** The page allocator has not the pages for a thread's stack, or not those for its tables. */
  ghost predicate SpaceWanting(s: PhysicalPages.Pages, kernel: Window, offset: nat, screen: Window, kstack: nat) {
    var taken := PhysicalPages.Alloc(s, 65536);
    || taken.None?
    || InARow(taken.value.pages,
              1 + |FiveWays(kernel, screen, Stack(0), Direct(offset), KernelStack(kstack))|).None?
  }

  /** malloc leaves every address space, and every page that is not the heap's, as it is. */
  method Malloc(heap: Liballoc, spaces: AddressSpaces, size: nat) returns (r: Option<int>, ghost base: int)
    requires size <= MAX_REQUEST && Together(heap, spaces)
    modifies heap, heap.freePages, heap.completePages, heap.pmm, heap.pmm.buffer
    ensures heap.pmm.buffer == old(heap.pmm.buffer)
    ensures r.None? <==> old(AfterMalloc(heap, size)).None?
    ensures r.Some? ==> old(AfterMalloc(heap, size)) == Some(heap.pmm.View())
    ensures r.Some? ==> ServedFrom(old(heap.heap), heap.heap, size, r.value - TAG_SIZE)
    ensures r.Some? ==>
              && Request(old(heap.heap), size, base)
              && Malloced(old(heap.heap), heap.heap, size, base, r.value - TAG_SIZE)
              && OthersPages(heap) == old(OthersPages(heap))
              && unchanged(spaces) && Together(heap, spaces)
  {
    hide PhysicalPages.Owned, PhysicalPages.Alloc, Liballoc.Valid, Liballoc.Drew, WellFormed, Malloced,
         HeapModel.Choice, Request, Others, ServedFrom;
    ListsAreEnough(heap, size);
    RegionsAreOwned(heap);
    r, base := heap.Malloc(size);
    if r.Some? {
      MallocLeavesOthers(heap, old(heap.heap), heap.heap, size, base, r.value - TAG_SIZE, old(heap.pmm.live),
                         heap.pmm.live);
      DrewOutlives(heap, old(heap.heap), size, base, old(heap.pmm.live), heap.pmm.live);
      HeapKeepsPool(heap);
      TablesStay(spaces);
    }
  }

  /** So does free, even when it returns a region. */
  method Free(heap: Liballoc, spaces: AddressSpaces, ptr: int)
    requires heap.MayFree(ptr) && Together(heap, spaces)
    modifies heap, heap.freePages, heap.completePages, heap.pmm, heap.pmm.buffer
    ensures ptr != 0 && Number(old(heap.mem.data), ptr - TAG_SIZE, 4) == MAGIC ==>
              Freed(old(heap.heap), heap.heap, ptr - TAG_SIZE)
    ensures ptr == 0 ==> heap.heap == old(heap.heap)
    ensures OthersPages(heap) == old(OthersPages(heap))
    ensures unchanged(spaces) && Together(heap, spaces)
  {
    hide PhysicalPages.Owned, Liballoc.Valid, WellFormed, Freed, Number, Inv, Others;
    ghost var h, live := heap.heap, heap.pmm.live;
    if ptr != 0 && Number(heap.mem.data, ptr - TAG_SIZE, 4) == MAGIC {
      LiveIsSound(heap);
    }
    heap.Free(ptr);
    if ptr != 0 && Number(old(heap.mem.data), ptr - TAG_SIZE, 4) == MAGIC {
      forall f | f in spaces.tree ensures f / PAGE_SIZE in heap.pmm.live && heap.pmm.live[f / PAGE_SIZE] == 1 {
        ReleaseSpares(heap, h, heap.heap, ptr - TAG_SIZE, live, heap.pmm.live, f / PAGE_SIZE);
      }
      FreeLeavesOthers(heap, h, heap.heap, ptr - TAG_SIZE, live, heap.pmm.live);
    }
    HeapKeepsPool(heap);
    TablesStay(spaces);
  }

  lemma LiveHasMagic(heap: Liballoc, tag: int)
    requires heap.Valid() && heap.initialized && Live(heap.heap, tag)
    ensures Number(heap.mem.data, tag, 4) == MAGIC
  {
    heap.TagsOfBlocks(tag);
  }

  lemma LiveIsSound(heap: Liballoc)
    requires heap.Valid() && heap.initialized
    ensures Inv(heap.heap) && heap.Owns()
  {
  }

  /** And realloc, also where it is malloc, free or nothing. */
  method Realloc(heap: Liballoc, spaces: AddressSpaces, p: int, size: nat) returns (r: Option<int>, ghost base: int)
    requires p == 0 || (heap.initialized && Live(heap.heap, p - TAG_SIZE))
    requires size <= MAX_REQUEST && Together(heap, spaces)
    modifies heap, heap.freePages, heap.completePages, heap.pmm, heap.pmm.buffer
    ensures r.None? <==> size > 0 && old(AfterMalloc(heap, size)).None?
    ensures r.Some? ==>
              && (if size == 0 then if p == 0 then heap.heap == old(heap.heap)
                                    else Freed(old(heap.heap), heap.heap, p - TAG_SIZE)
                  else if p == 0 then Malloced(old(heap.heap), heap.heap, size, base, r.value - TAG_SIZE)
                  else Reallocated(old(heap.heap), heap.heap, size, base, p - TAG_SIZE, r.value - TAG_SIZE))
              && OthersPages(heap) == old(OthersPages(heap))
              && unchanged(spaces) && Together(heap, spaces)
  {
    hide PhysicalPages.Owned, PhysicalPages.Alloc, HeapModel.Choice, Liballoc.Valid, WellFormed, Inv, Freed, Malloced,
         Reallocated, Number, Others, ServedFrom, AfterMalloc;
    base := 0;
    if size == 0 {
      if p != 0 {
        LiveHasMagic(heap, p - TAG_SIZE);
      }
      Free(heap, spaces, p);
      r := Some(0);
    } else if p == 0 {
      r, base := Malloc(heap, spaces, size);
    } else {
      r, base := MoveBlock(heap, spaces, p, size);
    }
  }

  /** The moving half. */
  method MoveBlock(heap: Liballoc, spaces: AddressSpaces, p: int, size: nat) returns (r: Option<int>, ghost base: int)
    requires heap.initialized && Live(heap.heap, p - TAG_SIZE) && 0 < size <= MAX_REQUEST && Together(heap, spaces)
    requires p != 0
    modifies heap, heap.freePages, heap.completePages, heap.pmm, heap.pmm.buffer
    ensures r.None? <==> old(AfterMalloc(heap, size)).None?
    ensures r.Some? ==>
              && Reallocated(old(heap.heap), heap.heap, size, base, p - TAG_SIZE, r.value - TAG_SIZE)
              && OthersPages(heap) == old(OthersPages(heap))
              && unchanged(spaces) && Together(heap, spaces)
  {
    hide PhysicalPages.Owned, PhysicalPages.Alloc, HeapModel.Choice, Liballoc.Valid, WellFormed,
         Liballoc.Exchanged, Inv,
         Others;
    ghost var h, live := heap.heap, heap.pmm.live;
    LiveIsSound(heap);
    ListsAreEnough(heap, size);
    r, base := heap.Realloc(p, size);
    if r.Some? {
      forall f | f in spaces.tree ensures f / PAGE_SIZE in heap.pmm.live && heap.pmm.live[f / PAGE_SIZE] == 1 {
        ExchangeSpares(heap, h, heap.heap, size, base, p - TAG_SIZE, r.value - TAG_SIZE, live, heap.pmm.live,
                       f / PAGE_SIZE);
      }
      ReallocLeavesOthers(heap, h, heap.heap, size, base, p - TAG_SIZE, r.value - TAG_SIZE, live, heap.pmm.live);
      ExchangeMoves(heap, h, heap.heap, size, base, p - TAG_SIZE, r.value - TAG_SIZE, live, heap.pmm.live);
      HeapKeepsPool(heap);
      TablesStay(spaces);
    }
  }

  lemma ExchangeMoves(heap: Liballoc, h: Heap, h': Heap, size: nat, base: int, tag: int, answer: int,
                      live: map<nat, nat>, live': map<nat, nat>)
    requires heap.Exchanged(h, h', size, base, tag, answer, live, live')
    ensures Reallocated(h, h', size, base, tag, answer)
  {
  }

  lemma ExchangeSpares(heap: Liballoc, h: Heap, h': Heap, size: nat, base: int, tag: int, answer: int,
                       live: map<nat, nat>, live': map<nat, nat>, p: nat)
    requires Request(h, size, base) && Live(h, tag)
    requires heap.Exchanged(h, h', size, base, tag, answer, live, live')
    requires RegionsOwned(h.regions, heap.offset, live) && p in live && live[p] == 1
    ensures p in live' && live'[p] == 1
  {
    hide Inv, HeapModel.Free, HeapModel.Malloc, Merge;
    var m, live1 := HeapModel.Malloc(h, size, base), heap.LiveAfter(h, size, base, live);
    ReallocIsServed(h, tag, size, base);
    MallocObtainsExactly(h, size, base);
    ReleaseSpares(heap, m, h', tag, live1, live', p);
  }

  // ---------------------------------------------------------------- the tables' side

  /** More pages taken by others are no matter to the heap. */
  twostate lemma HeapStays(heap: Liballoc)
    requires old(heap.Valid()) && unchanged(heap, heap.freePages, heap.completePages)
    requires heap.pmm.Valid() && heap.pmm.buffer == old(heap.pmm.buffer)
    requires Outlives(old(heap.pmm.live), heap.pmm.live)
    ensures heap.Valid()
  {
  }

  /** MapPage leaves the heap as it is. */
  method MapPage(heap: Liballoc, spaces: AddressSpaces, root: nat, vaddr: nat, paddr: nat, flags: nat)
    returns (ok: bool)
    requires IsRoot(spaces.tree, root) && Together(heap, spaces)
    modifies spaces, spaces.pmm, spaces.pmm.buffer
    ensures ok <==> Supply(old(spaces.pmm.View()), old(spaces.frames), root, Way(vaddr)).Some?
    ensures ok ==>
              && Flat(spaces.frames, root) ==
                   Flat(old(spaces.frames), root)[PageTables.Page(vaddr) := BitOr(paddr, flags)]
              && unchanged(heap, heap.freePages, heap.completePages) && Together(heap, spaces)
  {
    hide PhysicalPages.Owned, Liballoc.Valid, WellFormed, Flat, Supply, Grown;
    PoolIsApart(heap);
    ok := spaces.MapPage(root, vaddr, paddr, flags);
    if ok {
      HeapStays(heap);
    }
  }

  lemma PoolIsApart(heap: Liballoc)
    requires heap.Valid()
    ensures heap.freePages as object != heap.pmm.buffer as object
              && heap.completePages as object != heap.pmm.buffer as object
  {
  }

  lemma MallocedAllocates(h: Heap, h': Heap, size: nat, base: int, tag: int)
    requires Request(h, size, base) && Malloced(h, h', size, base, tag)
    ensures tag !in Allocations(h) && Allocations(h') == Allocations(h)[tag := size]
  {
    hide Request, Allocations, MallocReady, HeapModel.Malloc;
    MallocAllocates(h, size, base);
  }

  /** new Thread(entry, is_user): the object from the heap, then the stack and the tables. */
  method NewThread(heap: Liballoc, spaces: AddressSpaces, size: nat,
                   mmap: seq<Entry>, kernel: Window, offset: nat, screen: nat, kstack: nat)
    returns (r: Option<(int, nat)>, ghost stackAddr: nat)
    requires size <= MAX_REQUEST && kernel.flags == PRESENT_WRITE && Together(heap, spaces)
    modifies heap, heap.freePages, heap.completePages, spaces, heap.pmm, heap.pmm.buffer
    ensures var s := old(AfterMalloc(heap, size));
            r.None? <==> s.None? || SpaceWanting(s.value, kernel, offset, ScreenWindow(mmap, screen), kstack)
    ensures r.Some? ==> HasTables(spaces, r.value.1, kernel, offset, ScreenWindow(mmap, screen), stackAddr, kstack)
    ensures r.Some? ==>
              && Allocations(heap.heap) == Allocations(old(heap.heap))[r.value.0 - TAG_SIZE := size]
              && r.value.0 - TAG_SIZE !in Allocations(old(heap.heap))
              && IsRoot(spaces.tree, r.value.1) && r.value.1 !in old(spaces.tree)
              && (forall g | IsRoot(old(spaces.tree), g) :: Flat(spaces.frames, g) == Flat(old(spaces.frames), g))
              && Together(heap, spaces)
  {
    hide PhysicalPages.Owned, PhysicalPages.Alloc, Liballoc.Valid, WellFormed, Flat, Malloced, Allocations, Request,
         ThreadSpace, InARow, FiveWays, ServedFrom, HeapModel.Choice, AfterMalloc;
    stackAddr := 0;
    var block, base := Malloc(heap, spaces, size);
    if block.None? {
      return None, 0;
    }
    MallocedAllocates(old(heap.heap), heap.heap, size, base, block.value - TAG_SIZE);
    PoolIsApart(heap);
    label built:
    var root, stack := spaces.NewThreadSpace(mmap, kernel, offset, screen, kstack);
    if root.None? {
      return None, 0;
    }
    HeapStays@built(heap);
    stackAddr := stack;
    r := Some((block.value, root.value));
  }
}
