/** src/mm/vmm.cpp: MapPage over tables in frames of the page allocator, proved to be an
    update of a flat map at one page. */
module VirtualMemory {
  import opened Machine
  import opened PageTables
  import opened Windows
  import opened TablePaths
  import PhysicalPages
  import opened PhysicalMemory

  class AddressSpaces {
    var frames: Memory
    const pmm: PhysicalAllocator
    ghost var tree: Forest

    /** Every table is a one-page allocation of its own. */
    ghost predicate TablesOwned()
      reads this, pmm
    {
      forall f | f in tree :: f / PAGE_SIZE in pmm.live && pmm.live[f / PAGE_SIZE] == 1
    }

    ghost predicate Valid()
      reads this, pmm, pmm.buffer
    {
      pmm.Valid() && pmm.highestAddr <= TWO_63 && TablesOwned() && WellFormed(frames, tree)
    }

    constructor (pages: PhysicalAllocator)
      requires pages.Valid() && pages.highestAddr <= TWO_63
      ensures Valid() && pmm == pages && tree == map[]
    {
      pmm, frames, tree := pages, map[], map[];
    }

    /** Address spaces are what they were. */
    twostate predicate SpacesKept()
      reads this
    {
      && (forall f | f in old(tree) :: f in tree && tree[f] == old(tree)[f])
      && (forall g | IsRoot(old(tree), g) :: Flat(frames, g) == Flat(old(frames), g))
    }

    /** One page for a table; None is the halted machine. */
    method NewFrame() returns (r: Option<nat>)
      requires Valid()
      modifies pmm, pmm.buffer
      ensures pmm.buffer == old(pmm.buffer) && pmm.highestAddr == old(pmm.highestAddr)
      ensures r.None? <==> PhysicalPages.Alloc(old(pmm.View()), 1).None?
      ensures r.Some? ==>
                && pmm.Valid() && r.value !in tree && r.value % PAGE_SIZE == 0 && 0 < r.value < TWO_63
                && pmm.live == old(pmm.live)[r.value / PAGE_SIZE := 1] && r.value / PAGE_SIZE !in old(pmm.live)
                && pmm.View() == PhysicalPages.Alloc(old(pmm.View()), 1).value.pages
    {
      hide PhysicalPages.Alloc;
      r := pmm.Alloc(1);
      if r.Some? {
        assert r.value / PAGE_SIZE in pmm.live;
      }
    }

    /** Hang a zeroed table on an empty slot. */
    method HangTable(f: nat, i: nat, c: nat)
      requires i < ENTRIES && f in tree && tree[f].level > 1 && EntryAt(frames, f, i) == 0
      requires c !in tree && c % PAGE_SIZE == 0 && 0 < c < TWO_63
      requires WellFormed(frames, tree)
      modifies this`frames, this`tree
      ensures EntryAt(frames, f, i) != 0 && tree == old(tree)[c := Node(old(tree)[f].level - 1, f, i)]
      ensures f in old(frames) && i < |old(frames)[f]| && frames == Hang(old(frames), f, i, c)
      ensures FrameOf(EntryAt(frames, f, i)) == c
      ensures EntriesKept(old(frames), frames, old(tree)) && SpacesKept() && WellFormed(frames, tree)
    {
      TableFits(frames, tree, f);
      hide WellFormed, Flat;
      TableEntry(c);
      HangKeepsForest(frames, tree, f, i, c);
      forall g | IsRoot(tree, g) {
        HangKeepsFlat(frames, tree, f, i, c, g);
      }
      frames := Hang(frames, f, i, c);
      tree := tree[c := Node(tree[f].level - 1, f, i)];
    }

    /** The three allocating steps of MapPage: follow slot i of f, making the table there
        if it is missing. */
    method Follow(f: nat, i: nat) returns (r: Option<nat>)
      requires i < ENTRIES && f in tree && tree[f].level > 1 && Valid()
      modifies this`frames, this`tree, pmm, pmm.buffer
      ensures pmm.buffer == old(pmm.buffer)
      ensures r.None? <==> EntryAt(old(frames), f, i) == 0 && PhysicalPages.Alloc(old(pmm.View()), 1).None?
      ensures r.Some? ==> Descended(old(frames), frames, old(tree), f, i, r.value)
      ensures r.Some? ==>
                pmm.View() == if EntryAt(old(frames), f, i) != 0 then old(pmm.View())
                              else PhysicalPages.Alloc(old(pmm.View()), 1).value.pages
      ensures r.Some? ==>
                && EntryAt(frames, f, i) != 0 && r.value == FrameOf(EntryAt(frames, f, i))
                && r.value in tree && HangsAt(tree[r.value], old(tree)[f].level, f, i)
                && EntriesKept(old(frames), frames, old(tree))
                && SpacesKept()
                && Outlives(old(pmm.live), pmm.live)
                && Valid()
    {
      hide WellFormed, PhysicalPages.Owned, Flat, EntriesKept, FrameOf, PhysicalPages.Alloc;
      TableFits(frames, tree, f);
      NothingChanged(frames, tree);
      if frames[f][i] == 0 {
        var addr := NewFrame();
        if addr.None? {
          return None;
        }
        HangTable(f, i, addr.value);
      }
      SlotHoldsTable(frames, tree, f, i);
      r := Some(FrameOf(EntryAt(frames, f, i)));
    }

    /** The same from the root's point of view: q is the path to f. */
    method Descend(root: nat, ghost q: seq<nat>, f: nat, i: nat) returns (r: Option<nat>)
      requires IsRoot(tree, root) && |q| <= 2 && i < ENTRIES && (forall k | 0 <= k < |q| :: q[k] < ENTRIES)
      requires Reached(frames, root, q) && TableAt(frames, root, q) == f && Valid()
      modifies this`frames, this`tree, pmm, pmm.buffer
      ensures pmm.buffer == old(pmm.buffer)
      ensures r.None? <==> Supply(old(pmm.View()), old(frames), root, {q + [i]}).None?
      ensures r.Some? ==>
                && Supply(old(pmm.View()), old(frames), root, {q + [i]}) == Some(pmm.View())
                && Grown(old(frames), frames, root, {q + [i]})
                && Reached(frames, root, q + [i]) && TableAt(frames, root, q + [i]) == r.value
      ensures r.Some? ==>
                && EntryAt(frames, f, i) != 0 && r.value == FrameOf(EntryAt(frames, f, i))
                && f in old(tree) && r.value in tree && tree[r.value].level == 3 - |q|
                && EntriesKept(old(frames), frames, old(tree))
                && SpacesKept()
                && Outlives(old(pmm.live), pmm.live)
                && Valid()
    {
      hide WellFormed, PhysicalPages.Owned, Flat, EntriesKept, FrameOf, PhysicalPages.Alloc, Grown, Supply, Reached,
           TableAt, Descended;
      PathArrives(frames, tree, root, q);
      SupplyOne(pmm.View(), frames, root, q + [i]);
      ReachedOn(frames, root, q, i);
      r := Follow(f, i);
      if r.Some? {
        PathGrows(old(frames), frames, old(tree), root, q, f, i, r.value);
      }
    }

    method MapPage(root: nat, vaddr: nat, paddr: nat, flags: nat) returns (ok: bool)
      requires IsRoot(tree, root) && Valid()
      modifies this`frames, this`tree, pmm, pmm.buffer
      ensures pmm.buffer == old(pmm.buffer)
      ensures ok <==> Supply(old(pmm.View()), old(frames), root, Way(vaddr)).Some?
      ensures ok ==>
                && Supply(old(pmm.View()), old(frames), root, Way(vaddr)) == Some(pmm.View())
                && Grown(old(frames), frames, root, Way(vaddr))
      ensures ok ==>
                && (forall f | f in old(tree) :: f in tree && tree[f] == old(tree)[f])
                && Flat(frames, root) == Flat(old(frames), root)[Page(vaddr) := BitOr(paddr, flags)]
                && (forall g | IsRoot(old(tree), g) && g != root :: Flat(frames, g) == Flat(old(frames), g))
                && Outlives(old(pmm.live), pmm.live)
                && Valid()
    {
      hide WellFormed, PhysicalPages.Owned, Flat, FrameOf, Index, BitOr, Page, EntriesKept, Grown, Supply, Reached,
           TableAt;
      var last := Arrive(root, vaddr);
      if last.None? { return false; }
      ghost var mem := frames;
      WriteLast(root, vaddr, last.value, BitOr(paddr, flags));
      GrownBoth(old(frames), mem, frames, root, Way(vaddr), {});
      assert Way(vaddr) + {} == Way(vaddr);
      ok := true;
    }

    /** MapPage up to its final store: the last table on vaddr's way. */
    method Arrive(root: nat, vaddr: nat) returns (last: Option<nat>)
      requires IsRoot(tree, root) && Valid()
      modifies this`frames, this`tree, pmm, pmm.buffer
      ensures pmm.buffer == old(pmm.buffer)
      ensures last.None? <==> Supply(old(pmm.View()), old(frames), root, Way(vaddr)).None?
      ensures last.Some? ==>
                && Supply(old(pmm.View()), old(frames), root, Way(vaddr)) == Some(pmm.View())
                && Grown(old(frames), frames, root, Way(vaddr))
                && IsRoot(tree, root) && last.value in tree && tree[last.value].level == 1
                && Leads(frames, tree, root, vaddr, last.value)
                && SpacesKept() && Outlives(old(pmm.live), pmm.live) && Valid()
    {
      hide WellFormed, PhysicalPages.Owned, Flat, FrameOf, Index, EntriesKept, Grown, Supply, Reached, TableAt, Leads,
           ArePaths, PhysicalAllocator.View, Way;
      ThreeSteps(vaddr);
      ghost var p, s0, mem0 := [Index(vaddr, 4)], pmm.View(), frames;
      RootIsReached(frames, root);
      var pdpt := Descend(root, [], root, Index(vaddr, 4));
      assert [] + p == p;
      WayParts(s0, mem0, root, vaddr);
      if pdpt.None? { return None; }
      ghost var mem1, tree1, q := frames, tree, p + [Index(vaddr, 3)];
      SupplyBoth(s0, mem0, mem1, root, {p}, {q});
      var pdt := Descend(root, p, pdpt.value, Index(vaddr, 3));
      if pdt.None? { return None; }
      GrownBoth(mem0, mem1, frames, root, {p}, {q});
      ghost var mem2, tree2, z := frames, tree, q + [Index(vaddr, 2)];
      SupplyBoth(s0, mem0, mem2, root, {p} + {q}, {z});
      var pt := Descend(root, q, pdt.value, Index(vaddr, 2));
      if pt.None? { return None; }
      GrownBoth(mem0, mem2, frames, root, {p} + {q}, {z});
      EntryStays(mem1, mem2, tree1, root, Index(vaddr, 4));
      EntryStays(mem2, frames, tree2, root, Index(vaddr, 4));
      EntryStays(mem2, frames, tree2, pdpt.value, Index(vaddr, 3));
      PathLeads(frames, tree, root, pdpt.value, pdt.value, pt.value, vaddr);
      last := pt;
    }

    /** The final store of MapPage. */
    method WriteLast(root: nat, vaddr: nat, last: nat, e: nat)
      requires IsRoot(tree, root) && last in tree && tree[last].level == 1 && Leads(frames, tree, root, vaddr, last)
      requires WellFormed(frames, tree)
      modifies this`frames
      ensures Flat(frames, root) == Flat(old(frames), root)[Page(vaddr) := e]
      ensures forall g | IsRoot(tree, g) && g != root :: Flat(frames, g) == Flat(old(frames), g)
      ensures Grown(old(frames), frames, root, {})
      ensures WellFormed(frames, tree)
    {
      hide WellFormed, Flat, Index, Page, Leads, Reached;
      TableFits(frames, tree, last);
      IndexBelow(vaddr, 1);
      LastStoreKeepsPaths(frames, tree, root, last, Index(vaddr, 1), e);
      LeafKeepsForest(frames, tree, last, Index(vaddr, 1), e);
      forall g | IsRoot(tree, g) {
        LeafUpdatesFlat(frames, tree, root, vaddr, last, e, g);
      }
      frames := Poke(frames, last, Index(vaddr, 1), e);
    }

    /** PhysicalMemory::alloc(1), zeroed, as a new address space. */
    method NewSpace() returns (r: Option<nat>)
      requires Valid()
      modifies this`frames, this`tree, pmm, pmm.buffer
      ensures pmm.buffer == old(pmm.buffer)
      ensures r.None? <==> PhysicalPages.Alloc(old(pmm.View()), 1).None?
      ensures r.Some? ==>
                && IsRoot(tree, r.value) && r.value !in old(tree)
                && r.value in frames && frames[r.value] == Blank()
                && pmm.View() == PhysicalPages.Alloc(old(pmm.View()), 1).value.pages
                && Flat(frames, r.value) == NothingMapped()
                && SpacesKept() && Outlives(old(pmm.live), pmm.live) && Valid()
    {
      hide WellFormed, PhysicalPages.Owned, Flat, PhysicalPages.Alloc;
      r := NewFrame();
      if r.Some? {
        NewRootKeepsForest(frames, tree, r.value);
        NewRootFlat(frames, tree, r.value);
        frames := frames[r.value := Blank()];
        tree := tree[r.value := Node(4, 0, 0)];
      }
    }

    /** for (i = 0; i < length; i += 4096) MapPage(root, vbase + i, pbase + i, flags) */
    method MapRange(root: nat, w: Window) returns (ok: bool)
      requires IsRoot(tree, root) && Valid()
      modifies this`frames, this`tree, pmm, pmm.buffer
      ensures pmm.buffer == old(pmm.buffer)
      ensures ok <==> Supply(old(pmm.View()), old(frames), root, WindowWays(w)).Some?
      ensures ok ==>
                && Supply(old(pmm.View()), old(frames), root, WindowWays(w)) == Some(pmm.View())
                && Grown(old(frames), frames, root, WindowWays(w))
      ensures ok ==>
                && (forall f | f in old(tree) :: f in tree && tree[f] == old(tree)[f])
                && Flat(frames, root) == MapWindow(Flat(old(frames), root), w)
                && (forall g | IsRoot(old(tree), g) && g != root :: Flat(frames, g) == Flat(old(frames), g))
                && Outlives(old(pmm.live), pmm.live) && Valid()
    {
      hide WellFormed, PhysicalPages.Owned, Flat, PageTables.Page, BitOr, Wrap, Supply, Grown, Way;
      var i: nat := 0;
      ghost var k: nat := 0;
      NothingToSupply(pmm.View(), frames, root);
      while i < w.length
        invariant i == 4096 * k && k <= Steps(w)
        invariant pmm.buffer == old(pmm.buffer)
        invariant Supply(old(pmm.View()), old(frames), root, WaysOf(w, k)) == Some(pmm.View())
        invariant Grown(old(frames), frames, root, WaysOf(w, k))
        invariant forall f | f in old(tree) :: f in tree && tree[f] == old(tree)[f]
        invariant Flat(frames, root) == MapSteps(Flat(old(frames), root), w, k)
        invariant forall g | IsRoot(old(tree), g) && g != root :: Flat(frames, g) == Flat(old(frames), g)
        invariant Outlives(old(pmm.live), pmm.live) && Valid()
        decreases w.length - i
      {
        ghost var mem := frames;
        OneWayMore(old(pmm.View()), old(frames), mem, root, w, k);
        ok := MapPage(root, Wrap(w.vbase + i), Wrap(w.pbase + i), w.flags);
        if !ok {
          return;
        }
        GrownBoth(old(frames), mem, frames, root, WaysOf(w, k), Way(Wrap(w.vbase + i)));
        i, k := i + 4096, k + 1;
      }
      ok := true;
    }

    /** VirtualMemory::Initialize; None is the halted machine, also for want of a framebuffer. */
    method Initialize(mmap: seq<Entry>, kernel: Window, offset: nat, screen: nat) returns (r: Option<nat>)
      requires kernel.flags == PRESENT_WRITE && Valid()
      modifies this`frames, this`tree, pmm, pmm.buffer
      ensures pmm.buffer == old(pmm.buffer)
      ensures r.None? <==>
                || FramebufferOf(mmap).base == 0
                || InARow(old(pmm.View()), 1 + |WindowWays(kernel) + WindowWays(Direct(offset))
                                                + WindowWays(ScreenWindow(mmap, screen))|).None?
      ensures r.Some? ==>
                && IsRoot(tree, r.value) && r.value !in old(tree)
                && Flat(frames, r.value) == KernelSpace(kernel, Direct(offset), ScreenWindow(mmap, screen))
                && SpacesKept() && Outlives(old(pmm.live), pmm.live) && Valid()
    {
      hide WellFormed, PhysicalPages.Owned, Flat, MapWindow, Supply, Grown, WindowWays, InARow, PhysicalPages.Alloc,
           ArePaths, NothingMapped, FramebufferOf, PhysicalAllocator.View;
      ghost var k, d, f := WindowWays(kernel), WindowWays(Direct(offset)), WindowWays(ScreenWindow(mmap, screen));
      ThreeArePaths(kernel, Direct(offset), ScreenWindow(mmap, screen));
      var root := NewSpace();
      NewSpaceRow(old(pmm.View()), k + d + f);
      if root.None? { return None; }
      ghost var s, mem := pmm.View(), frames;
      BlankSupply(s, mem, root.value, k + d + f);
      LessSupply(s, mem, root.value, k, d, f);
      var ok := MapRange(root.value, kernel);
      if !ok { return None; }
      ghost var mem1 := frames;
      SupplyBoth(s, mem, mem1, root.value, k, d);
      ok := MapRange(root.value, Direct(offset));
      if !ok { return None; }
      var fb := FindFramebuffer(mmap);
      if fb.base == 0 { return None; }
      GrownBoth(mem, mem1, frames, root.value, k, d);
      SupplyBoth(s, mem, frames, root.value, k + d, f);
      ok := MapRange(root.value, Window(screen, fb.base, fb.length, PRESENT_WRITE));
      if !ok { return None; }
      r := root;
    }

    /** The mapping loops of the Thread constructor, in its order. */
    method MapThread(root: nat, kernel: Window, screen: Window, stack: Window, direct: Window, kstack: Window)
      returns (ok: bool)
      requires IsRoot(tree, root) && Flat(frames, root) == NothingMapped() && Valid()
      modifies this`frames, this`tree, pmm, pmm.buffer
      ensures pmm.buffer == old(pmm.buffer)
      ensures ok <==> Supply(old(pmm.View()), old(frames), root, FiveWays(kernel, screen, stack, direct, kstack)).Some?
      ensures ok ==>
                && (forall f | f in old(tree) :: f in tree && tree[f] == old(tree)[f])
                && Flat(frames, root) == ThreadSpace(kernel, direct, screen, stack, kstack)
                && (forall g | IsRoot(old(tree), g) && g != root :: Flat(frames, g) == Flat(old(frames), g))
                && Outlives(old(pmm.live), pmm.live) && Valid()
    {
      hide WellFormed, PhysicalPages.Owned, Flat, MapWindow, Supply, Grown, WindowWays, ArePaths;
      ghost var s, mem := pmm.View(), frames;
      ghost var a, b, c := WindowWays(kernel), WindowWays(screen), WindowWays(stack);
      ghost var d, e := WindowWays(direct), WindowWays(kstack);
      FiveArePaths(kernel, screen, stack, direct, kstack);
      FewerSupply(s, mem, root, a, b, c, d, e);
      ok := MapRange(root, kernel);
      if !ok { return; }
      ghost var mem1 := frames;
      SupplyBoth(s, mem, mem1, root, a, b);
      ok := MapRange(root, screen);
      if !ok { return; }
      ghost var mem2 := frames;
      GrownBoth(mem, mem1, mem2, root, a, b);
      SupplyBoth(s, mem, mem2, root, a + b, c);
      ok := MapRange(root, stack);
      if !ok { return; }
      ghost var mem3 := frames;
      GrownBoth(mem, mem2, mem3, root, a + b, c);
      SupplyBoth(s, mem, mem3, root, a + b + c, d);
      ok := MapRange(root, direct);
      if !ok { return; }
      GrownBoth(mem, mem3, frames, root, a + b + c, d);
      SupplyBoth(s, mem, frames, root, a + b + c + d, e);
      ok := MapRange(root, kstack);
    }

    /** PhysicalMemory::alloc of the stack size, which alloc takes for a number of pages. */
    method NewStack() returns (r: Option<nat>)
      requires Valid()
      modifies pmm, pmm.buffer
      ensures pmm.buffer == old(pmm.buffer)
      ensures r.None? <==> PhysicalPages.Alloc(old(pmm.View()), 65536).None?
      ensures r.Some? ==>
                && pmm.View() == PhysicalPages.Alloc(old(pmm.View()), 65536).value.pages
                && r.value / PAGE_SIZE !in old(pmm.live) && r.value / PAGE_SIZE in pmm.live
                && pmm.live[r.value / PAGE_SIZE] == 65536 && r.value % PAGE_SIZE == 0
                && Outlives(old(pmm.live), pmm.live) && Valid()
    {
      assert AlignUp(STACK_SIZE, PAGE_SIZE) == 65536;
      hide WellFormed, PhysicalPages.Owned, PhysicalPages.Alloc, AlignUp;
      r := pmm.Alloc(AlignUp(STACK_SIZE, PAGE_SIZE));
    }

    /** The memory a Thread constructor sets up: a stack, asked for as STACK_SIZE pages, and
        an address space. */
    method NewThreadSpace(mmap: seq<Entry>, kernel: Window, offset: nat, screen: nat, kstack: nat)
      returns (r: Option<nat>, stackAddr: nat)
      requires kernel.flags == PRESENT_WRITE && Valid()
      modifies this`frames, this`tree, pmm, pmm.buffer
      ensures pmm.buffer == old(pmm.buffer)
      ensures r.None? <==>
                var taken := PhysicalPages.Alloc(old(pmm.View()), 65536);
                || taken.None?
                || InARow(taken.value.pages, 1 + |FiveWays(kernel, ScreenWindow(mmap, screen), Stack(0),
                                                           Direct(offset), KernelStack(kstack))|).None?
      ensures r.Some? ==>
                && IsRoot(tree, r.value) && r.value !in old(tree)
                && Flat(frames, r.value) ==
                     ThreadSpace(kernel, Direct(offset), ScreenWindow(mmap, screen), Stack(stackAddr),
                                 KernelStack(kstack))
                && stackAddr / PAGE_SIZE !in old(pmm.live) && stackAddr / PAGE_SIZE in pmm.live
                && pmm.live[stackAddr / PAGE_SIZE] == 65536 && stackAddr % PAGE_SIZE == 0
                && SpacesKept() && Outlives(old(pmm.live), pmm.live) && Valid()
    {
      hide WellFormed, PhysicalPages.Owned, Flat, PhysicalPages.Alloc, ThreadSpace, FiveWays, InARow;
      stackAddr := 0;
      var stack := NewStack();
      if stack.None? { return None, 0; }
      stackAddr := stack.value;
      var fb := FindFramebuffer(mmap);
      StackWays(kernel, ScreenWindow(mmap, screen), stackAddr, Direct(offset), KernelStack(kstack));
      r := NewThreadTables(kernel, Window(screen, fb.base, fb.length, PRESENT_WRITE), Stack(stackAddr),
                           Direct(offset), KernelStack(kstack));
    }

    /** The root table and what the constructor maps under it. */
    method NewThreadTables(kernel: Window, screen: Window, stack: Window, direct: Window, kstack: Window)
      returns (r: Option<nat>)
      requires Valid()
      modifies this`frames, this`tree, pmm, pmm.buffer
      ensures pmm.buffer == old(pmm.buffer)
      ensures r.None? <==> InARow(old(pmm.View()), 1 + |FiveWays(kernel, screen, stack, direct, kstack)|).None?
      ensures r.Some? ==>
                && IsRoot(tree, r.value) && r.value !in old(tree)
                && Flat(frames, r.value) == ThreadSpace(kernel, direct, screen, stack, kstack)
                && SpacesKept() && Outlives(old(pmm.live), pmm.live) && Valid()
    {
      hide WellFormed, PhysicalPages.Owned, Flat, PhysicalPages.Alloc, ThreadSpace, Supply, FiveWays, InARow;
      ghost var ways := FiveWays(kernel, screen, stack, direct, kstack);
      NewSpaceRow(pmm.View(), ways);
      r := NewSpace();
      if r.None? { return; }
      FiveArePaths(kernel, screen, stack, direct, kstack);
      BlankSupply(pmm.View(), frames, r.value, ways);
      var ok := MapThread(r.value, kernel, screen, stack, direct, kstack);
      if !ok {
        r := None;
      }
    }
  }

  /** Every thread's tables translate every kernel-image, framebuffer and low-memory address
      as the kernel's do, if the stacks are mapped elsewhere and the framebuffer is mapped off
      the direct map or where the direct map has it anyway. */
  lemma ThreadsSeeTheKernel(mem: Memory, kernelDir: nat, root: nat, mmap: seq<Entry>, kernel: Window, offset: nat,
                            screen: nat, stackAddr: nat, kstack: nat, v: nat)
    requires Flat(mem, kernelDir) == KernelSpace(kernel, Direct(offset), ScreenWindow(mmap, screen))
    requires Flat(mem, root) ==
               ThreadSpace(kernel, Direct(offset), ScreenWindow(mmap, screen), Stack(stackAddr), KernelStack(kstack))
    requires Top(FramebufferOf(mmap)) <= TWO_64
    requires StacksApart(kernel, Direct(offset), ScreenWindow(mmap, screen), Stack(stackAddr), KernelStack(kstack))
    requires var s := ScreenWindow(mmap, screen); !Meet(Direct(offset), s) || ThroughDirect(Direct(offset), s)
    requires Shared(kernel, Direct(offset), ScreenWindow(mmap, screen), PageTables.Page(v))
    ensures Walk(mem, root, 4, v) == Walk(mem, kernelDir, 4, v)
  {
    hide Walk, InWindow, KernelSpace, ThreadSpace, StacksApart, Meet, ThroughDirect;
    FlatIsTheWalk(mem, kernelDir, v);
    FlatIsTheWalk(mem, root, v);
    BuildersAgreeIff(kernel, offset, ScreenWindow(mmap, screen), stackAddr, kstack);
  }

  /** So it is in the boot loader's layout. */
  lemma ThreadsSeeTheKernelAsBooted(mem: Memory, kernelDir: nat, root: nat, mmap: seq<Entry>, kernel: Window,
                                    stackAddr: nat, kstack: nat, v: nat)
    requires var fb := FramebufferOf(mmap); fb.base % 4096 == 0 && Top(fb) <= STACK_BASE - HIGHER_HALF
    requires KERNEL_BASE <= kernel.vbase < TWO_64 && kernel.vbase + kernel.length <= TWO_64
    requires var screen := ScreenWindow(mmap, HIGHER_HALF + FramebufferOf(mmap).base);
             && Flat(mem, kernelDir) == KernelSpace(kernel, Direct(HIGHER_HALF), screen)
             && Flat(mem, root) ==
                  ThreadSpace(kernel, Direct(HIGHER_HALF), screen, Stack(stackAddr), KernelStack(kstack))
             && Shared(kernel, Direct(HIGHER_HALF), screen, PageTables.Page(v))
    ensures Walk(mem, root, 4, v) == Walk(mem, kernelDir, 4, v)
  {
    hide Walk, Shared, KernelSpace, ThreadSpace, StacksApart, Meet, ThroughDirect;
    var fb := FramebufferOf(mmap);
    UsualLayout(kernel, fb.base, fb.length, stackAddr, kstack);
    ThreadsSeeTheKernel(mem, kernelDir, root, mmap, kernel, HIGHER_HALF, HIGHER_HALF + fb.base, stackAddr, kstack, v);
  }

  /** The first framebuffer entry, or nothing of it. */
  function FramebufferOf(mmap: seq<Entry>): Entry {
    if mmap == [] then Entry(0, 0, Framebuffer)
    else if mmap[0].kind.Framebuffer? then mmap[0]
    else FramebufferOf(mmap[1..])
  }

  function ScreenWindow(mmap: seq<Entry>, screen: nat): Window {
    Window(screen, FramebufferOf(mmap).base, FramebufferOf(mmap).length, PRESENT_WRITE)
  }

  method FindFramebuffer(mmap: seq<Entry>) returns (fb: Entry)
    ensures fb == FramebufferOf(mmap)
  {
    fb := Entry(0, 0, Framebuffer);
    var i := 0;
    while i < |mmap|
      invariant i <= |mmap| && fb == Entry(0, 0, Framebuffer)
      invariant FramebufferOf(mmap) == FramebufferOf(mmap[i..])
    {
      if mmap[i].kind.Framebuffer? {
        return mmap[i];
      }
      i := i + 1;
    }
  }

  /** What is allocated stays allocated. */
  ghost predicate Outlives(live: map<nat, nat>, live': map<nat, nat>) {
    forall p | p in live :: p in live' && live'[p] == live[p]
  }

  /** Slot i of f was taken and nothing is written, or a zeroed table hangs there now. */
  ghost predicate Descended(mem: Memory, mem': Memory, tree: Forest, f: nat, i: nat, c: nat) {
    if EntryAt(mem, f, i) != 0 then mem' == mem
    else c !in tree && c % PAGE_SIZE == 0 && 0 < c < TWO_63 && f in mem && i < |mem[f]| && mem' == Hang(mem, f, i, c)
  }

  ghost predicate EntriesKept(mem: Memory, mem': Memory, tree: Forest) {
    forall g, k: nat | g in tree && EntryAt(mem, g, k) != 0 :: EntryAt(mem', g, k) == EntryAt(mem, g, k)
  }

  lemma LastStoreKeepsPaths(mem: Memory, tree: Forest, root: nat, last: nat, i: nat, e: nat)
    requires WellFormed(mem, tree) && IsRoot(tree, root) && last in tree && tree[last].level == 1 && i < ENTRIES
    ensures last in mem && i < |mem[last]| && Grown(mem, Poke(mem, last, i, e), root, {})
  {
    TableFits(mem, tree, last);
    forall p | IsPath(p) ensures Reached(Poke(mem, last, i, e), root, p) <==> Reached(mem, root, p) {
      PokeReached(mem, tree, last, i, e, root, p);
    }
  }

  lemma RootIsReached(mem: Memory, root: nat)
    ensures Reached(mem, root, []) && TableAt(mem, root, []) == root
  {
  }

  // ---------------------------------------------------------------- the tables of a window

  /** The tables on the way to the pages of the first k turns of a mapping loop. */
  function WaysOf(w: Window, k: nat): set<seq<nat>> {
    if k == 0 then {} else WaysOf(w, k - 1) + Way(Wrap(w.vbase + 4096 * (k - 1)))
  }

  function WindowWays(w: Window): set<seq<nat>> { WaysOf(w, Steps(w)) }

  function FiveWays(kernel: Window, screen: Window, stack: Window, direct: Window, kstack: Window): set<seq<nat>> {
    WindowWays(kernel) + WindowWays(screen) + WindowWays(stack) + WindowWays(direct) + WindowWays(kstack)
  }

  lemma {:induction false} WaysArePaths(w: Window, k: nat)
    ensures ArePaths(WaysOf(w, k))
  {
    hide IsPath, Way;
    if k > 0 {
      WaysArePaths(w, k - 1);
      WayIsPaths(Wrap(w.vbase + 4096 * (k - 1)));
    }
  }

  lemma WindowWaysArePaths(w: Window)
    ensures ArePaths(WindowWays(w))
  {
    WaysArePaths(w, Steps(w));
  }

  lemma {:induction false} WaysGrow(w: Window, k: nat, n: nat)
    requires k <= n
    ensures WaysOf(w, k) <= WaysOf(w, n)
    decreases n
  {
    hide Way;
    if k < n {
      WaysGrow(w, k, n - 1);
    }
  }

  /** A turn more: what the next page lacks comes on top, and failing it is failing all. */
  lemma OneWayMore(s: PhysicalPages.Pages, mem: Memory, mem': Memory, root: nat, w: Window, k: nat)
    requires k < Steps(w) && Grown(mem, mem', root, WaysOf(w, k)) && Supply(s, mem, root, WaysOf(w, k)).Some?
    ensures Supply(s, mem, root, WaysOf(w, k + 1)) ==
              Supply(Supply(s, mem, root, WaysOf(w, k)).value, mem', root, Way(Wrap(w.vbase + 4096 * k)))
    ensures Supply(s, mem, root, WaysOf(w, k + 1)).None? ==> Supply(s, mem, root, WindowWays(w)).None?
  {
    hide Supply, Grown, Way, IsPath;
    WaysArePaths(w, k);
    WayIsPaths(Wrap(w.vbase + 4096 * k));
    SupplyBoth(s, mem, mem', root, WaysOf(w, k), Way(Wrap(w.vbase + 4096 * k)));
    WaysGrow(w, k + 1, Steps(w));
    if Supply(s, mem, root, WaysOf(w, k + 1)).None? {
      SupplyMore(s, mem, root, WaysOf(w, k + 1), WindowWays(w));
    }
  }

  /** A root and n tables under it are n + 1 allocations. */
  lemma NewSpaceRow(s: PhysicalPages.Pages, ways: set<seq<nat>>)
    ensures InARow(s, 1 + |ways|) ==
              if PhysicalPages.Alloc(s, 1).None? then None else InARow(PhysicalPages.Alloc(s, 1).value.pages, |ways|)
  {
    hide PhysicalPages.Alloc;
  }

  lemma BlankSupply(s: PhysicalPages.Pages, mem: Memory, root: nat, ways: set<seq<nat>>)
    requires root in mem && mem[root] == Blank() && ArePaths(ways)
    ensures Supply(s, mem, root, ways) == InARow(s, |ways|)
  {
    BlankLacksAll(mem, root, ways);
  }

  lemma LessSupply(s: PhysicalPages.Pages, mem: Memory, root: nat, a: set<seq<nat>>, b: set<seq<nat>>, c: set<seq<nat>>)
    ensures Supply(s, mem, root, a).None? ==> Supply(s, mem, root, a + b + c).None?
    ensures Supply(s, mem, root, a + b).None? ==> Supply(s, mem, root, a + b + c).None?
  {
    hide Supply;
    if Supply(s, mem, root, a).None? { SupplyMore(s, mem, root, a, a + b + c); }
    if Supply(s, mem, root, a + b).None? { SupplyMore(s, mem, root, a + b, a + b + c); }
  }

  lemma FewerSupply(s: PhysicalPages.Pages, mem: Memory, root: nat, a: set<seq<nat>>, b: set<seq<nat>>,
                    c: set<seq<nat>>, d: set<seq<nat>>, e: set<seq<nat>>)
    ensures var all := a + b + c + d + e;
            && (Supply(s, mem, root, a).None? ==> Supply(s, mem, root, all).None?)
            && (Supply(s, mem, root, a + b).None? ==> Supply(s, mem, root, all).None?)
            && (Supply(s, mem, root, a + b + c).None? ==> Supply(s, mem, root, all).None?)
            && (Supply(s, mem, root, a + b + c + d).None? ==> Supply(s, mem, root, all).None?)
  {
    hide Supply;
    LessSupply(s, mem, root, a, b, c + d + e);
    LessSupply(s, mem, root, a + b + c, d, e);
    assert a + b + (c + d + e) == a + b + c + d + e;
  }

  lemma ThreeArePaths(kernel: Window, direct: Window, screen: Window)
    ensures var a, b, c := WindowWays(kernel), WindowWays(direct), WindowWays(screen);
            ArePaths(a) && ArePaths(b) && ArePaths(c) && ArePaths(a + b) && ArePaths(a + b + c)
  {
    hide WindowWays, IsPath;
    WindowWaysArePaths(kernel);
    WindowWaysArePaths(direct);
    WindowWaysArePaths(screen);
  }

  lemma FiveArePaths(kernel: Window, screen: Window, stack: Window, direct: Window, kstack: Window)
    ensures var a, b, c := WindowWays(kernel), WindowWays(screen), WindowWays(stack);
            var d, e := WindowWays(direct), WindowWays(kstack);
            && ArePaths(a) && ArePaths(b) && ArePaths(c) && ArePaths(d) && ArePaths(e)
            && ArePaths(a + b) && ArePaths(a + b + c) && ArePaths(a + b + c + d) && ArePaths(a + b + c + d + e)
    ensures ArePaths(FiveWays(kernel, screen, stack, direct, kstack))
  {
    hide WindowWays, IsPath;
    WindowWaysArePaths(kernel);
    WindowWaysArePaths(screen);
    WindowWaysArePaths(stack);
    WindowWaysArePaths(direct);
    WindowWaysArePaths(kstack);
  }

  /** Which tables a stack needs does not depend on where its memory is. */
  lemma StackWays(kernel: Window, screen: Window, addr: nat, direct: Window, kstack: Window)
    ensures FiveWays(kernel, screen, Stack(addr), direct, kstack) == FiveWays(kernel, screen, Stack(0), direct, kstack)
  {
    hide Way;
    SameWays(Stack(addr), Stack(0), Steps(Stack(0)));
  }

  lemma {:induction false} SameWays(v: Window, w: Window, k: nat)
    requires v.vbase == w.vbase
    ensures WaysOf(v, k) == WaysOf(w, k)
  {
    hide Way;
    if k > 0 {
      SameWays(v, w, k - 1);
    }
  }

  /** The three paths of a way, and what fails for fewer of them. */
  lemma WayParts(s: PhysicalPages.Pages, mem: Memory, root: nat, v: nat)
    ensures var p := [Index(v, 4)]; var q := p + [Index(v, 3)]; var z := q + [Index(v, 2)];
            && Way(v) == {p} + {q} + {z} && ArePaths({p}) && ArePaths({q}) && ArePaths({z}) && ArePaths({p} + {q})
            && (Supply(s, mem, root, {p}).None? ==> Supply(s, mem, root, Way(v)).None?)
            && (Supply(s, mem, root, {p} + {q}).None? ==> Supply(s, mem, root, Way(v)).None?)
  {
    var p := [Index(v, 4)];
    var q := p + [Index(v, 3)];
    assert q == [Index(v, 4), Index(v, 3)] && q + [Index(v, 2)] == [Index(v, 4), Index(v, 3), Index(v, 2)];
    ThreeSteps(v);
    hide Supply, Index;
    if Supply(s, mem, root, {p}).None? { SupplyMore(s, mem, root, {p}, Way(v)); }
    if Supply(s, mem, root, {p} + {q}).None? { SupplyMore(s, mem, root, {p} + {q}, Way(v)); }
  }

  /** A path is taken in mem' as in mem where no entry was overwritten. */
  lemma {:induction false} PathStays(mem: Memory, mem': Memory, tree: Forest, g: nat, q: seq<nat>)
    requires WellFormed(mem, tree) && g in tree && |q| < tree[g].level && (forall k | 0 <= k < |q| :: q[k] < ENTRIES)
    requires EntriesKept(mem, mem', tree) && Reached(mem, g, q)
    ensures Reached(mem', g, q) && TableAt(mem', g, q) == TableAt(mem, g, q)
    decreases |q|
  {
    if q != [] {
      SlotLeads(mem, tree, g, q[0]);
      PathStays(mem, mem', tree, FrameOf(EntryAt(mem, g, q[0])), q[1..]);
    }
  }

  lemma PathGrows(mem: Memory, mem': Memory, tree: Forest, root: nat, q: seq<nat>, f: nat, i: nat, c: nat)
    requires WellFormed(mem, tree) && IsRoot(tree, root) && |q| <= 2 && (forall k | 0 <= k < |q| :: q[k] < ENTRIES)
    requires Reached(mem, root, q) && TableAt(mem, root, q) == f && i < ENTRIES && Descended(mem, mem', tree, f, i, c)
    requires EntriesKept(mem, mem', tree) && EntryAt(mem', f, i) != 0
    ensures Grown(mem, mem', root, {q + [i]})
    ensures Reached(mem', root, q + [i]) && TableAt(mem', root, q + [i]) == FrameOf(EntryAt(mem', f, i))
  {
    hide WellFormed, EntriesKept, FrameOf, Reached, TableAt;
    PathStays(mem, mem', tree, root, q);
    ReachedOn(mem', root, q, i);
    ReachedOn(mem, root, q, i);
    PathArrives(mem, tree, root, q);
    forall p | IsPath(p) ensures Reached(mem', root, p) <==> Reached(mem, root, p) || p == q + [i] {
      if EntryAt(mem, f, i) == 0 {
        HangReached(mem, tree, f, i, c, root, p);
        EndsInIs(mem, tree, root, q, f, i, p);
      }
    }
  }

  lemma EndsInIs(mem: Memory, tree: Forest, root: nat, q: seq<nat>, f: nat, i: nat, p: seq<nat>)
    requires WellFormed(mem, tree) && IsRoot(tree, root) && |q| <= 2 && (forall k | 0 <= k < |q| :: q[k] < ENTRIES)
    requires Reached(mem, root, q) && TableAt(mem, root, q) == f && IsPath(p)
    ensures EndsIn(mem, root, p, f, i) <==> p == q + [i]
  {
    if EndsIn(mem, root, p, f, i) {
      OnePath(mem, tree, root, p[..|p| - 1], q);
      assert p == p[..|p| - 1] + [p[|p| - 1]];
    }
    if p == q + [i] {
      assert p[..|p| - 1] == q;
    }
  }

  lemma NothingChanged(mem: Memory, tree: Forest)
    ensures EntriesKept(mem, mem, tree)
  {
  }

  lemma EntryStays(mem: Memory, mem': Memory, tree: Forest, g: nat, k: nat)
    requires EntriesKept(mem, mem', tree) && g in tree && EntryAt(mem, g, k) != 0
    ensures EntryAt(mem', g, k) == EntryAt(mem, g, k)
  {
  }

  lemma ThreeSteps(v: nat)
    ensures forall level | 1 <= level <= 4 :: Index(v, level) < ENTRIES
  {
  }

  lemma PathLeads(mem: Memory, tree: Forest, root: nat, a: nat, b: nat, c: nat, v: nat)
    requires IsRoot(tree, root) && a in tree && tree[a].level == 3 && b in tree && tree[b].level == 2 && c in tree
               && tree[c].level == 1
    requires EntryAt(mem, root, Index(v, 4)) != 0 && FrameOf(EntryAt(mem, root, Index(v, 4))) == a
    requires EntryAt(mem, a, Index(v, 3)) != 0 && FrameOf(EntryAt(mem, a, Index(v, 3))) == b
    requires EntryAt(mem, b, Index(v, 2)) != 0 && FrameOf(EntryAt(mem, b, Index(v, 2))) == c
    ensures Leads(mem, tree, root, v, c)
  {
    assert Leads(mem, tree, c, v, c);
    assert Leads(mem, tree, b, v, c);
    assert Leads(mem, tree, a, v, c);
  }

  lemma TableFits(mem: Memory, tree: Forest, f: nat)
    requires WellFormed(mem, tree) && f in tree
    ensures f in mem && |mem[f]| == ENTRIES && 1 <= tree[f].level <= 4
  {
    assert TableOk(mem, tree, f);
  }

  lemma SlotHoldsTable(mem: Memory, tree: Forest, f: nat, i: nat)
    requires WellFormed(mem, tree) && f in tree && tree[f].level > 1 && i < ENTRIES
    ensures var e := EntryAt(mem, f, i);
            e != 0 ==> FrameOf(e) in tree && HangsAt(tree[FrameOf(e)], tree[f].level, f, i)
  {
    hide FrameOf, BitOr;
    assert TableOk(mem, tree, f);
    assert SlotOk(mem, tree, f, i);
    var e := EntryAt(mem, f, i);
    if e != 0 {
      assert TableOk(mem, tree, e - TABLE_FLAGS);
      TableEntry(e - TABLE_FLAGS);
    }
  }
}
