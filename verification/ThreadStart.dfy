/** What a new thread finds in its own tables: the stack its first context points to, the
    kernel stack, and the low memory that every address space shows. */
module ThreadStart {
  import opened Machine
  import opened PageTables
  import opened Windows
  import PhysicalPages
  import PhysicalPagesProofs
  import opened PhysicalMemory
  import opened VirtualMemory
  import opened SchedulerModel

  /** spaces holds the tables of a thread whose stack's memory is at stackAddr. */
  ghost predicate HasTables(spaces: AddressSpaces, root: nat, kernel: Window, offset: nat, screen: Window,
                            stackAddr: nat, kstack: nat)
    reads spaces, spaces.pmm, spaces.pmm.buffer
  {
    && IsRoot(spaces.tree, root)
    && Flat(spaces.frames, root) == ThreadSpace(kernel, Direct(offset), screen, Stack(stackAddr), KernelStack(kstack))
    && stackAddr % PAGE_SIZE == 0 && stackAddr / PAGE_SIZE in spaces.pmm.live
    && spaces.pmm.live[stackAddr / PAGE_SIZE] == 65536
    && spaces.Valid()
  }

  /** v leads to the page at phys, and the tables grant exactly these rights to it. */
  ghost predicate LeadsTo(mem: Memory, root: nat, v: nat, phys: nat, user: bool) {
    && phys % PAGE_SIZE == 0 && FrameOf(Walk(mem, root, 4, v)) == phys
    && Granted(mem, root, 4, v, PRESENT) && Granted(mem, root, 4, v, WRITE)
    && (Granted(mem, root, 4, v, USER) <==> user)
  }

  lemma EntryLeads(mem: Memory, tree: Forest, root: nat, v: nat, phys: nat, user: bool)
    requires WellFormed(mem, tree) && IsRoot(tree, root) && phys % PAGE_SIZE == 0 && phys < TWO_63
    requires Walk(mem, root, 4, v) == phys + if user then 7 else 3
    ensures LeadsTo(mem, root, v, phys, user)
  {
    hide Walk, WellFormed, Granted, FrameOf;
    RightsAreTheLeafs(mem, tree, root, v, PRESENT);
    RightsAreTheLeafs(mem, tree, root, v, WRITE);
    RightsAreTheLeafs(mem, tree, root, v, USER);
    LeafBits(phys);
  }

  lemma LeafBits(phys: nat)
    requires phys % PAGE_SIZE == 0 && phys < TWO_63
    ensures FrameOf(phys + 7) == phys && FrameOf(phys + 3) == phys
    ensures (phys + 7) % 2 == (phys + 7) / 2 % 2 == (phys + 7) / 4 % 2 == 1
    ensures (phys + 3) % 2 == (phys + 3) / 2 % 2 == 1 && (phys + 3) / 4 % 2 == 0
  {
    hide FrameOf;
    TableEntry(phys);
    var q := phys / 4096;
    Remains(phys, q);
    LowBits(phys + 7);
    Halves(phys + 3, 2048 * q + 1);
    Halves((phys + 3) / 2, 1024 * q);
    Quarter(phys + 3);
  }

  lemma Remains(phys: nat, q: nat)
    requires phys == 4096 * q && phys < TWO_63
    ensures FrameOf(phys + 3) == phys && (phys + 7) % 4096 == 7
    ensures 1024 * q % 2 == 0
  {
    assert (phys + 3) % TWO_63 == phys + 3;
    assert (phys + 3) / 128 == 32 * q;
  }

  lemma PageAbove(base: nat, k: nat, d: nat)
    requires base % 4096 == 0 && d < 4096
    ensures PageTables.Page(base + 4096 * k + d) == PageTables.Page(base + 4096 * k)
  {
    var q := base / 4096;
    assert (base + 4096 * k + d) / 4096 == q + k;
    assert base + 4096 * k == 4096 * (q + k);
  }

  lemma StackIsBounded(spaces: AddressSpaces, stackAddr: nat)
    requires stackAddr % PAGE_SIZE == 0 && stackAddr / PAGE_SIZE in spaces.pmm.live
    requires spaces.pmm.live[stackAddr / PAGE_SIZE] == 65536 && spaces.Valid()
    ensures stackAddr + 65536 * PAGE_SIZE <= spaces.pmm.highestAddr <= TWO_63
    ensures WellFormed(spaces.frames, spaces.tree)
  {
    hide WellFormed;
    assert stackAddr == PAGE_SIZE * (stackAddr / PAGE_SIZE);
  }

  /** Every address of a thread's stack leads to its own place in the memory allocated for the
      stack, writable and open to user code, unless the direct map lies there. */
  lemma StackLeads(spaces: AddressSpaces, root: nat, kernel: Window, offset: nat, screen: Window, stackAddr: nat,
                   kstack: nat, k: nat, d: nat)
    requires HasTables(spaces, root, kernel, offset, screen, stackAddr, kstack)
    requires !Meet(Direct(offset), Stack(stackAddr)) && k < 16 && d < 4096
    ensures LeadsTo(spaces.frames, root, 0xffff_a000_0000_0000 + 4096 * k + d, stackAddr + 4096 * k, true)
  {
    hide ThreadSpace, Walk, WellFormed, LeadsTo, PageTables.Page, Meet, PhysicalPages.Owned, Flat;
    var v := 0xffff_a000_0000_0000 + 4096 * k + d;
    StackIsBounded(spaces, stackAddr);
    StackLeadsIff(kernel, offset, screen, stackAddr, kstack);
    StackPageIs(ThreadSpace(kernel, Direct(offset), screen, Stack(stackAddr), KernelStack(kstack)), stackAddr, k);
    PageAbove(0xffff_a000_0000_0000, k, d);
    FlatIsTheWalk(spaces.frames, root, v);
    StillAligned(stackAddr, k);
    EntryLeads(spaces.frames, spaces.tree, root, v, stackAddr + 4096 * k, true);
  }

  lemma StillAligned(addr: nat, k: nat)
    requires addr % 4096 == 0
    ensures (addr + 4096 * k) % 4096 == 0
  {
  }

  lemma StackPageIs(space: imap<nat, nat>, addr: nat, k: nat)
    requires StackMapped(space, addr) && k < 16
    ensures var n := PageTables.Page(0xffff_a000_0000_0000 + 4096 * k);
            n in space && space[n] == addr + 4096 * k + 7
  {
    assert StackPageMapped(space, addr, k);
  }

  /** A new thread's first push goes to the last page of its stack's memory. */
  lemma FirstPushLands(spaces: AddressSpaces, root: nat, kernel: Window, offset: nat, screen: Window, stackAddr: nat,
                       kstack: nat, c: Regs, entry: nat, isUser: bool)
    requires HasTables(spaces, root, kernel, offset, screen, stackAddr, kstack)
    requires !Meet(Direct(offset), Stack(stackAddr))
    requires c == InitialContext(entry, isUser)
    ensures LeadsTo(spaces.frames, root, c.rsp - 8, stackAddr + 0xf000, true)
  {
    hide LeadsTo, HasTables, Meet;
    StackLeads(spaces, root, kernel, offset, screen, stackAddr, kstack, 15, 4088);
  }

  /** No page that a thread's stack leads to holds a table of any address space. */
  lemma StackHoldsNoTable(spaces: AddressSpaces, root: nat, kernel: Window, offset: nat, screen: Window,
                          stackAddr: nat, kstack: nat, f: nat)
    requires HasTables(spaces, root, kernel, offset, screen, stackAddr, kstack)
    requires f in spaces.tree
    ensures f + PAGE_SIZE <= stackAddr || stackAddr + 65536 <= f
  {
    hide ThreadSpace, Flat, PhysicalPages.Owned;
    var live := spaces.pmm.live;
    PhysicalPagesProofs.LiveIsApart(spaces.pmm.View(), spaces.pmm.reserved, live, stackAddr / PAGE_SIZE);
    assert f % PAGE_SIZE == 0 by { assert TableOk(spaces.frames, spaces.tree, f); }
    assert live[f / PAGE_SIZE] == 1;
  }

  /** Every address of the kernel stack leads to its place there, and user code is kept out. */
  lemma KernelStackLeads(spaces: AddressSpaces, root: nat, kernel: Window, offset: nat, screen: Window,
                         stackAddr: nat, kstack: nat, k: nat, d: nat)
    requires HasTables(spaces, root, kernel, offset, screen, stackAddr, kstack)
    requires kstack % 4096 == 0 && kstack + 0x5000 <= TWO_63 && k < 5 && d < 4096
    ensures LeadsTo(spaces.frames, root, 0xffff_d000_0000_0000 + 4096 * k + d, kstack + 4096 * k, false)
  {
    hide ThreadSpace, Walk, WellFormed, LeadsTo, PageTables.Page, Meet, PhysicalPages.Owned, Flat;
    var v := 0xffff_d000_0000_0000 + 4096 * k + d;
    StackIsBounded(spaces, stackAddr);
    KernelStackPageLeads(kernel, offset, screen, stackAddr, kstack, k);
    PageAbove(0xffff_d000_0000_0000, k, d);
    FlatIsTheWalk(spaces.frames, root, v);
    StillAligned(kstack, k);
    EntryLeads(spaces.frames, spaces.tree, root, v, kstack + 4096 * k, false);
  }

  /** A thread sees each physical page below 4 GiB at the boot loader's offset from it, closed
      to user code, unless its kernel stack or the framebuffer is in the way. */
  lemma LowMemoryLeads(spaces: AddressSpaces, root: nat, kernel: Window, offset: nat, screen: Window,
                       stackAddr: nat, kstack: nat, phys: nat)
    requires HasTables(spaces, root, kernel, offset, screen, stackAddr, kstack)
    requires !Meet(KernelStack(kstack), Direct(offset)) && !Meet(screen, Direct(offset))
    requires phys < 0x1_0000_0000 && phys % 4096 == 0
    ensures LeadsTo(spaces.frames, root, Wrap(offset + phys), phys, false)
  {
    hide ThreadSpace, KernelSpace, Walk, WellFormed, LeadsTo, PageTables.Page, Meet, PhysicalPages.Owned, Flat, Wrap;
    StackIsBounded(spaces, stackAddr);
    var k := phys / 4096;
    assert phys == 4096 * k;
    DirectPageLeads(kernel, offset, screen, stackAddr, kstack, k);
    FlatIsTheWalk(spaces.frames, root, Wrap(offset + phys));
    EntryLeads(spaces.frames, spaces.tree, root, Wrap(offset + phys), phys, false);
  }
}
