/** The address windows that src/mm/vmm.cpp and src/sched/task.cpp map page by page, as
    updates of a flat map, and why the two builders' different orders agree. */
module Windows {
  import opened Machine
  import opened PageTables

  /** length bytes of addresses from vbase on, mapped to pbase on. */
  datatype Window = Window(vbase: nat, pbase: nat, length: nat, flags: nat)

  /** Turns of: for (i = 0; i < length; i += 4096). */
  function Steps(w: Window): nat { (w.length + 4095) / 4096 }

  function KeyOf(w: Window, k: nat): nat { Page(Wrap(w.vbase + 4096 * k)) }

  function ValueOf(w: Window, k: nat): nat { BitOr(Wrap(w.pbase + 4096 * k), w.flags) }

  /** A flat map after k turns of the loop. */
  ghost function MapSteps(m: imap<nat, nat>, w: Window, k: nat): imap<nat, nat> {
    if k == 0 then m else MapSteps(m, w, k - 1)[KeyOf(w, k - 1) := ValueOf(w, k - 1)]
  }

  ghost function MapWindow(m: imap<nat, nat>, w: Window): imap<nat, nat> {
    MapSteps(m, w, Steps(w))
  }

  /** What k turns of the loop last wrote for page n. */
  function Hit(w: Window, n: nat, k: nat): Option<nat> {
    if k == 0 then None
    else if KeyOf(w, k - 1) == n then Some(ValueOf(w, k - 1))
    else Hit(w, n, k - 1)
  }

  function InWindow(w: Window, n: nat): Option<nat> { Hit(w, n, Steps(w)) }

  lemma {:induction false} MapStepsAt(m: imap<nat, nat>, w: Window, k: nat, n: nat)
    requires forall i | i in m :: i < PAGES
    requires n in m
    ensures n in MapSteps(m, w, k) && MapSteps(m, w, k)[n] == Hit(w, n, k).GetOr(m[n])
  {
    if k > 0 {
      MapStepsAt(m, w, k - 1, n);
    }
  }

  ghost predicate Total(m: imap<nat, nat>) { forall n: nat :: n in m <==> n < PAGES }

  lemma {:induction false} MapStepsTotal(m: imap<nat, nat>, w: Window, k: nat)
    requires Total(m)
    ensures Total(MapSteps(m, w, k))
  {
    if k > 0 {
      MapStepsTotal(m, w, k - 1);
    }
  }

  lemma MapWindowAt(m: imap<nat, nat>, w: Window, n: nat)
    requires Total(m) && n < PAGES
    ensures Total(MapWindow(m, w)) && MapWindow(m, w)[n] == InWindow(w, n).GetOr(m[n])
  {
    MapStepsTotal(m, w, Steps(w));
    MapStepsAt(m, w, Steps(w), n);
  }

  // ---------------------------------------------------------------- one window

  lemma KeyIsOffset(w: Window, k: nat)
    ensures KeyOf(w, k) == (w.vbase / 4096 + k) % PAGES
  {
    var x := w.vbase + 4096 * k;
    assert x / 4096 == w.vbase / 4096 + k;
    var y := x % TWO_64;
    assert x == TWO_64 * (x / TWO_64) + y;
    assert x / 4096 == 0x10_0000_0000_0000 * (x / TWO_64) + y / 4096;
    assert 0x10_0000_0000_0000 == PAGES * 0x1_0000;
  }

  /** A window no longer than the address space sends each of its pages to its own offset. */
  lemma {:induction false} WindowTranslates(w: Window, k: nat, turns: nat)
    requires k < turns <= PAGES
    ensures Hit(w, KeyOf(w, k), turns) == Some(ValueOf(w, k))
    decreases turns
  {
    hide KeyOf, ValueOf;
    if k < turns - 1 {
      DistinctKeys(w, k, turns - 1);
      WindowTranslates(w, k, turns - 1);
    }
  }

  lemma DistinctKeys(w: Window, j: nat, k: nat)
    requires j < k < PAGES
    ensures KeyOf(w, j) != KeyOf(w, k)
  {
    hide KeyOf;
    KeyIsOffset(w, j);
    KeyIsOffset(w, k);
    var b := w.vbase / 4096;
    assert b + j == PAGES * ((b + j) / PAGES) + (b + j) % PAGES;
    assert b + k == PAGES * ((b + k) / PAGES) + (b + k) % PAGES;
  }

  // ---------------------------------------------------------------- two builders

  const DIRECT_LENGTH: nat := 0x1_0000_0000
  const STACK_SIZE: nat := 65536
  const STACK_BASE: nat := 0xffff_a000_0000_0000
  const KSTACK_BASE: nat := 0xffff_d000_0000_0000
  const PRESENT_WRITE: nat := 3
  const PRESENT_WRITE_USER: nat := 7

  /** The low 4 GiB at the boot loader's offset. */
  function Direct(offset: nat): Window { Window(offset, 0, DIRECT_LENGTH, PRESENT_WRITE) }

  /** (DEFAULT_THREAD_STACK_SIZE + 4096) & ~4096 is the stack size itself. */
  function Stack(addr: nat): Window { Window(STACK_BASE, addr, STACK_SIZE, PRESENT_WRITE_USER) }

  /** One page more than the 16 KiB the stack has. */
  function KernelStack(addr: nat): Window { Window(KSTACK_BASE, addr, 16 * 1024 + 4096, PRESENT_WRITE) }

  ghost function KernelSpace(kernel: Window, direct: Window, screen: Window): imap<nat, nat> {
    MapWindow(MapWindow(MapWindow(NothingMapped(), kernel), direct), screen)
  }

  ghost function ThreadSpace(kernel: Window, direct: Window, screen: Window, stack: Window, kstack: Window)
    : imap<nat, nat>
  {
    MapWindow(MapWindow(MapWindow(MapWindow(MapWindow(NothingMapped(), kernel), screen), stack), direct), kstack)
  }

  /** n is a page of the kernel image, the direct map or the framebuffer. */
  predicate Shared(kernel: Window, direct: Window, screen: Window, n: nat) {
    InWindow(kernel, n).Some? || InWindow(direct, n).Some? || InWindow(screen, n).Some?
  }

  /** The thread's own windows keep off the shared ones. */
  ghost predicate OwnWindowsApart(kernel: Window, direct: Window, screen: Window, stack: Window, kstack: Window) {
    forall n: nat | n < PAGES && Shared(kernel, direct, screen, n) ::
        InWindow(stack, n).None? && InWindow(kstack, n).None?
  }

  /** Where both map a page, the framebuffer window and the direct map say the same. */
  ghost predicate ScreenAgrees(direct: Window, screen: Window) {
    forall n: nat | n < PAGES && InWindow(direct, n).Some? && InWindow(screen, n).Some? ::
      InWindow(direct, n) == InWindow(screen, n)
  }

  lemma SpacesAt(kernel: Window, direct: Window, screen: Window, stack: Window, kstack: Window, n: nat)
    requires n < PAGES
    ensures n in KernelSpace(kernel, direct, screen) && n in ThreadSpace(kernel, direct, screen, stack, kstack)
    ensures KernelSpace(kernel, direct, screen)[n] ==
              InWindow(screen, n).GetOr(InWindow(direct, n).GetOr(InWindow(kernel, n).GetOr(0)))
    ensures ThreadSpace(kernel, direct, screen, stack, kstack)[n] ==
              InWindow(kstack, n).GetOr(InWindow(direct, n).GetOr(InWindow(stack, n).GetOr(
                InWindow(screen, n).GetOr(InWindow(kernel, n).GetOr(0)))))
  {
    hide InWindow, MapWindow;
    var m0 := NothingMapped();
    MapWindowAt(m0, kernel, n);
    var m1 := MapWindow(m0, kernel);
    MapWindowAt(m1, direct, n);
    MapWindowAt(MapWindow(m1, direct), screen, n);
    MapWindowAt(m1, screen, n);
    var m2 := MapWindow(m1, screen);
    MapWindowAt(m2, stack, n);
    var m3 := MapWindow(m2, stack);
    MapWindowAt(m3, direct, n);
    MapWindowAt(MapWindow(m3, direct), kstack, n);
  }

  lemma BuildersAgreeByPage(kernel: Window, direct: Window, screen: Window, stack: Window, kstack: Window)
    requires OwnWindowsApart(kernel, direct, screen, stack, kstack)
    ensures SpacesAgree(kernel, direct, screen, stack, kstack) <==> ScreenAgrees(direct, screen)
  {
    hide InWindow, KernelSpace, ThreadSpace;
    forall n: nat | n < PAGES {
      SpacesAt(kernel, direct, screen, stack, kstack, n);
    }
  }

  // ---------------------------------------------------------------- by address

  /** How many pages after the window's first page n comes, round the address space. */
  function Offset(w: Window, n: nat): nat
    requires n < PAGES
  {
    (n + PAGES - Page(w.vbase)) % PAGES
  }

  /** How many pages after v's first page w begins. */
  function Distance(v: Window, w: Window): nat { Offset(v, Page(w.vbase)) }

  /** As ranges of addresses the two windows have a page in common. */
  predicate Meet(v: Window, w: Window) {
    Steps(v) > 0 && Steps(w) > 0 && (Distance(v, w) < Steps(v) || Distance(v, w) + Steps(w) > PAGES)
  }

  /** Turn k of the loop writes page n. */
  lemma KeyIsIff(w: Window, k: nat, n: nat)
    requires n < PAGES
    ensures KeyOf(w, k) == n <==> k % PAGES == Offset(w, n)
  {
    KeyIsOffset(w, k);
    var b := w.vbase / 4096;
    SameRemainder(b, k, n);
  }

  lemma SameRemainder(b: nat, k: nat, n: nat)
    requires n < PAGES
    ensures (b + k) % PAGES == n <==> k % PAGES == (n + PAGES - b % PAGES) % PAGES
  {
    var b', k' := b % PAGES, k % PAGES;
    assert (b + k) % PAGES == (b' + k') % PAGES by {
      ModOf(b + k, b' + k', b / PAGES + k / PAGES);
    }
    Small(b' + k');
    Small(n + PAGES - b');
  }

  lemma ModOf(x: nat, y: nat, q: nat)
    requires x == y + PAGES * q
    ensures x % PAGES == y % PAGES
  {
    assert y == PAGES * (y / PAGES) + y % PAGES;
    assert x == PAGES * (y / PAGES + q) + y % PAGES;
  }

  lemma Small(x: nat)
    requires x < 2 * PAGES
    ensures x % PAGES == if x < PAGES then x else x - PAGES
  {
  }

  /** What a window says of a page was written by the last turn that came to it. */
  lemma {:induction false} LastHit(w: Window, n: nat, turns: nat) returns (k: nat)
    ensures Hit(w, n, turns).None? ==> forall j | 0 <= j < turns :: KeyOf(w, j) != n
    ensures Hit(w, n, turns).Some? ==>
              && k < turns && KeyOf(w, k) == n && Hit(w, n, turns) == Some(ValueOf(w, k))
              && forall j | k < j < turns :: KeyOf(w, j) != n
  {
    hide KeyOf, ValueOf;
    k := 0;
    if turns > 0 {
      if KeyOf(w, turns - 1) == n {
        k := turns - 1;
      } else {
        k := LastHit(w, n, turns - 1);
      }
    }
  }

  /** A window has the pages whose offset in it is below its length. */
  lemma InWindowIff(w: Window, n: nat)
    requires n < PAGES
    ensures InWindow(w, n).Some? <==> Offset(w, n) < Steps(w)
    ensures Offset(w, n) < Steps(w) <= PAGES ==> InWindow(w, n) == Some(ValueOf(w, Offset(w, n)))
  {
    hide KeyOf, ValueOf, Offset, Steps;
    var o := Offset(w, n);
    OffsetBelow(w, n);
    KeyIsIff(w, o, n);
    Small(o);
    var k := LastHit(w, n, Steps(w));
    KeyIsIff(w, k, n);
    if k < PAGES {
      Small(k);
    }
  }

  lemma OffsetBelow(w: Window, n: nat)
    requires n < PAGES
    ensures Offset(w, n) < PAGES
  {
  }

  /** Offsets in two windows differ by the distance between the two. */
  lemma OffsetsDiffer(v: Window, w: Window, n: nat)
    requires n < PAGES
    ensures Offset(v, n) == if Distance(v, w) + Offset(w, n) < PAGES then Distance(v, w) + Offset(w, n)
                            else Distance(v, w) + Offset(w, n) - PAGES
  {
    var p, q := Page(v.vbase), Page(w.vbase);
    Small(n + PAGES - p);
    Small(n + PAGES - q);
    Small(q + PAGES - p);
  }

  /** Two windows share a page exactly when their address ranges do. */
  lemma MeetIff(v: Window, w: Window)
    ensures (exists n: nat :: n < PAGES && InWindow(v, n).Some? && InWindow(w, n).Some?) <==> Meet(v, w)
  {
    hide InWindow, Page;
    forall n: nat | n < PAGES && InWindow(v, n).Some? && InWindow(w, n).Some? ensures Meet(v, w) {
      InWindowIff(v, n);
      InWindowIff(w, n);
      OffsetsDiffer(v, w, n);
    }
    FirstPages(v, w);
    InWindowIff(v, Page(v.vbase));
    InWindowIff(w, Page(v.vbase));
    OffsetsDiffer(v, w, Page(v.vbase));
    InWindowIff(v, Page(w.vbase));
    InWindowIff(w, Page(w.vbase));
    if Meet(v, w) {
      if Distance(v, w) < Steps(v) {
        assert InWindow(v, Page(w.vbase)).Some? && InWindow(w, Page(w.vbase)).Some?;
      } else {
        assert InWindow(v, Page(v.vbase)).Some? && InWindow(w, Page(v.vbase)).Some?;
      }
    }
  }

  lemma FirstPages(v: Window, w: Window)
    ensures Page(v.vbase) < PAGES && Offset(v, Page(v.vbase)) == 0
    ensures Page(w.vbase) < PAGES && Offset(w, Page(w.vbase)) == 0
  {
  }

  /** The thread's own stacks lie off the kernel image, the direct map and the framebuffer. */
  predicate StacksApart(kernel: Window, direct: Window, screen: Window, stack: Window, kstack: Window) {
    && !Meet(kernel, stack) && !Meet(direct, stack) && !Meet(screen, stack)
    && !Meet(kernel, kstack) && !Meet(direct, kstack) && !Meet(screen, kstack)
  }

  lemma StacksApartIff(kernel: Window, direct: Window, screen: Window, stack: Window, kstack: Window)
    ensures StacksApart(kernel, direct, screen, stack, kstack) <==>
              OwnWindowsApart(kernel, direct, screen, stack, kstack)
  {
    hide InWindow, Meet;
    MeetIff(kernel, stack);
    MeetIff(direct, stack);
    MeetIff(screen, stack);
    MeetIff(kernel, kstack);
    MeetIff(direct, kstack);
    MeetIff(screen, kstack);
  }

  /** The screen window begins as far into the direct map as the framebuffer does into
      physical memory, give or take the three bytes that the flags cover. */
  predicate ThroughDirect(direct: Window, screen: Window) {
    && Distance(direct, screen) == screen.pbase / 4096 && screen.pbase % 4096 < 4
    && Distance(direct, screen) + Steps(screen) <= PAGES
  }

  /** x | present | readwrite */
  lemma OrThree(x: nat)
    ensures BitOr(x, 3) == 4 * (x / 4) + 3
  {
    hide BitOr;
    OrStep(x, 3);
    OrStep(x / 2, 1);
    BitOrZero(x / 2 / 2);
  }

  lemma OrStep(x: nat, y: nat)
    requires y % 2 == 1
    ensures BitOr(x, y) == 2 * BitOr(x / 2, y / 2) + 1
  {
  }

  lemma ValueIs(w: Window, k: nat)
    requires w.flags == PRESENT_WRITE && k < Steps(w) && w.pbase + w.length <= TWO_64
    ensures ValueOf(w, k) == 4096 * k + 4 * (w.pbase / 4) + 3
  {
    hide BitOr;
    assert w.pbase + 4096 * k < TWO_64;
    OrThree(w.pbase + 4096 * k);
  }

  /** The framebuffer window and the direct map say the same wherever they overlap exactly
      when they do not overlap or the one is part of the other. */
  lemma ScreenAgreesIff(offset: nat, screen: Window)
    requires screen.flags == PRESENT_WRITE && screen.pbase + screen.length <= TWO_64
    ensures ScreenAgrees(Direct(offset), screen) <==>
              !Meet(Direct(offset), screen) || ThroughDirect(Direct(offset), screen)
  {
    var direct := Direct(offset);
    MeetIff(direct, screen);
    if ThroughDirect(direct, screen) {
      forall n: nat | n < PAGES && InWindow(direct, n).Some? && InWindow(screen, n).Some?
        ensures InWindow(direct, n) == InWindow(screen, n)
      {
        AgreeThrough(direct, screen, n);
      }
    }
    if Meet(direct, screen) && !ThroughDirect(direct, screen) {
      var _ := Disagree(direct, screen);
    }
  }

  lemma AgreeThrough(direct: Window, screen: Window, n: nat)
    requires direct.length == DIRECT_LENGTH && direct.pbase == 0 && direct.flags == PRESENT_WRITE
    requires screen.flags == PRESENT_WRITE && screen.pbase + screen.length <= TWO_64 && ThroughDirect(direct, screen)
    requires n < PAGES && InWindow(direct, n).Some? && InWindow(screen, n).Some?
    ensures InWindow(direct, n) == InWindow(screen, n)
  {
    hide InWindow, ValueOf, Offset, Page;
    InWindowIff(direct, n);
    InWindowIff(screen, n);
    OffsetsDiffer(direct, screen, n);
    ValueIs(direct, Offset(direct, n));
    ValueIs(screen, Offset(screen, n));
    Quarters(screen.pbase);
  }

  lemma Quarters(p: nat)
    ensures p % 4096 < 4 ==> 4 * (p / 4) == 4096 * (p / 4096)
    ensures forall d: nat :: 4 * (p / 4) == 4096 * d ==> d == p / 4096 && p % 4096 < 4
  {
    forall d: nat | 4 * (p / 4) == 4096 * d ensures d == p / 4096 && p % 4096 < 4 {
      assert p == 4096 * d + p % 4;
    }
  }

  /** A page the two windows translate differently. */
  lemma Disagree(direct: Window, screen: Window) returns (n: nat)
    requires direct.length == DIRECT_LENGTH && direct.pbase == 0 && direct.flags == PRESENT_WRITE
    requires screen.flags == PRESENT_WRITE && screen.pbase + screen.length <= TWO_64
    requires Meet(direct, screen) && !ThroughDirect(direct, screen)
    ensures n < PAGES && InWindow(direct, n).Some? && InWindow(screen, n).Some?
    ensures InWindow(direct, n) != InWindow(screen, n)
  {
    hide ValueOf, Offset, Page, KeyOf;
    FirstPages(direct, screen);
    Quarters(screen.pbase);
    if Distance(direct, screen) + Steps(screen) <= PAGES {
      n := Page(screen.vbase);
      InWindowIff(direct, n);
      InWindowIff(screen, n);
      ValueIs(direct, Distance(direct, screen));
      ValueIs(screen, 0);
    } else {
      n := Page(direct.vbase);
      InWindowIff(direct, n);
      InWindowIff(screen, n);
      OffsetsDiffer(direct, screen, n);
      OffsetBelow(screen, n);
      OffsetBelow(direct, Page(screen.vbase));
      ValueIs(direct, 0);
      var k := LastHit(screen, n, Steps(screen));
      KeyIsIff(screen, k, n);
      if k == 0 {
        Small(PAGES);
        KeyIsIff(screen, PAGES, n);
        assert false;
      }
      ValueIs(screen, k);
    }
  }

  ghost predicate SpacesAgree(kernel: Window, direct: Window, screen: Window, stack: Window, kstack: Window) {
    forall n: nat | n < PAGES && Shared(kernel, direct, screen, n) ::
      && n in KernelSpace(kernel, direct, screen) && n in ThreadSpace(kernel, direct, screen, stack, kstack)
      && KernelSpace(kernel, direct, screen)[n] == ThreadSpace(kernel, direct, screen, stack, kstack)[n]
  }

  /** A thread's tables and the kernel's translate every shared page alike exactly when the
      framebuffer is mapped off the direct map or where the direct map has it anyway. */
  lemma BuildersAgreeIff(kernel: Window, offset: nat, screen: Window, stackAddr: nat, kstack: nat)
    requires screen.flags == PRESENT_WRITE && screen.pbase + screen.length <= TWO_64
    requires StacksApart(kernel, Direct(offset), screen, Stack(stackAddr), KernelStack(kstack))
    ensures SpacesAgree(kernel, Direct(offset), screen, Stack(stackAddr), KernelStack(kstack))
       <==> !Meet(Direct(offset), screen) || ThroughDirect(Direct(offset), screen)
  {
    hide Meet, ThroughDirect, SpacesAgree, ScreenAgrees, OwnWindowsApart, StacksApart;
    StacksApartIff(kernel, Direct(offset), screen, Stack(stackAddr), KernelStack(kstack));
    BuildersAgreeByPage(kernel, Direct(offset), screen, Stack(stackAddr), KernelStack(kstack));
    ScreenAgreesIff(offset, screen);
  }

  const HIGHER_HALF: nat := 0xffff_8000_0000_0000
  const KERNEL_BASE: nat := 0xffff_ffff_8000_0000

  /** The page number of a higher-half address. */
  lemma HighPage(a: nat)
    requires HIGHER_HALF <= a < TWO_64
    ensures Page(a) == a / 4096 - 0xf_fff0_0000_0000
  {
    ModOf(a / 4096, a / 4096 - 0xf_fff0_0000_0000, 0xffff);
  }

  /** Of two higher-half windows one after the other. */
  lemma InOrder(v: Window, w: Window)
    requires HIGHER_HALF <= v.vbase && w.vbase < TWO_64 && w.vbase / 4096 + Steps(w) <= 0x10_0000_0000_0000
    requires v.vbase / 4096 + Steps(v) <= w.vbase / 4096
    ensures !Meet(v, w) && !Meet(w, v)
  {
    hide Page, Steps;
    HighPage(v.vbase);
    HighPage(w.vbase);
    Small(Page(w.vbase) + PAGES - Page(v.vbase));
    Small(Page(v.vbase) + PAGES - Page(w.vbase));
  }

  /** The boot loader's layout: physical memory at the start of the higher half, the
      framebuffer seen through it below the stacks, the kernel in the last 2 GiB. */
  lemma UsualLayout(kernel: Window, base: nat, length: nat, stackAddr: nat, kstack: nat)
    requires base % 4096 == 0 && base + length <= STACK_BASE - HIGHER_HALF
    requires KERNEL_BASE <= kernel.vbase < TWO_64 && kernel.vbase + kernel.length <= TWO_64
    ensures var screen := Window(HIGHER_HALF + base, base, length, PRESENT_WRITE);
            && StacksApart(kernel, Direct(HIGHER_HALF), screen, Stack(stackAddr), KernelStack(kstack))
            && ThroughDirect(Direct(HIGHER_HALF), screen)
  {
    hide Page, Meet, Offset;
    var screen := Window(HIGHER_HALF + base, base, length, PRESENT_WRITE);
    InOrder(Direct(HIGHER_HALF), Stack(stackAddr));
    InOrder(Direct(HIGHER_HALF), KernelStack(kstack));
    InOrder(screen, Stack(stackAddr));
    InOrder(screen, KernelStack(kstack));
    InOrder(Stack(stackAddr), kernel);
    InOrder(KernelStack(kstack), kernel);
    ThroughFromTheStart(screen);
  }

  lemma ThroughFromTheStart(screen: Window)
    requires screen.vbase == HIGHER_HALF + screen.pbase && screen.pbase % 4096 == 0
    requires screen.pbase + screen.length <= STACK_BASE - HIGHER_HALF
    ensures ThroughDirect(Direct(HIGHER_HALF), screen)
  {
    hide Page;
    HighPage(HIGHER_HALF);
    if screen.vbase < TWO_64 {
      HighPage(screen.vbase);
    }
    Small(Page(screen.vbase) + PAGES - Page(HIGHER_HALF));
  }

  /** Elsewhere in the direct map it is not: a framebuffer at 0xe0000000 shown at the
      direct map's first page. */
  lemma BuildersCanDisagree(stackAddr: nat, kstack: nat)
    ensures var kernel := Window(KERNEL_BASE, 0x20_0000, 4096, PRESENT_WRITE);
            var screen := Window(HIGHER_HALF, 0xe000_0000, 4096, PRESENT_WRITE);
            && StacksApart(kernel, Direct(HIGHER_HALF), screen, Stack(stackAddr), KernelStack(kstack))
            && !SpacesAgree(kernel, Direct(HIGHER_HALF), screen, Stack(stackAddr), KernelStack(kstack))
  {
    hide Page, Meet, Offset, SpacesAgree;
    var kernel := Window(KERNEL_BASE, 0x20_0000, 4096, PRESENT_WRITE);
    var screen := Window(HIGHER_HALF, 0xe000_0000, 4096, PRESENT_WRITE);
    InOrder(Direct(HIGHER_HALF), Stack(stackAddr));
    InOrder(Direct(HIGHER_HALF), KernelStack(kstack));
    InOrder(screen, Stack(stackAddr));
    InOrder(screen, KernelStack(kstack));
    InOrder(Stack(stackAddr), kernel);
    InOrder(KernelStack(kstack), kernel);
    SamePlace(Direct(HIGHER_HALF), screen);
    BuildersAgreeIff(kernel, HIGHER_HALF, screen, stackAddr, kstack);
  }

  lemma SamePlace(v: Window, w: Window)
    requires v.vbase == w.vbase && Steps(v) > 0 && Steps(w) > 0
    ensures Distance(v, w) == 0 && Meet(v, w)
  {
  }

  // ---------------------------------------------------------------- where pages lead

  /** Turn k's page has turn k's value in the window. */
  lemma TurnLeads(w: Window, k: nat)
    requires k < Steps(w) <= PAGES
    ensures Page(Wrap(w.vbase + 4096 * k)) < PAGES
    ensures InWindow(w, Page(Wrap(w.vbase + 4096 * k))) == Some(ValueOf(w, k))
  {
    WindowTranslates(w, k, Steps(w));
  }

  /** Turns of a page-aligned window that may also be written to by user code. */
  lemma UserValueIs(addr: nat, k: nat)
    requires k < 16 && addr % 4096 == 0 && addr + 65536 <= TWO_64
    ensures ValueOf(Stack(addr), k) == addr + 4096 * k + 7
  {
    hide BitOr;
    var q := addr / 4096;
    assert addr + 4096 * k == 8 * (512 * (q + k));
    OrSeven(512 * (q + k));
  }

  /** What keeps off a page's window does not map the page. */
  lemma ApartAt(v: Window, w: Window, n: nat)
    requires !Meet(v, w) && n < PAGES && InWindow(w, n).Some?
    ensures InWindow(v, n).None?
  {
    hide Meet, InWindow;
    MeetIff(v, w);
  }

  /** Page k of a thread's stack leads to page k of the memory allocated for it, present,
      writable and open to user code, exactly when the direct map does not cover it. */
  lemma StackPageLeads(kernel: Window, offset: nat, screen: Window, addr: nat, kstack: nat, k: nat)
    requires k < 16 && addr % 4096 == 0 && addr + 65536 <= TWO_64
    ensures var n := Page(0xffff_a000_0000_0000 + 4096 * k);
            var space := ThreadSpace(kernel, Direct(offset), screen, Stack(addr), KernelStack(kstack));
            n < PAGES && n in space && (space[n] == addr + 4096 * k + 7 <==> InWindow(Direct(offset), n).None?)
  {
    hide ThreadSpace, Page, ValueOf, InWindow, Meet, BitOr, Offset;
    var n := Page(0xffff_a000_0000_0000 + 4096 * k);
    assert Wrap(STACK_BASE + 4096 * k) == 0xffff_a000_0000_0000 + 4096 * k;
    TurnLeads(Stack(addr), k);
    UserValueIs(addr, k);
    SpacesAt(kernel, Direct(offset), screen, Stack(addr), KernelStack(kstack), n);
    InOrder(Stack(addr), KernelStack(kstack));
    ApartAt(KernelStack(kstack), Stack(addr), n);
    InWindowIff(Direct(offset), n);
    if InWindow(Direct(offset), n).Some? {
      ValueIs(Direct(offset), Offset(Direct(offset), n));
    }
  }

  /** So the whole stack is mapped to its memory exactly when the direct map lies elsewhere. */
  lemma StackLeadsIff(kernel: Window, offset: nat, screen: Window, addr: nat, kstack: nat)
    requires addr % 4096 == 0 && addr + 65536 <= TWO_64
    ensures StackMapped(ThreadSpace(kernel, Direct(offset), screen, Stack(addr), KernelStack(kstack)), addr)
       <==> !Meet(Direct(offset), Stack(addr))
  {
    hide ThreadSpace, InWindow, Meet, StackPageMapped;
    var space := ThreadSpace(kernel, Direct(offset), screen, Stack(addr), KernelStack(kstack));
    MeetIff(Direct(offset), Stack(addr));
    if Meet(Direct(offset), Stack(addr)) {
      var n: nat :| n < PAGES && InWindow(Direct(offset), n).Some? && InWindow(Stack(addr), n).Some?;
      var k := TurnOfStackLeads(addr, n);
      StackPageMappedIff(kernel, offset, screen, addr, kstack, k);
      assert !StackPageMapped(space, addr, k);
    } else {
      forall k: nat | k < 16 ensures StackPageMapped(space, addr, k) {
        StackPageMappedIff(kernel, offset, screen, addr, kstack, k);
      }
    }
  }

  lemma TurnOfStackLeads(addr: nat, n: nat) returns (k: nat)
    requires n < PAGES && InWindow(Stack(addr), n).Some?
    ensures k < 16 && n == Page(0xffff_a000_0000_0000 + 4096 * k)
  {
    k := LastHit(Stack(addr), n, 16);
  }

  lemma StackPageMappedIff(kernel: Window, offset: nat, screen: Window, addr: nat, kstack: nat, k: nat)
    requires k < 16 && addr % 4096 == 0 && addr + 65536 <= TWO_64
    ensures var n := Page(0xffff_a000_0000_0000 + 4096 * k);
            && n < PAGES && InWindow(Stack(addr), n).Some?
            && (StackPageMapped(ThreadSpace(kernel, Direct(offset), screen, Stack(addr), KernelStack(kstack)), addr, k)
                <==> InWindow(Direct(offset), n).None?)
  {
    hide ThreadSpace, Page, ValueOf, InWindow;
    assert Wrap(STACK_BASE + 4096 * k) == 0xffff_a000_0000_0000 + 4096 * k;
    TurnLeads(Stack(addr), k);
    StackPageLeads(kernel, offset, screen, addr, kstack, k);
  }

  /** The 16 pages from 0xffffa00000000000 on, present, writable and open to user code. */
  ghost predicate StackMapped(space: imap<nat, nat>, addr: nat) {
    forall k: nat | k < 16 :: StackPageMapped(space, addr, k)
  }

  ghost predicate StackPageMapped(space: imap<nat, nat>, addr: nat, k: nat) {
    var n := Page(0xffff_a000_0000_0000 + 4096 * k);
    n in space && space[n] == addr + 4096 * k + 7
  }

  lemma KernelValueIs(kstack: nat, k: nat)
    requires k < 5 && kstack % 4096 == 0 && kstack + 0x5000 <= TWO_64
    ensures ValueOf(KernelStack(kstack), k) == kstack + 4096 * k + 3
  {
    hide ValueOf;
    ValueIs(KernelStack(kstack), k);
    WholeQuarters(kstack);
  }

  lemma WholeQuarters(x: nat)
    requires x % 4096 == 0
    ensures 4 * (x / 4) == x
  {
    var q := x / 4096;
    assert x == 4 * (1024 * q);
  }

  /** Page k of the five that are mapped for the kernel stack, present and writable. */
  lemma KernelStackPageLeads(kernel: Window, offset: nat, screen: Window, addr: nat, kstack: nat, k: nat)
    requires k < 5 && kstack % 4096 == 0 && kstack + 0x5000 <= TWO_64
    ensures var n := Page(0xffff_d000_0000_0000 + 4096 * k);
            var space := ThreadSpace(kernel, Direct(offset), screen, Stack(addr), KernelStack(kstack));
            n < PAGES && n in space && space[n] == kstack + 4096 * k + 3
  {
    hide ThreadSpace, Page, ValueOf, InWindow;
    assert Wrap(KSTACK_BASE + 4096 * k) == 0xffff_d000_0000_0000 + 4096 * k;
    TurnLeads(KernelStack(kstack), k);
    KernelValueIs(kstack, k);
    SpacesAt(kernel, Direct(offset), screen, Stack(addr), KernelStack(kstack),
             Page(0xffff_d000_0000_0000 + 4096 * k));
  }

  /** Page k of physical memory below 4 GiB is at the offset, in the kernel's tables and in
      every thread's, unless the framebuffer or a kernel stack is in its place. */
  lemma DirectPageLeads(kernel: Window, offset: nat, screen: Window, addr: nat, kstack: nat, k: nat)
    requires k < 0x10_0000
    requires !Meet(KernelStack(kstack), Direct(offset)) && !Meet(screen, Direct(offset))
    ensures var n := Page(Wrap(offset + 4096 * k));
            && n < PAGES && n in KernelSpace(kernel, Direct(offset), screen)
            && n in ThreadSpace(kernel, Direct(offset), screen, Stack(addr), KernelStack(kstack))
            && KernelSpace(kernel, Direct(offset), screen)[n] == 4096 * k + 3
            && ThreadSpace(kernel, Direct(offset), screen, Stack(addr), KernelStack(kstack))[n] == 4096 * k + 3
  {
    hide ThreadSpace, KernelSpace, Page, ValueOf, InWindow, Meet;
    var n := Page(Wrap(offset + 4096 * k));
    TurnLeads(Direct(offset), k);
    ValueIs(Direct(offset), k);
    SpacesAt(kernel, Direct(offset), screen, Stack(addr), KernelStack(kstack), n);
    ApartAt(KernelStack(kstack), Direct(offset), n);
    ApartAt(screen, Direct(offset), n);
  }

  /** The kernel image where nothing else is mapped. */
  lemma ImagePageLeads(kernel: Window, offset: nat, screen: Window, addr: nat, kstack: nat, k: nat)
    requires kernel.flags == PRESENT_WRITE && k < Steps(kernel) <= PAGES
    requires kernel.pbase % 4 == 0 && kernel.pbase + kernel.length <= TWO_64
    requires !Meet(Direct(offset), kernel) && !Meet(screen, kernel)
    requires !Meet(Stack(addr), kernel) && !Meet(KernelStack(kstack), kernel)
    ensures var n := Page(Wrap(kernel.vbase + 4096 * k));
            && n < PAGES && n in KernelSpace(kernel, Direct(offset), screen)
            && n in ThreadSpace(kernel, Direct(offset), screen, Stack(addr), KernelStack(kstack))
            && KernelSpace(kernel, Direct(offset), screen)[n] == kernel.pbase + 4096 * k + 3
            && ThreadSpace(kernel, Direct(offset), screen, Stack(addr), KernelStack(kstack))[n] ==
                 kernel.pbase + 4096 * k + 3
  {
    hide ThreadSpace, KernelSpace, Page, ValueOf, InWindow, Meet, Steps;
    var n := Page(Wrap(kernel.vbase + 4096 * k));
    TurnLeads(kernel, k);
    ValueIs(kernel, k);
    SpacesAt(kernel, Direct(offset), screen, Stack(addr), KernelStack(kstack), n);
    ApartAt(Direct(offset), kernel, n);
    ApartAt(screen, kernel, n);
    ApartAt(Stack(addr), kernel, n);
    ApartAt(KernelStack(kstack), kernel, n);
  }

  /** The framebuffer in the kernel's tables, whatever else is mapped there. */
  lemma ScreenPageLeads(kernel: Window, direct: Window, screen: Window, k: nat)
    requires screen.flags == PRESENT_WRITE && k < Steps(screen) <= PAGES
    requires screen.pbase % 4 == 0 && screen.pbase + screen.length <= TWO_64
    ensures var n := Page(Wrap(screen.vbase + 4096 * k));
            && n < PAGES && n in KernelSpace(kernel, direct, screen)
            && KernelSpace(kernel, direct, screen)[n] == screen.pbase + 4096 * k + 3
  {
    hide ThreadSpace, KernelSpace, Page, ValueOf, InWindow, Steps;
    TurnLeads(screen, k);
    ValueIs(screen, k);
    SpacesAt(kernel, direct, screen, screen, screen, Page(Wrap(screen.vbase + 4096 * k)));
  }
}
