/** What the heap invariant of HeapModel means, and that every history of calls keeps it. */
module HeapTheorems {
  import opened Machine
  import opened HeapModel
  import opened HeapSteps
  import opened HeapKeepers
  import opened HeapOperations

  // ---------------------------------------------------------------- tiling

  /** The blocks from a to the end of its region, along split_right. */
  ghost function Chain(h: Heap, a: int): seq<int>
    requires Tiled(h) && a in h.blocks
    decreases assert Linked(h, a); End(h, h.blocks[a].base) - a
  {
    assert Linked(h, a);
    var r := h.blocks[a].right;
    if r == 0 then [a] else assert Linked(h, r); [a] + Chain(h, r)
  }

  ghost predicate AllBlocks(h: Heap, s: seq<int>) {
    forall j | 0 <= j < |s| :: s[j] in h.blocks
  }

  ghost function TotalSize(h: Heap, s: seq<int>): int
    requires AllBlocks(h, s)
  {
    if s == [] then 0 else h.blocks[s[0]].realSize + TotalSize(h, s[1..])
  }

  /** Each block ends where the next begins, and names it and is named by it. */
  ghost predicate Abutting(h: Heap, s: seq<int>)
    requires AllBlocks(h, s)
  {
    forall j | 0 <= j < |s| - 1 ::
      && s[j + 1] == s[j] + h.blocks[s[j]].realSize
      && h.blocks[s[j]].right == s[j + 1] && h.blocks[s[j + 1]].left == s[j]
  }

  lemma {:induction false} ChainAbuts(h: Heap, a: int)
    requires Tiled(h) && a in h.blocks
    ensures var c := Chain(h, a); var base := h.blocks[a].base;
            && base in h.regions && c != [] && c[0] == a && AllBlocks(h, c)
            && (forall j | 0 <= j < |c| :: h.blocks[c[j]].base == base)
            && Abutting(h, c)
            && TotalSize(h, c) == End(h, base) - a
    decreases assert Linked(h, a); End(h, h.blocks[a].base) - a
  {
    assert Linked(h, a);
    var r := h.blocks[a].right;
    if r != 0 {
      assert Linked(h, r);
      ChainAbuts(h, r);
      hide Tiled;
      LongerChain(h, a, Chain(h, r));
    }
  }

  lemma LongerChain(h: Heap, a: int, rest: seq<int>)
    requires a in h.blocks && Linked(h, a) && h.blocks[a].right != 0
    requires rest != [] && rest[0] == h.blocks[a].right && AllBlocks(h, rest) && Abutting(h, rest)
    requires forall j | 0 <= j < |rest| :: h.blocks[rest[j]].base == h.blocks[a].base
    ensures var c := [a] + rest;
            && AllBlocks(h, c) && Abutting(h, c)
            && (forall j | 0 <= j < |c| :: h.blocks[c[j]].base == h.blocks[a].base)
            && TotalSize(h, c) == h.blocks[a].realSize + TotalSize(h, rest)
  {
    var c := [a] + rest;
    assert c[1..] == rest;
    assert forall j | 1 <= j < |c| :: c[j] == rest[j - 1];
  }

  /** No block of the region from a on is left out of the chain. */
  lemma {:induction false} ChainCovers(h: Heap, a: int, x: int)
    requires Tiled(h) && a in h.blocks && x in h.blocks
    requires h.blocks[x].base == h.blocks[a].base && a <= x
    ensures x in Chain(h, a)
    decreases assert Linked(h, a); End(h, h.blocks[a].base) - a
  {
    assert Linked(h, a) && Linked(h, x);
    var r := h.blocks[a].right;
    if x != a {
      assert a + h.blocks[a].realSize <= x;
      assert Linked(h, r);
      ChainCovers(h, r, x);
    }
  }

  /** Every region is tiled exactly by the split chain that starts at its base. */
  lemma RegionsAreTiledExactly(h: Heap, base: int)
    requires Inv(h) && base in h.regions
    ensures base in h.blocks
    ensures var c := Chain(h, base);
            && c != [] && c[0] == base && AllBlocks(h, c)
            && (forall x :: x in c <==> x in h.blocks && h.blocks[x].base == base)
            && Abutting(h, c)
            && TotalSize(h, c) == 4096 * h.regions[base]
  {
    hide Listed, Sized, Coalesced, FewStandby;
    ChainAbuts(h, base);
    forall x | x in h.blocks && h.blocks[x].base == base ensures x in Chain(h, base) {
      assert Linked(h, x);
      ChainCovers(h, base, x);
    }
  }

  // ---------------------------------------------------------------- memory

  /** Half-open address ranges. */
  predicate Apart(lo1: int, hi1: int, lo2: int, hi2: int) { hi1 <= lo2 || hi2 <= lo1 }

  /** Payload of a: inside its region, off every header, off every other payload. */
  lemma PayloadsAndHeadersAreApart(h: Heap, a: int, b: int)
    requires Inv(h) && Live(h, a) && b in h.blocks
    ensures var k := h.blocks[a]; var p := a + TAG_SIZE;
            && k.base in h.regions
            && k.base < p && p + k.size <= End(h, k.base)
            && k.size <= k.realSize - TAG_SIZE
            && Apart(p, p + k.size, b, b + TAG_SIZE)
            && (a != b ==> Apart(a, a + TAG_SIZE, b, b + TAG_SIZE))
            && (a != b && Live(h, b) ==> Apart(p, p + k.size, b + TAG_SIZE, b + TAG_SIZE + h.blocks[b].size))
  {
    hide Listed, Coalesced, FewStandby;
    assert Linked(h, a) && Linked(h, b);
  }

  /** On list i > 8 a block has 2^i up to 2^(i+1) bytes of room; list 8 also takes less. */
  lemma FreeBlocksSuitTheirLists(h: Heap, i: int, a: int)
    requires Inv(h) && 0 <= i < MAX_EXP && a in h.lists[i]
    ensures MIN_EXP <= i && a in h.blocks && h.blocks[a].index == i
    ensures h.blocks[a].realSize - TAG_SIZE < Pow2(i + 1)
    ensures i > MIN_EXP || h.blocks[a].realSize - TAG_SIZE >= 256 ==> Pow2(i) <= h.blocks[a].realSize - TAG_SIZE
  {
    hide Tiled, Coalesced, FewStandby;
    TiledFacts(h);
    BucketBounds(h.blocks[a].realSize - TAG_SIZE);
  }

  // ---------------------------------------------------------------- regions

  /** The page count free computes from real_size when it returns a region. */
  function ReturnedPages(realSize: int): int {
    var pages := realSize / 4096 + if realSize % 4096 != 0 then 1 else 0;
    if pages < MIN_PAGES then MIN_PAGES else pages
  }

  lemma SettleReturnsExactly(h: Heap, a: int)
    requires Inv(h) && Live(h, a) && PutReady(h, a)
    ensures Returns(h, a) ==> a in h.regions && ReturnedPages(h.blocks[a].realSize) == h.regions[a]
                              && Settle(h, a).regions == h.regions - {a}
    ensures !Returns(h, a) ==> Settle(h, a).regions == h.regions
  {
    hide Listed, Sized, Coalesced, FewStandby;
    assert Linked(h, a);
  }

  /** free gives back one region, whole, by the base and page count it was obtained with,
      or none. */
  lemma FreeReturnsExactly(h: Heap, a: int)
    requires Inv(h) && Live(h, a)
    ensures FreeReady(h, a)
    ensures var m := Merge(h, a);
            if Returns(m.heap, m.tag)
            then m.tag in h.regions && ReturnedPages(m.heap.blocks[m.tag].realSize) == h.regions[m.tag]
                 && Free(h, a).regions == h.regions - {m.tag}
            else Free(h, a).regions == h.regions
  {
    hide Inv, NeighboursLive, Settle;
    FreeKeepsInv(h, a);
    MergeIsMaximal(h, a);
    var m := Merge(h, a);
    SettleReturnsExactly(m.heap, m.tag);
  }

  /** malloc obtains the region it was offered, or none. */
  lemma MallocObtainsExactly(h: Heap, size: nat, newBase: int)
    requires Request(h, size, newBase)
    ensures MallocReady(h, size, newBase)
    ensures Malloc(h, size, newBase).regions ==
              if Choice(h, size).None? then h.regions[newBase := PagesFor(size)] else h.regions
  {
    hide Inv;
    MallocKeepsInv(h, size, newBase);
  }

  // ---------------------------------------------------------------- histories

  datatype Call =
    | CallMalloc(size: nat, newBase: int)
    | CallFree(tag: int)
    | CallRealloc(tag: int, size: nat, newBase: int)

  /** free and realloc get only live blocks; realloc to 0 bytes is free. */
  ghost predicate Allowed(h: Heap, c: Call) {
    match c
    case CallMalloc(size, newBase) => Request(h, size, newBase)
    case CallFree(tag) => Live(h, tag)
    case CallRealloc(tag, size, newBase) => Live(h, tag) && (size > 0 ==> Request(h, size, newBase))
  }

  ghost predicate Ready(h: Heap, c: Call) {
    match c
    case CallMalloc(size, newBase) => MallocReady(h, size, newBase)
    case CallFree(tag) => FreeReady(h, tag)
    case CallRealloc(tag, size, newBase) =>
      if size == 0 then FreeReady(h, tag)
      else MallocReady(h, size, newBase) && FreeReady(Malloc(h, size, newBase), tag)
  }

  ghost function After(h: Heap, c: Call): Heap {
    if !Ready(h, c) then h
    else
      match c
      case CallMalloc(size, newBase) => Malloc(h, size, newBase)
      case CallFree(tag) => Free(h, tag)
      case CallRealloc(tag, size, newBase) =>
        if size == 0 then Free(h, tag) else Free(Malloc(h, size, newBase), tag)
  }

  /** The allocations after a call whose new block, if it needs one, is at answer. */
  function Served(m: map<int, int>, c: Call, answer: int): map<int, int> {
    match c
    case CallMalloc(size, _) => m[answer := size]
    case CallFree(tag) => m - {tag}
    case CallRealloc(tag, size, _) => if size == 0 then m - {tag} else m[answer := size] - {tag}
  }

  ghost function Answer(h: Heap, c: Call): int {
    match c
    case CallMalloc(size, newBase) => if Bucket(size) < |h.lists| then Chosen(h, size, newBase) else 0
    case CallFree(tag) => 0
    case CallRealloc(_, size, newBase) => if Bucket(size) < |h.lists| then Chosen(h, size, newBase) else 0
  }

  /** An allowed call goes through, keeps the invariant, and does to the allocations what
      it does to a finite map and nothing else. */
  lemma EveryCallIsServed(h: Heap, c: Call)
    requires Inv(h) && Allowed(h, c)
    ensures Ready(h, c) && Inv(After(h, c))
    ensures Allocations(After(h, c)) == Served(Allocations(h), c, Answer(h, c))
  {
    hide Tiled, Sized, Coalesced, FewStandby, Allocations;
    match c
    case CallMalloc(size, newBase) =>
      ListsCoverRequests(h, size);
      MallocKeepsInv(h, size, newBase);
      MallocAllocates(h, size, newBase);
    case CallFree(tag) =>
      FreeKeepsInv(h, tag);
      FreeReleases(h, tag);
    case CallRealloc(tag, size, newBase) =>
      if size == 0 {
        FreeKeepsInv(h, tag);
        FreeReleases(h, tag);
      } else {
        ReallocIsServed(h, tag, size, newBase);
      }
  }

  lemma ReallocIsServed(h: Heap, tag: int, size: nat, newBase: int)
    requires Inv(h) && Live(h, tag) && Request(h, size, newBase)
    ensures Bucket(size) < |h.lists| && Chosen(h, size, newBase) != tag
    ensures MallocReady(h, size, newBase) && Live(Malloc(h, size, newBase), tag)
    ensures Inv(Malloc(h, size, newBase)) && FreeReady(Malloc(h, size, newBase), tag)
    ensures var h' := Free(Malloc(h, size, newBase), tag);
            Inv(h') && Allocations(h') == Allocations(h)[Chosen(h, size, newBase) := size] - {tag}
  {
    hide Tiled, Sized, Coalesced, FewStandby, Allocations, Malloc, Free, Chosen;
    ListsCoverRequests(h, size);
    MallocKeepsInv(h, size, newBase);
    MallocAllocates(h, size, newBase);
    var m := Malloc(h, size, newBase);
    OnlyLiveAreAllocated(h, tag);
    OnlyLiveAreAllocated(m, tag);
    FreeKeepsInv(m, tag);
    FreeReleases(m, tag);
  }

  /** Each call is allowed when it is made. */
  ghost predicate History(h: Heap, cs: seq<Call>)
    decreases |cs|
  {
    cs == [] || (Allowed(h, cs[0]) && History(After(h, cs[0]), cs[1..]))
  }

  ghost function AfterAll(h: Heap, cs: seq<Call>): Heap
    decreases |cs|
  {
    if cs == [] then h else AfterAll(After(h, cs[0]), cs[1..])
  }

  /** The allocations as a finite map would have them after the calls, each new block
      being where the heap put it. */
  ghost function ServedAll(h: Heap, m: map<int, int>, cs: seq<Call>): map<int, int>
    decreases |cs|
  {
    if cs == [] then m else ServedAll(After(h, cs[0]), Served(m, cs[0], Answer(h, cs[0])), cs[1..])
  }

  ghost function Empty(): Heap {
    Heap(map[], map[], seq(MAX_EXP, i => []))
  }

  lemma EmptyIsSound()
    ensures Inv(Empty())
  {
    assert forall i | 0 <= i < MAX_EXP :: Standby(Empty(), i) == {};
  }

  /** From the empty heap any admissible request is served, wherever the first region is. */
  lemma FirstRequestIsServed(size: nat, newBase: int)
    requires size <= MAX_REQUEST && 0 < newBase
    ensures Allowed(Empty(), CallMalloc(size, newBase))
    ensures var h := After(Empty(), CallMalloc(size, newBase));
            Inv(h) && Live(h, newBase) && Allocations(h) == map[newBase := size]
  {
    hide Inv, Malloc, Choice;
    EmptyIsSound();
    PagesAreEnough(size);
    NothingFits(size);
    MallocKeepsInv(Empty(), size, newBase);
    MallocAllocates(Empty(), size, newBase);
  }

  lemma NothingFits(size: nat)
    requires size <= MAX_REQUEST
    ensures Bucket(size) < |Empty().lists| && Choice(Empty(), size) == None && Allocations(Empty()) == map[]
  {
    hide Inv;
    BucketBounds(size);
  }

  /** Every history of malloc, free and realloc keeps the invariant, and the live blocks
      are at every point those the calls ask for. */
  lemma {:induction false} EveryHistoryKeepsInv(h: Heap, cs: seq<Call>)
    requires Inv(h) && History(h, cs)
    ensures Inv(AfterAll(h, cs))
    ensures Allocations(AfterAll(h, cs)) == ServedAll(h, Allocations(h), cs)
    decreases |cs|
  {
    if cs != [] {
      hide Inv, After, Allowed, Served, Answer, Allocations;
      EveryCallIsServed(h, cs[0]);
      EveryHistoryKeepsInv(After(h, cs[0]), cs[1..]);
    }
  }
}
