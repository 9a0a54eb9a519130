/** Theorems about malloc and free of src/mm/liballoc.cpp: each call keeps the whole
    invariant, serves its request and leaves every other allocation alone. */
module HeapOperations {
  import opened Machine
  import opened HeapModel
  import opened HeapSteps
  import opened HeapKeepers

  // ---------------------------------------------------------------- malloc

  ghost predicate IsFirstFit(blocks: map<int, Block>, list: seq<int>, size: nat, j: int) {
    && 0 <= j < |list| && list[j] in blocks && Fits(blocks[list[j]], size)
    && forall i | 0 <= i < j :: list[i] in blocks ==> !Fits(blocks[list[i]], size)
  }

  /** The search answers with the first block of the list that fits, if any does. */
  lemma {:induction false} FirstFitIsFirst(blocks: map<int, Block>, list: seq<int>, size: nat)
    ensures match FirstFit(blocks, list, size)
            case Some(a) => exists j :: IsFirstFit(blocks, list, size, j) && list[j] == a
            case None => forall a | a in list && a in blocks :: !Fits(blocks[a], size)
  {
    if list == [] {
    } else if list[0] in blocks && Fits(blocks[list[0]], size) {
      assert IsFirstFit(blocks, list, size, 0);
    } else {
      var rest := list[1..];
      FirstFitIsFirst(blocks, rest, size);
      assert list == [list[0]] + rest;
      if FirstFit(blocks, rest, size).Some? {
        var j :| IsFirstFit(blocks, rest, size, j) && rest[j] == FirstFit(blocks, rest, size).value;
        assert IsFirstFit(blocks, list, size, j + 1) by {
          forall i | 0 <= i < j + 1 && list[i] in blocks ensures !Fits(blocks[list[i]], size) {
            assert i > 0 ==> list[i] == rest[i - 1];
          }
        }
      }
    }
  }

  /** A search that passed j blocks without room stops at the next one that has it. */
  lemma {:induction false} FirstFitAfter(blocks: map<int, Block>, list: seq<int>, size: nat, j: nat)
    requires j <= |list| && forall i | 0 <= i < j :: list[i] in blocks && !Fits(blocks[list[i]], size)
    requires j < |list| ==> list[j] in blocks && Fits(blocks[list[j]], size)
    ensures FirstFit(blocks, list, size) == if j < |list| then Some(list[j]) else None
  {
    if j > 0 {
      assert forall i | 0 <= i < j - 1 :: list[1..][i] == list[i + 1];
      FirstFitAfter(blocks, list[1..], size, j - 1);
    }
  }

  /** What malloc may be asked: up to MAX_REQUEST bytes, with a base for a new region at
      hand in case no block fits. */
  ghost predicate Request(h: Heap, size: nat, newBase: int) {
    && Inv(h) && size <= MAX_REQUEST
    && (Bucket(size) < |h.lists| && Choice(h, size).None? ==> RegionIsNew(h, newBase, PagesFor(size)))
  }

  lemma PagesAreEnough(size: nat)
    requires size <= MAX_REQUEST
    ensures TAG_SIZE + size <= 4096 * PagesFor(size) < 0x8000_0000 && MIN_PAGES <= PagesFor(size)
  {
  }

  lemma ListsCoverRequests(h: Heap, size: nat)
    requires Listed(h) && size <= MAX_REQUEST
    ensures MIN_EXP <= Bucket(size) < |h.lists| == MAX_EXP
  {
    BucketBounds(size);
  }

  lemma ChoiceIsFree(h: Heap, size: nat)
    requires Inv(h) && Bucket(size) < MAX_EXP && Choice(h, size).Some?
    ensures var a := Choice(h, size).value;
            && IsFree(h, a) && TakeReady(h, a) && h.blocks[a].index == Bucket(size)
            && Fits(h.blocks[a], size)
  {
    hide Tiled, Sized, Coalesced, FewStandby;
    FirstFitIsFirst(h.blocks, h.lists[Bucket(size)], size);
  }

  ghost predicate RightLive(h: Heap, a: int)
    requires a in h.blocks
  {
    !IsFree(h, h.blocks[a].right)
  }

  lemma ObtainKeepsInv(h: Heap, size: nat, newBase: int)
    requires Request(h, size, newBase)
    ensures ObtainReady(h, size)
    ensures var h' := Obtain(h, size, newBase); var a := Chosen(h, size, newBase);
            Inv(h') && Live(h', a) && h'.blocks[a].size == size && RightLive(h', a)
  {
    hide Tiled, Listed, Sized, FewStandby;
    ListsCoverRequests(h, size);
    TiledFacts(h);
    match Choice(h, size)
    case Some(a) =>
      ChoiceIsFree(h, size);
      ClaimKeepsInv(h, a, size);
    case None =>
      AddRegionKeepsInv(h, newBase, size);
      TiledFacts(AddRegion(h, newBase, size));
  }

  lemma TailIsBetween(h: Heap, a: int)
    requires Live(h, a) && RightLive(h, a) && CutReady(h, a) && 0 < a
    requires TailOf(a, h.blocks[a]) !in h.blocks
    ensures var n := TailOf(a, h.blocks[a]); var h' := Cut(h, a);
            n in h'.blocks && NeighboursLive(h', n) && !Whole(h'.blocks[n])
  {
  }

  lemma TrimKeepsInv(h: Heap, a: int)
    requires Inv(h) && Live(h, a) && RightLive(h, a)
    ensures TrimReady(h, a) && Inv(Trim(h, a)) && Live(Trim(h, a), a)
  {
    hide Tiled, Listed, Sized, Coalesced, FewStandby, SameShape, NeighboursLive;
    if Splits(h.blocks[a]) {
      TiledFacts(h);
      CutKeepsInv(h, a);
      TailIsBetween(h, a);
      var c, n := Cut(h, a), TailOf(a, h.blocks[a]);
      TiledFacts(c);
      hide Cut, RightLive, CutReady;
      PutKeepsInv(c, n);
    }
  }

  /** The tail malloc gives back is never a whole region. */
  lemma TrimKeepsStandby(h: Heap, a: int, i: int)
    requires Inv(h) && Live(h, a) && TrimReady(h, a) && 0 <= i < MAX_EXP
    ensures Standby(Trim(h, a), i) == Standby(h, i)
  {
    hide Tiled, Listed, Coalesced, FewStandby, Standby, Linked;
    if Splits(h.blocks[a]) {
      TiledFacts(h);
      CutKeepsInv(h, a);
      StandbyAfterCut(h, a, i);
      StandbyAfterPut(Cut(h, a), TailOf(a, h.blocks[a]), i);
    }
  }

  lemma MallocKeepsInv(h: Heap, size: nat, newBase: int)
    requires Request(h, size, newBase)
    ensures MallocReady(h, size, newBase)
    ensures Inv(Malloc(h, size, newBase)) && Live(Malloc(h, size, newBase), Chosen(h, size, newBase))
  {
    hide Inv, RightLive, Obtain, Chosen, Choice, TrimReady, Trim;
    ObtainKeepsInv(h, size, newBase);
    TrimKeepsInv(Obtain(h, size, newBase), Chosen(h, size, newBase));
  }

  // ---------------------------------------------------------------- free

  /** The order of the source, join first and unlist second, and the order that never
      leaves the invariant come to the same. */
  lemma MeltLeftCommutes(h: Heap, a: int, l: int)
    requires TakeReady(h, l) && JoinReady(h, l, a) && h.blocks[a].right != l
    ensures TakeReady(Join(h, l, a), l) && JoinReady(Take(h, l), l, a)
    ensures Take(Join(h, l, a), l) == Join(Take(h, l), l, a)
  {
    assert Take(Join(h, l, a), l).blocks == Join(Take(h, l), l, a).blocks;
  }

  lemma TakeKeepsInv(h: Heap, a: int)
    requires Inv(h) && IsFree(h, a)
    ensures TakeReady(h, a) && Inv(Take(h, a)) && Live(Take(h, a), a) && SameShape(h, Take(h, a))
  {
    hide Tiled, Listed, Coalesced, FewStandby, SameShape;
    ClaimKeepsInv(h, a, 0);
    assert Claim(h, a, 0).blocks == Take(h, a).blocks;
  }

  lemma LeftNeighbour(h: Heap, a: int)
    requires Tiled(h) && a in h.blocks && h.blocks[a].left in h.blocks
    ensures var l := h.blocks[a].left; h.blocks[l].right == a && l < a
  {
    TiledFacts(h);
    assert Linked(h, a);
  }

  lemma LeftJoins(h: Heap, a: int)
    requires Tiled(h) && a in h.blocks && h.blocks[a].left != 0
    ensures var l := h.blocks[a].left;
            && l in h.blocks && h.blocks[l].right == a && JoinReady(h, l, a) && h.blocks[a].right != l
            && (h.blocks[a].right != 0 ==> h.blocks[a].right in h.blocks)
  {
    TiledFacts(h);
    assert Linked(h, a);
  }

  lemma MeltLeftKeepsInv(h: Heap, a: int)
    requires Inv(h) && Live(h, a)
    ensures MeltLeftReady(h, a)
    ensures var m := MeltLeft(h, a);
            Inv(m.heap) && Live(m.heap, m.tag) && !IsFree(m.heap, m.heap.blocks[m.tag].left)
  {
    hide Tiled, Listed, Sized, FewStandby, SameShape;
    TiledFacts(h);
    var l := h.blocks[a].left;
    if IsFree(h, l) {
      LeftNeighbour(h, a);
      TakeKeepsInv(h, l);
      var t := Take(h, l);
      JoinKeepsInv(t, l);
      MeltLeftCommutes(h, a, l);
      var k := h.blocks[l].left;
      if k in h.blocks {
        LeftNeighbour(h, l);
      }
    }
  }

  lemma JoinKeepsNeighbours(h: Heap, a: int, b: int)
    requires Live(h, a) && IsFree(h, b) && TakeReady(h, b) && JoinReady(Take(h, b), a, b)
    requires Linked(h, a) && h.blocks[a].right == b != 0 && Linked(h, b) && Coalesced(h)
    requires !IsFree(h, h.blocks[a].left) && 0 !in h.blocks
    ensures var h' := Join(Take(h, b), a, b);
            a in h'.blocks && !IsFree(h', h'.blocks[a].left) && !IsFree(h', h'.blocks[a].right)
  {
  }

  lemma MeltRightKeepsInv(h: Heap, a: int)
    requires Inv(h) && Live(h, a) && !IsFree(h, h.blocks[a].left)
    ensures MeltRightReady(h, a)
    ensures var h' := MeltRight(h, a); Inv(h') && Live(h', a) && NeighboursLive(h', a)
  {
    hide Tiled, Listed, Sized, Coalesced, FewStandby, SameShape, Linked;
    TiledFacts(h);
    var r := h.blocks[a].right;
    if IsFree(h, r) {
      TakeKeepsInv(h, r);
      JoinKeepsInv(Take(h, r), a);
      JoinKeepsNeighbours(h, a, r);
    }
  }

  /** Blocks that merge were never whole regions: the standby counts stay right although
      no code touches them. */
  lemma MeltLeftKeepsStandby(h: Heap, a: int, i: int)
    requires Inv(h) && Live(h, a) && MeltLeftReady(h, a) && 0 <= i < MAX_EXP
    ensures Standby(MeltLeft(h, a).heap, i) == Standby(h, i)
  {
    hide Inv, Listed, Sized, Coalesced, FewStandby, SameShape, Linked;
    InvIsTiled(h);
    hide Tiled;
    TiledFacts(h);
    var l := h.blocks[a].left;
    if IsFree(h, l) {
      LeftNeighbour(h, a);
      TakeKeepsInv(h, l);
      var t := Take(h, l);
      MeltLeftCommutes(h, a, l);
      StandbyAfterTake(h, l, i);
      InvIsTiled(t);
      TiledFacts(t);
      StandbyAfterJoin(t, l, a, i);
    }
  }

  lemma InvIsTiled(h: Heap)
    requires Inv(h)
    ensures Tiled(h)
  {
  }

  lemma MeltRightKeepsStandby(h: Heap, a: int, i: int)
    requires Inv(h) && Live(h, a) && MeltRightReady(h, a) && 0 <= i < MAX_EXP
    ensures Standby(MeltRight(h, a), i) == Standby(h, i)
  {
    hide Inv, Listed, Sized, Coalesced, FewStandby, SameShape, Linked;
    InvIsTiled(h);
    hide Tiled;
    TiledFacts(h);
    var r := h.blocks[a].right;
    if IsFree(h, r) {
      RightNeighbour(h, a);
      TakeKeepsInv(h, r);
      var t := Take(h, r);
      StandbyAfterTake(h, r, i);
      InvIsTiled(t);
      TiledFacts(t);
      StandbyAfterJoin(t, a, r, i);
    }
  }

  lemma RightNeighbour(h: Heap, a: int)
    requires Tiled(h) && a in h.blocks && h.blocks[a].right in h.blocks
    ensures var r := h.blocks[a].right; h.blocks[r].left == a && r != 0 && a != 0
  {
    TiledFacts(h);
    assert Linked(h, a);
  }

  /** One turn of each loop of free is all there is to do: afterwards neither neighbour is
      free, so the block is as large as it can be. */
  lemma MergeIsMaximal(h: Heap, a: int)
    requires Inv(h) && Live(h, a)
    ensures MergeReady(h, a)
    ensures var m := Merge(h, a); Inv(m.heap) && Live(m.heap, m.tag) && NeighboursLive(m.heap, m.tag)
  {
    hide Inv, NeighboursLive, MeltLeft, MeltRight;
    MeltLeftKeepsInv(h, a);
    var m := MeltLeft(h, a);
    MeltRightKeepsInv(m.heap, m.tag);
  }

  lemma SettleFacts(h: Heap, a: int)
    requires Tiled(h) && Listed(h) && Live(h, a)
    ensures PutReady(h, a) && Bucket(h.blocks[a].realSize - TAG_SIZE) < MAX_EXP
    ensures TAG_SIZE <= h.blocks[a].realSize < 0x8000_0000 && !Live(Settle(h, a), a)
  {
    hide Tiled, Linked;
    TiledFacts(h);
    BucketBounds(h.blocks[a].realSize - TAG_SIZE);
  }

  lemma SettleKeepsInv(h: Heap, a: int)
    requires Inv(h) && Live(h, a) && NeighboursLive(h, a)
    ensures PutReady(h, a) && Inv(Settle(h, a)) && !Live(Settle(h, a), a)
  {
    hide Tiled, Listed, Sized, Coalesced, NeighboursLive, Standby, Put, DropRegion, Whole;
    SettleFacts(h, a);
    if Returns(h, a) {
      DropRegionKeepsInv(h, a);
    } else {
      PutKeepsInv(h, a);
    }
  }

  // ------------------------------------------------ the heap as a finite map

  /** What callers hold: the tag of each live block and the size it was asked for. */
  ghost function Allocations(h: Heap): map<int, int> {
    map a | a in h.blocks && h.blocks[a].index < 0 :: h.blocks[a].size
  }

  lemma OnlyLiveAreAllocated(h: Heap, a: int)
    ensures a in Allocations(h) <==> Live(h, a)
    ensures Live(h, a) ==> Allocations(h)[a] == h.blocks[a].size
  {
  }

  lemma TakeAllocates(h: Heap, a: int)
    requires TakeReady(h, a)
    ensures Allocations(Take(h, a)) == Allocations(h)[a := h.blocks[a].size]
  {
  }

  lemma ClaimAllocates(h: Heap, a: int, size: nat)
    requires TakeReady(h, a)
    ensures Allocations(Claim(h, a, size)) == Allocations(h)[a := size]
  {
  }

  lemma AddRegionAllocates(h: Heap, base: int, size: nat)
    ensures Allocations(AddRegion(h, base, size)) == Allocations(h)[base := size]
  {
  }

  lemma PutReleases(h: Heap, a: int)
    requires PutReady(h, a)
    ensures Allocations(Put(h, a)) == Allocations(h) - {a}
  {
    var i := Bucket(h.blocks[a].realSize - TAG_SIZE);
    assert i >= 0;
  }

  lemma CutAllocates(h: Heap, a: int)
    requires CutReady(h, a) && TailOf(a, h.blocks[a]) !in h.blocks
    ensures Allocations(Cut(h, a)) == Allocations(h)[TailOf(a, h.blocks[a]) := 0]
  {
  }

  lemma JoinReleases(h: Heap, a: int, b: int)
    requires JoinReady(h, a, b)
    ensures Allocations(Join(h, a, b)) == Allocations(h) - {b}
  {
  }

  lemma TrimAllocatesNothing(h: Heap, a: int)
    requires Inv(h) && Live(h, a) && TrimReady(h, a)
    ensures Allocations(Trim(h, a)) == Allocations(h)
  {
    hide Tiled, Listed, Sized, Coalesced, FewStandby, Allocations;
    if Splits(h.blocks[a]) {
      CutKeepsInv(h, a);
      CutAllocates(h, a);
      PutReleases(Cut(h, a), TailOf(a, h.blocks[a]));
      OnlyLiveAreAllocated(h, TailOf(a, h.blocks[a]));
    }
  }

  lemma ObtainAllocates(h: Heap, size: nat, newBase: int)
    requires Request(h, size, newBase) && ObtainReady(h, size)
    ensures var a := Chosen(h, size, newBase);
            !Live(h, a) && Allocations(Obtain(h, size, newBase)) == Allocations(h)[a := size]
  {
    hide Tiled, Listed, Sized, Coalesced, FewStandby;
    ListsCoverRequests(h, size);
    match Choice(h, size)
    case Some(a) =>
      ChoiceIsFree(h, size);
      ClaimAllocates(h, a, size);
    case None =>
      AddRegionKeepsInv(h, newBase, size);
      AddRegionAllocates(h, newBase, size);
  }

  /** malloc adds exactly its answer to the allocations. */
  lemma MallocAllocates(h: Heap, size: nat, newBase: int)
    requires Request(h, size, newBase)
    ensures MallocReady(h, size, newBase)
    ensures var a := Chosen(h, size, newBase);
            && a !in Allocations(h)
            && Allocations(Malloc(h, size, newBase)) == Allocations(h)[a := size]
  {
    hide Inv, Allocations, Trim, Obtain, Chosen;
    MallocKeepsInv(h, size, newBase);
    ObtainKeepsInv(h, size, newBase);
    ObtainAllocates(h, size, newBase);
    TrimAllocatesNothing(Obtain(h, size, newBase), Chosen(h, size, newBase));
    OnlyLiveAreAllocated(h, Chosen(h, size, newBase));
  }

  lemma MeltLeftReleases(h: Heap, a: int)
    requires MeltLeftReady(h, a) && Live(h, a)
    ensures var m := MeltLeft(h, a); Allocations(m.heap) - {m.tag} == Allocations(h) - {a}
    ensures MeltLeft(h, a).tag == a || a !in Allocations(MeltLeft(h, a).heap)
  {
    var l := h.blocks[a].left;
    if IsFree(h, l) {
      JoinReleases(h, l, a);
      TakeAllocates(Join(h, l, a), l);
      assert l !in Allocations(h);
    }
  }

  lemma MeltRightReleases(h: Heap, a: int)
    requires MeltRightReady(h, a) && Live(h, a)
    ensures Allocations(MeltRight(h, a)) == Allocations(h)
  {
    var r := h.blocks[a].right;
    if IsFree(h, r) {
      TakeAllocates(h, r);
      JoinReleases(Take(h, r), a, r);
      assert r !in Allocations(h);
    }
  }

  lemma SettleReleases(h: Heap, a: int)
    requires PutReady(h, a)
    ensures Allocations(Settle(h, a)) == Allocations(h) - {a}
  {
    PutReleases(h, a);
  }

  /** free takes exactly its argument off the allocations. */
  lemma FreeReleases(h: Heap, a: int)
    requires Inv(h) && Live(h, a)
    ensures FreeReady(h, a) && Allocations(Free(h, a)) == Allocations(h) - {a}
  {
    hide Inv, NeighboursLive, MeltLeft, MeltRight, Settle, Allocations, PutReady;
    MergeIsMaximal(h, a);
    MeltLeftKeepsInv(h, a);
    var m := MeltLeft(h, a);
    MeltLeftReleases(h, a);
    MeltRightReleases(m.heap, m.tag);
    SettleKeepsInv(Merge(h, a).heap, m.tag);
    SettleReleases(Merge(h, a).heap, m.tag);
  }

  lemma FreeKeepsInv(h: Heap, a: int)
    requires Inv(h) && Live(h, a)
    ensures FreeReady(h, a) && Inv(Free(h, a)) && !Live(Free(h, a), a)
  {
    FreeReleases(h, a);
    hide Inv, NeighboursLive, Merge, Settle;
    MergeIsMaximal(h, a);
    var m := Merge(h, a);
    SettleKeepsInv(m.heap, m.tag);
    OnlyLiveAreAllocated(Free(h, a), a);
  }
}
