/** Each helper of src/mm/liballoc.cpp keeps the whole heap invariant. */
module HeapKeepers {
  import opened HeapModel
  import opened HeapSteps

  // ---------------------------------------------------------------- take

  lemma StandbyAfterTake(h: Heap, a: int, i: int)
    requires TakeReady(h, a) && 0 <= i
    ensures Standby(Take(h, a), i) == Standby(h, i) - {a}
  {
  }

  lemma StandbyAfterClaim(h: Heap, a: int, size: nat, i: int)
    requires a in h.blocks && 0 <= h.blocks[a].index < |h.lists| && 0 <= i
    ensures Standby(Claim(h, a, size), i) == Standby(h, i) - {a}
  {
  }

  lemma ClaimKeepsCoalesced(h: Heap, a: int, size: nat)
    requires Coalesced(h) && a in h.blocks && 0 <= h.blocks[a].index < |h.lists|
    ensures Coalesced(Claim(h, a, size))
  {
  }

  lemma ClaimKeepsSized(h: Heap, a: int, size: nat)
    requires Sized(h) && a in h.blocks && 0 <= h.blocks[a].index < |h.lists|
    requires size <= h.blocks[a].realSize - TAG_SIZE
    ensures Sized(Claim(h, a, size))
  {
  }

  lemma ClaimKeepsLists(h: Heap, a: int, size: nat)
    requires Listed(h) && IsFree(h, a)
    ensures Listed(Claim(h, a, size)) && SameShape(h, Claim(h, a, size))
  {
    TakeKeepsLists(h, a);
    SameIndicesKeepLists(Take(h, a), Claim(h, a, size));
  }

  lemma ClaimKeepsFewStandby(h: Heap, a: int, size: nat)
    requires FewStandby(h) && a in h.blocks && 0 <= h.blocks[a].index < |h.lists|
    ensures FewStandby(Claim(h, a, size))
  {
    forall i | 0 <= i < MAX_EXP ensures |Standby(Claim(h, a, size), i)| <= MAX_COMPLETE {
      StandbyAfterClaim(h, a, size, i);
    }
  }

  lemma ClaimKeepsInv(h: Heap, a: int, size: nat)
    requires Inv(h) && IsFree(h, a) && size <= h.blocks[a].realSize - TAG_SIZE
    ensures h.blocks[a].index < |h.lists|
    ensures Inv(Claim(h, a, size)) && Live(Claim(h, a, size), a)
    ensures SameShape(h, Claim(h, a, size))
  {
    hide Tiled, Coalesced, Sized, FewStandby, SameShape;
    ClaimKeepsLists(h, a, size);
    ClaimKeepsSized(h, a, size);
    ClaimKeepsCoalesced(h, a, size);
    ClaimKeepsFewStandby(h, a, size);
    SameShapeTiles(h, Claim(h, a, size));
  }

  // ---------------------------------------------------------------- put

  lemma StandbyAfterPut(h: Heap, a: int, i: int)
    requires a in h.blocks && TAG_SIZE <= h.blocks[a].realSize && h.blocks[a].index < 0
    requires Bucket(h.blocks[a].realSize - TAG_SIZE) < |h.lists|
    ensures Standby(Put(h, a), i) ==
              if i == Bucket(h.blocks[a].realSize - TAG_SIZE) && Whole(h.blocks[a]) then Standby(h, i) + {a}
              else if i == h.blocks[a].index then Standby(h, i) - {a}
              else Standby(h, i)
  {
  }

  ghost predicate NeighboursLive(h: Heap, a: int)
    requires a in h.blocks
  {
    && !IsFree(h, h.blocks[a].left) && !IsFree(h, h.blocks[a].right)
  }

  lemma PutKeepsCoalesced(h: Heap, a: int)
    requires Coalesced(h) && a in h.blocks && NeighboursLive(h, a)
    requires forall x | x in h.blocks :: Linked(h, x)
    requires TAG_SIZE <= h.blocks[a].realSize && Bucket(h.blocks[a].realSize - TAG_SIZE) < |h.lists|
    ensures Coalesced(Put(h, a))
  {
    var h' := Put(h, a);
    forall x | x in h'.blocks && h'.blocks[x].right != 0 && h'.blocks[x].right in h'.blocks
      ensures h'.blocks[x].index < 0 || h'.blocks[h'.blocks[x].right].index < 0
    {
      assert Linked(h, x);
    }
  }

  lemma PutKeepsSized(h: Heap, a: int)
    requires Sized(h) && a in h.blocks && Bucket(h.blocks[a].realSize - TAG_SIZE) < |h.lists|
    ensures Sized(Put(h, a)) && SameShape(h, Put(h, a))
  {
  }

  lemma PutKeepsFewStandby(h: Heap, a: int)
    requires FewStandby(h) && Live(h, a)
    requires TAG_SIZE <= h.blocks[a].realSize && Bucket(h.blocks[a].realSize - TAG_SIZE) < |h.lists|
    requires Whole(h.blocks[a]) ==> |Standby(h, Bucket(h.blocks[a].realSize - TAG_SIZE))| < MAX_COMPLETE
    ensures FewStandby(Put(h, a))
  {
    forall i | 0 <= i < MAX_EXP ensures |Standby(Put(h, a), i)| <= MAX_COMPLETE {
      StandbyAfterPut(h, a, i);
    }
  }

  lemma PutKeepsInv(h: Heap, a: int)
    requires Inv(h) && Live(h, a) && NeighboursLive(h, a) && TAG_SIZE <= h.blocks[a].realSize < 0x8000_0000
    requires Whole(h.blocks[a]) ==> |Standby(h, Bucket(h.blocks[a].realSize - TAG_SIZE))| < MAX_COMPLETE
    ensures PutReady(h, a) && Inv(Put(h, a))
  {
    hide Tiled, Listed, Coalesced, Sized, FewStandby, SameShape, Linked, Standby, NeighboursLive;
    TiledFacts(h);
    PutKeepsLists(h, a);
    PutKeepsSized(h, a);
    SameShapeTiles(h, Put(h, a));
    PutKeepsCoalesced(h, a);
    PutKeepsFewStandby(h, a);
  }

  // ---------------------------------------------------------------- cut

  lemma CutKeepsLists(h: Heap, a: int)
    requires Listed(h) && Live(h, a)
    requires h.blocks[a].right != 0 ==> h.blocks[a].right in h.blocks
    requires a + TAG_SIZE + h.blocks[a].size !in h.blocks
    ensures Listed(Cut(h, a))
  {
    SameIndicesKeepLists(h, Cut(h, a));
  }

  lemma CutKeepsSized(h: Heap, a: int)
    requires Sized(h) && Live(h, a) && Splits(h.blocks[a])
    requires h.blocks[a].right != 0 ==> h.blocks[a].right in h.blocks
    ensures Sized(Cut(h, a))
  {
  }

  lemma CutKeepsCoalesced(h: Heap, a: int)
    requires Coalesced(h) && Live(h, a)
    requires h.blocks[a].right != 0 ==> h.blocks[a].right in h.blocks
    requires forall x | x in h.blocks :: Linked(h, x)
    requires a + TAG_SIZE + h.blocks[a].size !in h.blocks
    ensures Coalesced(Cut(h, a))
  {
    var h' := Cut(h, a);
    forall x | x in h'.blocks && h'.blocks[x].right != 0 && h'.blocks[x].right in h'.blocks
      ensures h'.blocks[x].index < 0 || h'.blocks[h'.blocks[x].right].index < 0
    {
      assert x in h.blocks ==> Linked(h, x);
    }
  }

  lemma StandbyAfterCut(h: Heap, a: int, i: int)
    requires Live(h, a) && Linked(h, a) && 0 < a && 0 <= i
    requires a + TAG_SIZE + h.blocks[a].size !in h.blocks && a + TAG_SIZE + h.blocks[a].size != 0
    ensures Standby(Cut(h, a), i) == Standby(h, i)
  {
  }

  lemma CutKeepsInv(h: Heap, a: int)
    requires Inv(h) && Live(h, a) && Splits(h.blocks[a])
    ensures h.blocks[a].right != 0 ==> h.blocks[a].right in h.blocks
    ensures Inv(Cut(h, a)) && Live(Cut(h, a), a + TAG_SIZE + h.blocks[a].size) && Live(Cut(h, a), a)
    ensures a + TAG_SIZE + h.blocks[a].size !in h.blocks
  {
    hide Tiled, Coalesced, Linked, Standby, Listed;
    TiledFacts(h);
    CutTiles(h, a);
    CutKeepsLists(h, a);
    CutKeepsSized(h, a);
    CutKeepsCoalesced(h, a);
    forall i | 0 <= i < MAX_EXP ensures |Standby(Cut(h, a), i)| <= MAX_COMPLETE {
      StandbyAfterCut(h, a, i);
    }
  }

  // ---------------------------------------------------------------- join

  lemma JoinKeepsLists(h: Heap, a: int, b: int)
    requires Listed(h) && Live(h, a) && Live(h, b) && a != b
    requires h.blocks[b].right != 0 ==> h.blocks[b].right in h.blocks && h.blocks[b].right != b
    ensures Listed(Join(h, a, b))
  {
    SameIndicesKeepLists(h, Join(h, a, b));
  }

  lemma JoinKeepsSized(h: Heap, a: int, b: int)
    requires Sized(h) && Live(h, a) && Live(h, b) && a != b
    requires h.blocks[b].right != 0 ==> h.blocks[b].right in h.blocks && h.blocks[b].right != b
    ensures Sized(Join(h, a, b))
  {
  }

  lemma JoinKeepsCoalesced(h: Heap, a: int, b: int)
    requires Coalesced(h) && Live(h, a) && Live(h, b) && a != b
    requires h.blocks[b].right != 0 ==> h.blocks[b].right in h.blocks && h.blocks[b].right != b
    ensures Coalesced(Join(h, a, b))
  {
  }

  lemma StandbyAfterJoin(h: Heap, a: int, b: int, i: int)
    requires Live(h, a) && Live(h, b) && Linked(h, a) && h.blocks[a].right == b != 0 && Linked(h, b)
    requires 0 < a && 0 <= i
    ensures Standby(Join(h, a, b), i) == Standby(h, i)
  {
  }

  lemma JoinKeepsInv(h: Heap, a: int)
    requires Inv(h) && Live(h, a) && h.blocks[a].right != 0 && Live(h, h.blocks[a].right)
    ensures var b := h.blocks[a].right;
            && a != b && (h.blocks[b].right != 0 ==> h.blocks[b].right in h.blocks && h.blocks[b].right != b)
            && Inv(Join(h, a, b)) && Live(Join(h, a, b), a)
  {
    var b := h.blocks[a].right;
    hide Tiled, Coalesced, Sized, Linked, FewStandby, Listed, IsFree, Standby;
    TiledFacts(h);
    JoinTiles(h, a);
    JoinKeepsLists(h, a, b);
    JoinKeepsSized(h, a, b);
    JoinKeepsCoalesced(h, a, b);
    JoinKeepsFewStandby(h, a, b);
  }

  lemma JoinKeepsFewStandby(h: Heap, a: int, b: int)
    requires FewStandby(h) && JoinReady(h, a, b) && Live(h, a) && Live(h, b) && 0 < a
    requires Linked(h, a) && h.blocks[a].right == b != 0 && Linked(h, b)
    ensures FewStandby(Join(h, a, b))
  {
    hide Standby;
    forall i | 0 <= i < MAX_EXP ensures |Standby(Join(h, a, b), i)| <= MAX_COMPLETE {
      StandbyAfterJoin(h, a, b, i);
    }
  }

  // ---------------------------------------------------------------- regions

  lemma AddRegionKeepsLists(h: Heap, base: int, size: nat)
    requires Listed(h) && base !in h.blocks
    ensures Listed(AddRegion(h, base, size))
  {
    SameIndicesKeepLists(h, AddRegion(h, base, size));
  }

  lemma AddRegionKeepsCoalesced(h: Heap, base: int, size: nat)
    requires Coalesced(h) && base !in h.blocks && forall x | x in h.blocks :: Linked(h, x)
    ensures Coalesced(AddRegion(h, base, size))
  {
    forall x | x in h.blocks ensures h.blocks[x].right == base ==> base == 0 {
      assert Linked(h, x);
    }
  }

  lemma AddRegionKeepsInv(h: Heap, base: int, size: nat)
    requires Inv(h) && RegionIsNew(h, base, PagesFor(size))
    ensures Inv(AddRegion(h, base, size)) && Live(AddRegion(h, base, size), base)
    ensures base !in h.blocks
  {
    hide Tiled, Coalesced, Linked, Listed, FewStandby;
    TiledFacts(h);
    AddRegionTiles(h, base, size);
    AddRegionKeepsLists(h, base, size);
    AddRegionKeepsCoalesced(h, base, size);
    AddRegionKeepsFewStandby(h, base, size);
  }

  lemma AddRegionKeepsFewStandby(h: Heap, base: int, size: nat)
    requires FewStandby(h) && base !in h.blocks
    ensures FewStandby(AddRegion(h, base, size))
  {
    forall i | 0 <= i < MAX_EXP ensures |Standby(AddRegion(h, base, size), i)| <= MAX_COMPLETE {
      assert Standby(AddRegion(h, base, size), i) == Standby(h, i);
    }
  }

  lemma DropRegionKeepsFewStandby(h: Heap, base: int)
    requires FewStandby(h) && Live(h, base)
    ensures FewStandby(DropRegion(h, base))
  {
    forall i | 0 <= i < MAX_EXP ensures |Standby(DropRegion(h, base), i)| <= MAX_COMPLETE {
      assert Standby(DropRegion(h, base), i) == Standby(h, i);
    }
  }

  lemma DropRegionKeepsInv(h: Heap, base: int)
    requires Inv(h) && Live(h, base) && Whole(h.blocks[base])
    ensures Inv(DropRegion(h, base))
  {
    hide Tiled, FewStandby, Listed;
    DropRegionTiles(h, base);
    DropRegionKeepsFewStandby(h, base);
    SameIndicesKeepLists(h, DropRegion(h, base));
  }
}
