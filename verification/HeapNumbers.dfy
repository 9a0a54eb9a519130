/** What malloc and free do to the blocks, in bytes, pages and lists: which block answers,
    what is cut off it and where that goes, and when a region is kept or given back. */
module HeapNumbers {
  import opened Machine
  import opened HeapModel
  import opened HeapSteps
  import opened HeapKeepers
  import opened HeapOperations
  import opened HeapTheorems

  /** List i is the one for n bytes: 2^i <= n < 2^(i+1), list 8 for anything less. */
  ghost predicate ListFor(n: int, i: nat) {
    8 <= i < 32 && n < Pow2(i + 1) && (i > 8 || n >= 256 ==> Pow2(i) <= n)
  }

  lemma BucketIsListFor(n: nat)
    requires n < 0x1_0000_0000
    ensures 0 <= Bucket(n) && ListFor(n, Bucket(n))
  {
    BucketBounds(n);
  }

  // ---------------------------------------------------------------- malloc

  /** Room for size bytes, their tag and another tag. */
  ghost predicate HasRoom(h: Heap, a: int, size: nat) {
    a in h.blocks && h.blocks[a].realSize >= size + 96
  }

  /** tag is the first block with room on the list for size, which keeps its region .. */
  ghost predicate FromList(h: Heap, h': Heap, size: nat, tag: int) {
    && tag in h.blocks && h'.regions == h.regions
    && exists i: nat, j: nat ::
         && ListFor(size, i) && i < |h.lists| && j < |h.lists[i]| && h.lists[i][j] == tag && HasRoom(h, tag, size)
         && forall k | 0 <= k < j :: !HasRoom(h, h.lists[i][k], size)
  }

  /** .. or the list has none, and tag is a new region of the fewest pages that hold size
      bytes and a tag, but at least 16. */
  ghost predicate FromPages(h: Heap, h': Heap, size: nat, tag: int, pages: nat) {
    && tag !in h.blocks && h'.regions == h.regions[tag := pages]
    && 16 <= pages && size + 48 <= 4096 * pages && (pages > 16 ==> 4096 * (pages - 1) < size + 48)
    && exists i: nat :: ListFor(size, i) && i < |h.lists| && forall a | a in h.lists[i] :: !HasRoom(h, a, size)
  }

  /** Of the block's room bytes the tail from 256 payload bytes up is cut off and put at the
      head of the list for it; a shorter one stays with the block. */
  ghost predicate CutTo(h': Heap, tag: int, size: nat, room: int) {
    && tag in h'.blocks && h'.blocks[tag].size == size && h'.blocks[tag].realSize < size + 352
    && if room >= size + 352 then
         var n := tag + 48 + size;
         && h'.blocks[tag].realSize == size + 48 && n in h'.blocks && h'.blocks[n].realSize == room - 48 - size
         && exists i: nat :: ListFor(room - 96 - size, i) && i < |h'.lists| && h'.blocks[n].index == i
                             && h'.lists[i] != [] && h'.lists[i][0] == n
       else h'.blocks[tag].realSize == room
  }

  ghost predicate ServedFrom(h: Heap, h': Heap, size: nat, tag: int) {
    || (FromList(h, h', size, tag) && CutTo(h', tag, size, h.blocks[tag].realSize))
    || exists pages: nat :: FromPages(h, h', size, tag, pages) && CutTo(h', tag, size, 4096 * pages)
  }

  lemma TrimCuts(o: Heap, tag: int, size: nat)
    requires Inv(o) && Live(o, tag) && TrimReady(o, tag) && o.blocks[tag].size == size
    ensures CutTo(Trim(o, tag), tag, size, o.blocks[tag].realSize)
    ensures Trim(o, tag).regions == o.regions
  {
    hide Listed, Sized, Coalesced, FewStandby;
    TiledFacts(o);
    var room := o.blocks[tag].realSize;
    if room >= size + 352 {
      BucketIsListFor(room - 96 - size);
      var i: nat, n := Bucket(room - 96 - size), tag + 48 + size;
      assert o.blocks[tag].right != n && o.blocks[tag].right != tag by { assert Linked(o, tag); }
      assert Trim(o, tag) == Put(Cut(o, tag), n);
      assert Trim(o, tag).blocks[n].index == i && Trim(o, tag).lists[i][0] == n;
    }
  }

  lemma ObtainedRoom(h: Heap, size: nat, base: int)
    requires Request(h, size, base)
    ensures ObtainReady(h, size)
    ensures var o := Obtain(h, size, base); var a := Chosen(h, size, base);
            a in o.blocks && match Choice(h, size)
                             case Some(_) =>
                               && a in h.blocks && o.blocks[a].realSize == h.blocks[a].realSize
                               && o.regions == h.regions
                             case None =>
                               && a == base && base !in h.blocks && o.blocks[a].realSize == 4096 * PagesFor(size)
                                          && o.regions == h.regions[base := PagesFor(size)]
  {
    ObtainKeepsInv(h, size, base);
    if Choice(h, size).None? {
      AddRegionTiles(h, base, size);
    }
    hide Inv, RegionIsNew, Choice;
  }

  lemma ChoiceIsFirst(h: Heap, size: nat)
    requires Inv(h) && Bucket(size) < |h.lists| && 0 <= Bucket(size)
    ensures match Choice(h, size)
            case Some(a) =>
              exists j: nat :: j < |h.lists[Bucket(size)]| && h.lists[Bucket(size)][j] == a && HasRoom(h, a, size)
                               && forall k | 0 <= k < j :: !HasRoom(h, h.lists[Bucket(size)][k], size)
            case None => forall a | a in h.lists[Bucket(size)] :: !HasRoom(h, a, size)
  {
    hide Inv;
    var list := h.lists[Bucket(size)];
    FirstFitIsFirst(h.blocks, list, size);
    if Choice(h, size).Some? {
      var j :| IsFirstFit(h.blocks, list, size, j) && list[j] == Choice(h, size).value;
      assert j >= 0;
      var n: nat := j;
      assert n < |list| && list[n] == Choice(h, size).value && forall k | 0 <= k < n :: !HasRoom(h, list[k], size);
    }
  }

  /** malloc takes the first block with room for the request and another tag, or a new
      region, and gives back all of it that makes a block of 256 bytes. */
  lemma MallocServes(h: Heap, h': Heap, size: nat, base: int, tag: int)
    requires Request(h, size, base) && Malloced(h, h', size, base, tag)
    ensures ServedFrom(h, h', size, tag)
  {
    ListsCoverRequests(h, size);
    BucketIsListFor(size);
    ObtainKeepsInv(h, size, base);
    ObtainedRoom(h, size, base);
    var o := Obtain(h, size, base);
    TrimCuts(o, tag, size);
    ChoiceIsFirst(h, size);
    hide Inv, Obtain, Choice, Trim, ListFor, CutTo, RegionIsNew;
    PagesAreFewest(size);
    if Choice(h, size).None? {
      assert FromPages(h, h', size, tag, PagesFor(size));
    } else {
      var j: nat :| j < |h.lists[Bucket(size)]| && h.lists[Bucket(size)][j] == tag
                    && forall k | 0 <= k < j :: !HasRoom(h, h.lists[Bucket(size)][k], size);
      assert FromList(h, h', size, tag);
    }
  }

  lemma PagesAreFewest(size: nat)
    ensures var pages := PagesFor(size);
            16 <= pages && size + 48 <= 4096 * pages && (pages > 16 ==> 4096 * (pages - 1) < size + 48)
  {
  }

  // ---------------------------------------------------------------- free

  /** a is the only block of its region that is not free. */
  ghost predicate LastOfRegion(h: Heap, a: int)
    requires a in h.blocks
  {
    forall x | x in h.blocks && x != a && h.blocks[x].base == h.blocks[a].base :: h.blocks[x].index >= 0
  }

  /** The region at b is one free block at the head of list i, one more than stood by there. */
  ghost predicate StandsBy(h: Heap, h': Heap, b: int, i: nat)
    requires b in h.regions
  {
    && h'.regions == h.regions && b in h'.blocks
    && h'.blocks[b].left == 0 && h'.blocks[b].right == 0 && h'.blocks[b].realSize == 4096 * h.regions[b]
    && h'.blocks[b].index == i < |h'.lists| && h'.lists[i] != [] && h'.lists[i][0] == b
    && |Standby(h', i)| == |Standby(h, i)| + 1
  }

  /** What free does to the region of a: nothing, while others in it are in use; else it
      stands by, unless five of its kind do already and it goes back. */
  ghost predicate KeptOrReturned(h: Heap, h': Heap, a: int) {
    && a in h.blocks && h.blocks[a].base in h.regions
    && var b := h.blocks[a].base;
       if !LastOfRegion(h, a) then h'.regions == h.regions && b in h'.blocks
       else exists i: nat :: ListFor(4096 * h.regions[b] - 48, i) &&
              if |Standby(h, i)| == 5 then h'.regions == h.regions - {b} && b !in h'.blocks
              else StandsBy(h, h', b, i)
  }

  /** The merged block: in a's region, with all live blocks but a still beside it and free
      blocks where they were. */
  ghost predicate MergedFrom(h: Heap, m: Heap, tag: int, a: int) {
    && a in h.blocks && tag in m.blocks && m.regions == h.regions && m.blocks[tag].base == h.blocks[a].base
    && (forall x | x in m.blocks && x != tag ::
          x in h.blocks && x != a && m.blocks[x].index == h.blocks[x].index && m.blocks[x].base == h.blocks[x].base)
    && (forall x | x in h.blocks && x != a && h.blocks[x].index < 0 :: x in m.blocks && x != tag)
  }

  lemma JoinShape(h: Heap, a: int, b: int)
    requires JoinReady(h, a, b)
    ensures var j := Join(h, a, b);
            && j.regions == h.regions && j.blocks.Keys == h.blocks.Keys - {b}
            && forall x | x in j.blocks ::
                 j.blocks[x].index == h.blocks[x].index && j.blocks[x].base == h.blocks[x].base
  {
  }

  lemma TakeShape(h: Heap, a: int)
    requires TakeReady(h, a)
    ensures var t := Take(h, a);
            && t.regions == h.regions && t.blocks.Keys == h.blocks.Keys
            && forall x | x in t.blocks :: t.blocks[x].base == h.blocks[x].base
                                           && t.blocks[x].index == if x == a then -1 else h.blocks[x].index
  {
  }

  lemma MeltLeftMerges(h: Heap, a: int)
    requires Inv(h) && Live(h, a)
    ensures MeltLeftReady(h, a) && MergedFrom(h, MeltLeft(h, a).heap, MeltLeft(h, a).tag, a)
  {
    hide Inv, Join, Take;
    MeltLeftKeepsInv(h, a);
    var l := h.blocks[a].left;
    SameRegion(h, a);
    if IsFree(h, l) {
      JoinShape(h, l, a);
      TakeShape(Join(h, l, a), l);
    }
  }

  lemma SameRegion(h: Heap, a: int)
    requires Inv(h) && a in h.blocks
    ensures var k := h.blocks[a];
            && (k.left in h.blocks ==> h.blocks[k.left].base == k.base && k.left != a)
            && (k.right in h.blocks ==> h.blocks[k.right].base == k.base && k.right != a)
            && 0 !in h.blocks
  {
    hide Listed, Sized, Coalesced, FewStandby;
    TiledFacts(h);
    assert Linked(h, a);
  }

  lemma MeltRightMerges(h: Heap, m: Heap, tag: int, a: int)
    requires Inv(m) && Live(m, tag) && MergedFrom(h, m, tag, a) && !IsFree(m, m.blocks[tag].left)
    ensures MeltRightReady(m, tag) && MergedFrom(h, MeltRight(m, tag), tag, a)
  {
    hide Inv, Join, Take;
    MeltRightKeepsInv(m, tag);
    var r := m.blocks[tag].right;
    SameRegion(m, tag);
    if IsFree(m, r) {
      TakeShape(m, r);
      JoinShape(Take(m, r), tag, r);
    }
  }

  lemma MergeMerges(h: Heap, a: int)
    requires Inv(h) && Live(h, a)
    ensures MergeReady(h, a)
    ensures var m := Merge(h, a);
            && Inv(m.heap) && Live(m.heap, m.tag) && NeighboursLive(m.heap, m.tag) && MergedFrom(h, m.heap, m.tag, a)
            && forall i | 0 <= i < MAX_EXP :: Standby(m.heap, i) == Standby(h, i)
  {
    MergeIsMaximal(h, a);
    MeltLeftKeepsInv(h, a);
    MeltLeftMerges(h, a);
    var l := MeltLeft(h, a);
    MeltRightMerges(h, l.heap, l.tag, a);
    hide Inv, MergedFrom, Standby, MeltLeft, MeltRight, NeighboursLive, IsFree;
    forall i | 0 <= i < MAX_EXP ensures Standby(Merge(h, a).heap, i) == Standby(h, i) {
      MeltLeftKeepsStandby(h, a, i);
      MeltRightKeepsStandby(l.heap, l.tag, i);
    }
  }

  /** A block with no live neighbour and no live block beside it is its whole region, and the
      other way round. */
  lemma WholeIffLast(h: Heap, m: Heap, tag: int, a: int)
    requires Inv(m) && Live(m, tag) && NeighboursLive(m, tag) && MergedFrom(h, m, tag, a)
    ensures Whole(m.blocks[tag]) <==> LastOfRegion(h, a)
    ensures Whole(m.blocks[tag]) ==>
              tag == h.blocks[a].base && tag in m.regions && m.blocks[tag].realSize == 4096 * m.regions[tag]
  {
    hide Listed, Sized, Coalesced, FewStandby;
    TiledFacts(m);
    assert Linked(m, tag);
    if Whole(m.blocks[tag]) {
      forall x | x in h.blocks && x != a && h.blocks[x].base == h.blocks[a].base ensures h.blocks[x].index >= 0 {
        if x in m.blocks && x != tag {
          assert Linked(m, x);
          OnlyBlockOfRegion(m, tag, x);
        }
      }
    }
  }

  lemma SettleDecides(m: Heap, tag: int, i: nat)
    requires Inv(m) && Live(m, tag) && NeighboursLive(m, tag) && Whole(m.blocks[tag])
    requires tag in m.regions && m.blocks[tag].realSize == 4096 * m.regions[tag]
    requires i == Bucket(m.blocks[tag].realSize - 48)
    ensures PutReady(m, tag) && ListFor(4096 * m.regions[tag] - 48, i)
    ensures if |Standby(m, i)| == 5 then Settle(m, tag).regions == m.regions - {tag} && tag !in Settle(m, tag).blocks
            else StandsBy(m, Settle(m, tag), tag, i)
  {
    SettleFacts(m, tag);
    BucketIsListFor(m.blocks[tag].realSize - 48);
    StandbyAfterPut(m, tag, i);
    hide Inv, NeighboursLive, ListFor, Standby;
  }

  /** What free does with the merged block: at the head of list i for its room, or back with
      its region, when it is the whole of it and five stand by. */
  ghost predicate SettledOn(m: Heap, h': Heap, tag: int, i: nat) {
    && tag in m.blocks && ListFor(m.blocks[tag].realSize - 48, i)
    && if m.blocks[tag].left == 0 && m.blocks[tag].right == 0 && |Standby(m, i)| == 5
       then h'.regions == m.regions - {tag} && tag !in h'.blocks
       else && h'.regions == m.regions && tag in h'.blocks && h'.blocks[tag].realSize == m.blocks[tag].realSize
            && h'.blocks[tag].index == i < |h'.lists| && h'.lists[i] != [] && h'.lists[i][0] == tag
  }

  ghost predicate Settled(m: Heap, h': Heap, tag: int) {
    exists i: nat :: SettledOn(m, h', tag, i)
  }

  lemma SettleSettles(m: Heap, tag: int)
    requires Inv(m) && Live(m, tag) && NeighboursLive(m, tag)
    ensures PutReady(m, tag) && Settled(m, Settle(m, tag), tag)
  {
    hide Inv, NeighboursLive, ListFor, Standby;
    SettleFacts(m, tag) by { InvParts(m); }
    BucketIsListFor(m.blocks[tag].realSize - 48);
    var i: nat := Bucket(m.blocks[tag].realSize - 48);
    assert SettledOn(m, Settle(m, tag), tag, i);
  }

  lemma InvParts(h: Heap)
    requires Inv(h)
    ensures Tiled(h) && Listed(h)
  {
  }

  /** free gives a region back exactly when its last live block goes and five whole regions
      of its kind stand by already; otherwise the region is kept, whole at the head of its
      list if nothing in it is in use any more. */
  lemma FreeKeepsOrReturns(h: Heap, h': Heap, a: int)
    requires Inv(h) && Live(h, a) && Freed(h, h', a)
    ensures KeptOrReturned(h, h', a)
  {
    MergeMerges(h, a);
    var m := Merge(h, a);
    RegionOf(h, a);
    RegionOf(m.heap, m.tag);
    WholeIffLast(h, m.heap, m.tag, a);
    SettleFacts(m.heap, m.tag);
    if LastOfRegion(h, a) {
      var i: nat := Bucket(m.heap.blocks[m.tag].realSize - 48);
      SettleDecides(m.heap, m.tag, i);
      hide Inv, Standby, Merge, Settle, ListFor, LastOfRegion, NeighboursLive;
      assert Standby(m.heap, i) == Standby(h, i);
    } else {
      FreeKeepsInv(h, a);
      RegionStays(h', h, a) by { hide Inv; }
    }
  }

  lemma RegionOf(h: Heap, a: int)
    requires Inv(h) && a in h.blocks
    ensures h.blocks[a].base in h.regions
  {
    assert Linked(h, a);
  }

  lemma RegionStays(h': Heap, h: Heap, a: int)
    requires Inv(h') && a in h.blocks && h.blocks[a].base in h'.regions
    ensures h.blocks[a].base in h'.blocks
  {
  }
}
