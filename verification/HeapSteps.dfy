/** What each helper of src/mm/liballoc.cpp does to the heap's invariant, one step at a time. */
module HeapSteps {
  import opened HeapModel

  // ---------------------------------------------------------------- sizes

  lemma {:induction false} Log2Bounds(size: nat)
    requires size >= 1
    ensures Pow2(Log2(size)) <= size < Pow2(Log2(size) + 1)
  {
    if size >= 2 {
      Log2Bounds(size / 2);
    }
  }

  lemma {:induction false} Log2Below(size: nat, n: nat)
    requires 1 <= n && size < Pow2(n)
    ensures Log2(size) < n
  {
    if size >= 2 {
      Log2Below(size / 2, n - 1);
    }
  }

  lemma {:induction false} Log2AtLeast(size: nat, n: nat)
    requires Pow2(n) <= size
    ensures n <= Log2(size)
  {
    if n > 0 {
      Pow2Positive(n - 1);
      Log2AtLeast(size / 2, n - 1);
    }
  }

  lemma {:induction false} Pow2Positive(n: nat)
    ensures Pow2(n) >= 1
  {
    if n > 0 { Pow2Positive(n - 1); }
  }

  lemma {:induction false} Pow2Sum(m: nat, n: nat)
    ensures Pow2(m + n) == Pow2(m) * Pow2(n)
  {
    if n > 0 {
      Pow2Sum(m, n - 1);
      assert Pow2(m + n) == 2 * Pow2(m + n - 1);
    }
  }

  lemma Pow2Values()
    ensures Pow2(8) == 0x100 && Pow2(31) == 0x8000_0000 && Pow2(32) == 0x1_0000_0000
  {
    Pow2Sum(8, 8);
    Pow2Sum(16, 8);
    Pow2Sum(24, 7);
    Pow2Sum(24, 8);
  }

  /** 2^n <= size < 2^(n+1) for the list n, the lowest list also taking less. */
  lemma BucketBounds(size: nat)
    requires size < 0x1_0000_0000
    ensures MIN_EXP <= Bucket(size) < MAX_EXP
    ensures size < Pow2(Bucket(size) + 1)
    ensures Bucket(size) > MIN_EXP || size >= 256 ==> Pow2(Bucket(size)) <= size
  {
    Pow2Values();
    if size >= 256 {
      Log2Bounds(size);
      Log2Below(size, 32);
      Log2AtLeast(size, 8);
    } else {
      assert Pow2(9) == 512;
    }
  }

  // ---------------------------------------------------------------- lists

  lemma {:induction false} WithoutHolds(s: seq<int>, a: int)
    requires Distinct(s)
    ensures forall x :: x in Without(s, a) <==> x in s && x != a
    ensures Distinct(Without(s, a))
  {
    if s != [] {
      assert s == [s[0]] + s[1..];
      if s[0] == a {
        assert forall i | 0 <= i < |s[1..]| :: s[1..][i] == s[i + 1];
      } else {
        WithoutHolds(s[1..], a);
        assert s[0] !in s[1..];
      }
    }
  }

  lemma TakeKeepsLists(h: Heap, a: int)
    requires Listed(h) && a in h.blocks && h.blocks[a].index >= 0
    ensures Listed(Take(h, a))
  {
    var i := h.blocks[a].index;
    WithoutHolds(h.lists[i], a);
  }

  lemma PutKeepsLists(h: Heap, a: int)
    requires Listed(h) && a in h.blocks && h.blocks[a].index < 0 && TAG_SIZE <= h.blocks[a].realSize < 0x8000_0000
    ensures PutReady(h, a) && Listed(Put(h, a))
  {
    BucketBounds(h.blocks[a].realSize - TAG_SIZE);
    var h' := Put(h, a);
    var i := h'.blocks[a].index;
    assert forall x :: x in h'.lists[i] <==> x == a || x in h.lists[i];
  }

  /** Removing or adding live blocks, or moving their links, leaves the lists right. */
  lemma SameIndicesKeepLists(h: Heap, h': Heap)
    requires Listed(h) && h'.lists == h.lists
    requires forall a | a in h.blocks && h.blocks[a].index >= 0 :: a in h'.blocks
    requires forall a | a in h'.blocks && a in h.blocks :: h'.blocks[a].index == h.blocks[a].index
    requires forall a | a in h'.blocks && a !in h.blocks :: h'.blocks[a].index == -1
    ensures Listed(h')
  {
  }

  // ---------------------------------------------------------------- shape

  /** Same blocks, same sizes, same links: only indices and requested sizes may differ. */
  ghost predicate SameShape(h: Heap, h': Heap) {
    && h'.regions == h.regions && h'.blocks.Keys == h.blocks.Keys
    && forall a | a in h.blocks ::
         h'.blocks[a] == h.blocks[a].(index := h'.blocks[a].index, size := h'.blocks[a].size)
  }

  lemma SameShapeTiles(h: Heap, h': Heap)
    requires Tiled(h) && SameShape(h, h')
    ensures Tiled(h')
  {
    forall a | a in h'.blocks ensures Linked(h', a) {
      assert Linked(h, a);
    }
  }

  lemma PutSameShape(h: Heap, a: int)
    requires PutReady(h, a)
    ensures SameShape(h, Put(h, a))
  {
  }

  lemma TakeSameShape(h: Heap, a: int)
    requires TakeReady(h, a)
    ensures SameShape(h, Take(h, a))
  {
  }

  lemma Positive(h: Heap, x: int)
    requires RegionsApart(h) && x in h.blocks && Linked(h, x)
    ensures 0 < x
  {
  }

  lemma TiledFacts(h: Heap)
    requires Tiled(h)
    ensures forall x | x in h.blocks :: Linked(h, x) && 0 < x
    ensures forall x | x in h.blocks && h.blocks[x].right != 0 :: h.blocks[x].right in h.blocks && x < h.blocks[x].right
    ensures forall x | x in h.blocks :: TAG_SIZE <= h.blocks[x].realSize < 0x8000_0000
  {
    forall x | x in h.blocks ensures 0 < x && h.blocks[x].realSize < 0x8000_0000 {
      assert Linked(h, x);
    }
  }

  // Join: what becomes of one block x, then of all of them.

  lemma JoinLinks(h: Heap, a: int, b: int, x: int)
    requires a in h.blocks && Linked(h, a) && h.blocks[a].right == b != 0 && Linked(h, b)
    requires h.blocks[b].right != 0 ==> Linked(h, h.blocks[b].right)
    requires x in h.blocks && x != b && Linked(h, x) && 0 < a && 0 < x
    ensures x in Join(h, a, b).blocks && Linked(Join(h, a, b), x)
  {
  }

  lemma JoinApart(h: Heap, a: int, b: int)
    requires BlocksApart(h)
    requires a in h.blocks && Linked(h, a) && h.blocks[a].right == b != 0 && Linked(h, b)
    ensures BlocksApart(Join(h, a, b))
  {
    var h' := Join(h, a, b);
    forall x, y | x in h'.blocks && y in h'.blocks && x < y
      ensures x + h'.blocks[x].realSize <= y
    {
      assert x in h.blocks && y in h.blocks;
      if x == a {
        assert b < y;
      }
    }
  }

  lemma JoinTiles(h: Heap, a: int)
    requires Tiled(h) && a in h.blocks && h.blocks[a].right != 0
    ensures Linked(h, a) && Linked(h, h.blocks[a].right)
    ensures var b := h.blocks[a].right;
            h.blocks[b].right != 0 ==> h.blocks[b].right in h.blocks && h.blocks[b].right != b
    ensures Tiled(Join(h, a, h.blocks[a].right))
  {
    assert Linked(h, a);
    var b := h.blocks[a].right;
    assert Linked(h, b);
    assert h.blocks[b].right != 0 ==> Linked(h, h.blocks[b].right);
    Positive(h, a);
    JoinKeepsLinks(h, a, b);
    JoinApart(h, a, b);
    JoinKeepsRegions(h, a, b);
  }

  lemma JoinKeepsLinks(h: Heap, a: int, b: int)
    requires RegionsApart(h) && forall x | x in h.blocks :: Linked(h, x)
    requires a in h.blocks && Linked(h, a) && h.blocks[a].right == b != 0 && Linked(h, b) && 0 < a
    requires h.blocks[b].right != 0 ==> Linked(h, h.blocks[b].right)
    ensures forall x | x in Join(h, a, b).blocks :: Linked(Join(h, a, b), x)
  {
    forall x | x in Join(h, a, b).blocks ensures Linked(Join(h, a, b), x) {
      assert x in h.blocks && x != b;
      Positive(h, x);
      JoinLinks(h, a, b, x);
    }
  }

  lemma JoinKeepsRegions(h: Heap, a: int, b: int)
    requires RegionsApart(h)
    requires a in h.blocks && Linked(h, a) && h.blocks[a].right == b != 0 && Linked(h, b) && 0 < a
    ensures RegionsApart(Join(h, a, b))
  {
    assert b !in h.regions;
  }

  // Cut

  lemma CutLinks(h: Heap, a: int, x: int)
    requires a in h.blocks && Linked(h, a) && 0 <= h.blocks[a].size && Splits(h.blocks[a])
    requires h.blocks[a].right != 0 ==> Linked(h, h.blocks[a].right)
    requires x in h.blocks && Linked(h, x)
    requires a + TAG_SIZE + h.blocks[a].size !in h.blocks
    requires 0 < a && 0 < x
    ensures Linked(Cut(h, a), x)
  {
  }

  lemma CutTailLinks(h: Heap, a: int)
    requires a in h.blocks && Linked(h, a) && 0 <= h.blocks[a].size && Splits(h.blocks[a])
    requires h.blocks[a].right != 0 ==> Linked(h, h.blocks[a].right)
    requires a + TAG_SIZE + h.blocks[a].size !in h.blocks && 0 < a
    ensures Linked(Cut(h, a), a + TAG_SIZE + h.blocks[a].size)
  {
  }

  lemma CutApart(h: Heap, a: int)
    requires BlocksApart(h)
    requires a in h.blocks && Linked(h, a) && 0 <= h.blocks[a].size && Splits(h.blocks[a])
    ensures a + TAG_SIZE + h.blocks[a].size !in h.blocks
    ensures BlocksApart(Cut(h, a))
  {
    var k := h.blocks[a];
    var n := a + TAG_SIZE + k.size;
    assert a < n < a + k.realSize;
    var h' := Cut(h, a);
    forall x, y | x in h'.blocks && y in h'.blocks && x < y
      ensures x + h'.blocks[x].realSize <= y
    {
      if x == n {
        assert a < y;
      } else if y == n && x != a {
        assert x < a;
      }
    }
  }

  lemma CutTiles(h: Heap, a: int)
    requires Tiled(h) && a in h.blocks && 0 <= h.blocks[a].size && Splits(h.blocks[a])
    ensures Linked(h, a) && Tiled(Cut(h, a))
    ensures a + TAG_SIZE + h.blocks[a].size !in h.blocks
  {
    assert Linked(h, a);
    CutApart(h, a);
    assert h.blocks[a].right != 0 ==> Linked(h, h.blocks[a].right);
    Positive(h, a);
    CutKeepsLinks(h, a);
    CutKeepsRegions(h, a);
  }

  lemma CutKeepsLinks(h: Heap, a: int)
    requires forall x | x in h.blocks :: Linked(h, x)
    requires RegionsApart(h)
    requires a in h.blocks && Linked(h, a) && 0 <= h.blocks[a].size && Splits(h.blocks[a]) && 0 < a
    requires h.blocks[a].right != 0 ==> Linked(h, h.blocks[a].right)
    requires a + TAG_SIZE + h.blocks[a].size !in h.blocks
    ensures forall x | x in Cut(h, a).blocks :: Linked(Cut(h, a), x)
  {
    assert CutReady(h, a);
    hide Linked;
    var n := a + TAG_SIZE + h.blocks[a].size;
    forall x | x in Cut(h, a).blocks ensures Linked(Cut(h, a), x) {
      if x == n {
        CutTailLinks(h, a);
      } else {
        Positive(h, x);
        CutLinks(h, a, x);
      }
    }
  }

  lemma CutKeepsRegions(h: Heap, a: int)
    requires RegionsApart(h)
    requires a in h.blocks && h.blocks[a].right != 0 ==> h.blocks[a].right in h.blocks
    requires a in h.blocks && a + TAG_SIZE + h.blocks[a].size !in h.blocks
    ensures RegionsApart(Cut(h, a))
  {
  }

  // AddRegion and DropRegion

  ghost predicate RegionIsNew(h: Heap, base: int, pages: int) {
    && 0 < base && MIN_PAGES <= pages && 4096 * pages < 0x8000_0000
    && forall b | b in h.regions :: End(h, b) <= base || base + 4096 * pages <= b
  }

  lemma AddRegionLinks(h: Heap, base: int, size: nat, x: int)
    requires base !in h.blocks && base !in h.regions && 0 < base
    requires x in h.blocks && Linked(h, x)
    ensures Linked(AddRegion(h, base, size), x)
  {
  }

  lemma BlockInsideRegion(h: Heap, base: int, pages: int, x: int)
    requires RegionIsNew(h, base, pages)
    requires x in h.blocks && Linked(h, x)
    ensures x + h.blocks[x].realSize <= base || base + 4096 * pages <= x
  {
  }

  lemma AddRegionTiles(h: Heap, base: int, size: nat)
    requires Tiled(h) && RegionIsNew(h, base, PagesFor(size))
    ensures base !in h.blocks && base !in h.regions && Tiled(AddRegion(h, base, size))
  {
    var pages := PagesFor(size);
    forall x | x in h.blocks
      ensures x + h.blocks[x].realSize <= base || base + 4096 * pages <= x
      ensures x != base && TAG_SIZE <= h.blocks[x].realSize
    {
      assert Linked(h, x);
      BlockInsideRegion(h, base, pages, x);
    }
    AddRegionApart(h, base, size);
    AddRegionKeepsLinks(h, base, size);
    AddRegionKeepsRegions(h, base, size);
  }

  lemma AddRegionKeepsLinks(h: Heap, base: int, size: nat)
    requires forall x | x in h.blocks :: Linked(h, x) && x != base
    requires base !in h.regions && 0 < base
    ensures forall x | x in AddRegion(h, base, size).blocks :: Linked(AddRegion(h, base, size), x)
  {
    forall x | x in AddRegion(h, base, size).blocks
      ensures Linked(AddRegion(h, base, size), x)
    {
      if x != base {
        AddRegionLinks(h, base, size, x);
      }
    }
  }

  lemma AddRegionKeepsRegions(h: Heap, base: int, size: nat)
    requires RegionsApart(h) && RegionIsNew(h, base, PagesFor(size)) && base !in h.blocks
    ensures base !in h.regions && RegionsApart(AddRegion(h, base, size))
  {
  }

  lemma AddRegionApart(h: Heap, base: int, size: nat)
    requires BlocksApart(h)
    requires forall x | x in h.blocks :: x + h.blocks[x].realSize <= base || base + 4096 * PagesFor(size) <= x
    requires forall x | x in h.blocks :: TAG_SIZE <= h.blocks[x].realSize && x != base
    ensures BlocksApart(AddRegion(h, base, size))
  {
  }

  lemma DropRegionLinks(h: Heap, base: int, x: int)
    requires base in h.blocks && Linked(h, base) && Whole(h.blocks[base])
    requires x in h.blocks && Linked(h, x) && h.blocks[x].base != base && 0 < x
    ensures Linked(DropRegion(h, base), x)
  {
  }

  lemma OnlyBlockOfRegion(h: Heap, base: int, x: int)
    requires BlocksApart(h)
    requires base in h.blocks && Linked(h, base) && Whole(h.blocks[base])
    requires x in h.blocks && Linked(h, x) && h.blocks[x].base == base
    ensures x == base
  {
  }

  lemma DropRegionTiles(h: Heap, base: int)
    requires Tiled(h) && base in h.blocks && Whole(h.blocks[base])
    ensures base in h.regions && End(h, base) == base + h.blocks[base].realSize
    ensures Tiled(DropRegion(h, base))
  {
    assert Linked(h, base);
    var h' := DropRegion(h, base);
    forall x | x in h'.blocks ensures Linked(h', x) {
      assert Linked(h, x);
      if h.blocks[x].base == base {
        OnlyBlockOfRegion(h, base, x);
      }
      DropRegionLinks(h, base, x);
    }
  }
}
