/** The kernel heap of src/mm/liballoc.cpp as a function of its state: blocks with their
    split links, the regions they tile, and the free lists, head first.  The list links of
    the tags are not here; the class in KernelHeap.dfy is proved to keep them in step. */
module HeapModel {
  import opened Machine

  const TAG_SIZE: int := 48
  const MIN_EXP: int := 8
  const MAX_EXP: int := 32
  const MAX_COMPLETE: int := 5
  const MIN_PAGES: int := 16
  /** Requests up to here keep every 32-bit field of a tag below 2^31. */
  const MAX_REQUEST: int := 0x7FFF_EFD0

  /** index is the free list a block is on, or -1; a free block carries size 0. */
  datatype Block = Block(base: int, left: int, right: int, realSize: int, size: int, index: int)

  datatype Heap = Heap(blocks: map<int, Block>, regions: map<int, int>, lists: seq<seq<int>>)

  // ---------------------------------------------------------------- sizes

  function Pow2(n: nat): nat {
    if n == 0 then 1 else 2 * Pow2(n - 1)
  }

  /** The exponent of the highest power of two not above size. */
  function Log2(size: nat): nat {
    if size < 2 then 0 else 1 + Log2(size / 2)
  }

  /** getexp */
  function Exponent(size: nat): int {
    if size < 256 then -1 else Log2(size)
  }

  /** The free list for this many bytes of payload. */
  function Bucket(size: nat): int {
    if Exponent(size) < MIN_EXP then MIN_EXP else Exponent(size)
  }

  /** The pages allocate_new_tag asks for. */
  function PagesFor(size: nat): int {
    var usage := size + TAG_SIZE;
    var pages := usage / 4096 + if usage % 4096 != 0 then 1 else 0;
    if pages < MIN_PAGES then MIN_PAGES else pages
  }

  // ---------------------------------------------------------------- shape

  ghost function End(h: Heap, base: int): int
    requires base in h.regions
  {
    base + 4096 * h.regions[base]
  }

  /** One block and the neighbours it names. */
  ghost predicate Linked(h: Heap, a: int)
    requires a in h.blocks
  {
    var k := h.blocks[a];
    && k.base in h.regions && k.base <= a && TAG_SIZE <= k.realSize
    && a + k.realSize <= End(h, k.base)
    && (k.left == 0 <==> a == k.base)
    && (k.left != 0 ==> k.left in h.blocks && h.blocks[k.left].right == a && h.blocks[k.left].base == k.base)
    && (k.right == 0 <==> a + k.realSize == End(h, k.base))
    && (k.right != 0 ==> && k.right == a + k.realSize && k.right in h.blocks
                         && h.blocks[k.right].left == a && h.blocks[k.right].base == k.base)
  }

  ghost predicate RegionsApart(h: Heap) {
    && (forall b | b in h.regions :: 0 < b && MIN_PAGES <= h.regions[b] && 4096 * h.regions[b] < 0x8000_0000)
    && (forall b | b in h.regions :: b in h.blocks && h.blocks[b].base == b)
    && (forall b, c | b in h.regions && c in h.regions && b < c :: End(h, b) <= c)
  }

  ghost predicate BlocksApart(h: Heap) {
    forall a, b | a in h.blocks && b in h.blocks && a < b :: a + h.blocks[a].realSize <= b
  }

  ghost predicate Tiled(h: Heap) {
    RegionsApart(h) && BlocksApart(h) && forall a | a in h.blocks :: Linked(h, a)
  }

  // ---------------------------------------------------------------- lists

  ghost predicate Distinct(s: seq<int>) {
    forall i, j | 0 <= i < j < |s| :: s[i] != s[j]
  }

  /** The lists hold exactly the blocks whose index names them. */
  ghost predicate Listed(h: Heap) {
    && |h.lists| == MAX_EXP
    && (forall i | 0 <= i < MAX_EXP :: Distinct(h.lists[i]))
    && (forall i, a | 0 <= i < MAX_EXP && a in h.lists[i] :: a in h.blocks && h.blocks[a].index == i)
    && (forall a | a in h.blocks :: -1 <= h.blocks[a].index < MAX_EXP)
    && (forall a | a in h.blocks && h.blocks[a].index >= 0 :: a in h.lists[h.blocks[a].index])
  }

  /** A free block is on the list its size asks for; a live one holds its payload. */
  ghost predicate Sized(h: Heap) {
    forall a | a in h.blocks ::
      var k := h.blocks[a];
      && TAG_SIZE <= k.realSize
      && (k.index < 0 ==> 0 <= k.size <= k.realSize - TAG_SIZE)
      && (k.index >= 0 ==> k.size == 0 && k.index == Bucket(k.realSize - TAG_SIZE))
  }

  /** No two neighbours are both free. */
  ghost predicate Coalesced(h: Heap) {
    forall a | a in h.blocks && h.blocks[a].right != 0 && h.blocks[a].right in h.blocks ::
      h.blocks[a].index < 0 || h.blocks[h.blocks[a].right].index < 0
  }

  predicate Whole(k: Block) { k.left == 0 && k.right == 0 }

  /** The standby regions on list i, which l_completePages[i] counts. */
  ghost function Standby(h: Heap, i: int): set<int> {
    set a | a in h.blocks && h.blocks[a].index == i && Whole(h.blocks[a])
  }

  ghost predicate FewStandby(h: Heap) {
    forall i | 0 <= i < MAX_EXP :: |Standby(h, i)| <= MAX_COMPLETE
  }

  ghost predicate Inv(h: Heap) {
    Tiled(h) && Listed(h) && Sized(h) && Coalesced(h) && FewStandby(h)
  }

  ghost predicate IsFree(h: Heap, a: int) {
    a in h.blocks && h.blocks[a].index >= 0
  }

  ghost predicate Live(h: Heap, a: int) {
    a in h.blocks && h.blocks[a].index < 0
  }

  // ---------------------------------------------------------------- the helpers

  function Without(s: seq<int>, a: int): seq<int> {
    if s == [] then [] else if s[0] == a then s[1..] else [s[0]] + Without(s[1..], a)
  }

  // Each *Ready predicate says that a step touches only blocks and lists that exist.

  ghost predicate TakeReady(h: Heap, a: int) {
    a in h.blocks && 0 <= h.blocks[a].index < |h.lists|
  }

  /** remove_tag */
  ghost function Take(h: Heap, a: int): Heap
    requires TakeReady(h, a)
  {
    var i := h.blocks[a].index;
    Heap(h.blocks[a := h.blocks[a].(index := -1)], h.regions, h.lists[i := Without(h.lists[i], a)])
  }

  /** tag->size = size */
  ghost function Resized(h: Heap, a: int, size: int): Heap
    requires a in h.blocks
  {
    h.(blocks := h.blocks[a := h.blocks[a].(size := size)])
  }

  /** remove_tag and the new requested size, as malloc applies them to the block it found. */
  ghost function Claim(h: Heap, a: int, size: nat): Heap
    requires TakeReady(h, a)
  {
    Resized(Take(h, a), a, size)
  }

  ghost predicate PutReady(h: Heap, a: int) {
    a in h.blocks && TAG_SIZE <= h.blocks[a].realSize && Bucket(h.blocks[a].realSize - TAG_SIZE) < |h.lists|
  }

  /** insert_tag, on the list the block's size asks for */
  ghost function Put(h: Heap, a: int): Heap
    requires PutReady(h, a)
  {
    var i := Bucket(h.blocks[a].realSize - TAG_SIZE);
    Heap(h.blocks[a := h.blocks[a].(index := i, size := 0)], h.regions, h.lists[i := [a] + h.lists[i]])
  }

  ghost predicate JoinReady(h: Heap, a: int, b: int) {
    && a in h.blocks && b in h.blocks && a != b
    && (h.blocks[b].right != 0 ==> h.blocks[b].right in h.blocks && h.blocks[b].right != b)
  }

  /** b, right of a, becomes part of a: what melt_left does to its left neighbour and the
      second half of absorb_right. */
  ghost function Join(h: Heap, a: int, b: int): Heap
    requires JoinReady(h, a, b)
  {
    var r := h.blocks[b].right;
    var grown := h.blocks[a].(realSize := h.blocks[a].realSize + h.blocks[b].realSize, right := r);
    var blocks := (h.blocks - {b})[a := grown];
    Heap(if r != 0 then blocks[r := blocks[r].(left := a)] else blocks, h.regions, h.lists)
  }

  ghost predicate CutReady(h: Heap, a: int) {
    a in h.blocks && (h.blocks[a].right != 0 ==> h.blocks[a].right in h.blocks)
  }

  /** split_tag up to its call of insert_tag: the tail of a becomes a block of its own. */
  ghost function Cut(h: Heap, a: int): Heap
    requires CutReady(h, a)
  {
    var k := h.blocks[a];
    var n := a + TAG_SIZE + k.size;
    var rest := Block(k.base, a, k.right, k.realSize - TAG_SIZE - k.size, 0, -1);
    var blocks := h.blocks[a := k.(realSize := TAG_SIZE + k.size, right := n)];
    var blocks' := if k.right != 0 then blocks[k.right := blocks[k.right].(left := n)] else blocks;
    Heap(blocks'[n := rest], h.regions, h.lists)
  }

  /** allocate_new_tag, at the base the page allocator answered with */
  ghost function AddRegion(h: Heap, base: int, size: nat): Heap {
    var pages := PagesFor(size);
    Heap(h.blocks[base := Block(base, 0, 0, 4096 * pages, size, -1)], h.regions[base := pages], h.lists)
  }

  ghost function DropRegion(h: Heap, base: int): Heap {
    Heap(h.blocks - {base}, h.regions - {base}, h.lists)
  }

  // ---------------------------------------------------------------- malloc

  predicate Fits(k: Block, size: nat) {
    k.realSize - TAG_SIZE >= size + TAG_SIZE
  }

  /** The first block of a list with room for size bytes and another tag. */
  ghost function FirstFit(blocks: map<int, Block>, list: seq<int>, size: nat): Option<int> {
    if list == [] then None
    else if list[0] in blocks && Fits(blocks[list[0]], size) then Some(list[0])
    else FirstFit(blocks, list[1..], size)
  }

  /** malloc looks for a block on the one list the request's size names. */
  ghost function Choice(h: Heap, size: nat): Option<int>
    requires Bucket(size) < |h.lists|
  {
    FirstFit(h.blocks, h.lists[Bucket(size)], size)
  }

  /** The tag malloc answers with. */
  ghost function Chosen(h: Heap, size: nat, newBase: int): int
    requires Bucket(size) < |h.lists|
  {
    Choice(h, size).GetOr(newBase)
  }

  ghost predicate ObtainReady(h: Heap, size: nat) {
    Bucket(size) < |h.lists| && (Choice(h, size).Some? ==> TakeReady(h, Choice(h, size).value))
  }

  /** The chosen block, marked live and not yet trimmed. */
  ghost function Obtain(h: Heap, size: nat, newBase: int): Heap
    requires ObtainReady(h, size)
  {
    match Choice(h, size)
    case Some(a) => Claim(h, a, size)
    case None => AddRegion(h, newBase, size)
  }

  /** Give back the tail when it is big enough for a block of 256 bytes. */
  predicate Splits(k: Block) {
    k.realSize - k.size - 2 * TAG_SIZE >= 256
  }

  function TailOf(a: int, k: Block): int {
    a + TAG_SIZE + k.size
  }

  ghost predicate TrimReady(h: Heap, a: int) {
    a in h.blocks && (Splits(h.blocks[a]) ==> CutReady(h, a) && PutReady(Cut(h, a), TailOf(a, h.blocks[a])))
  }

  ghost function Trim(h: Heap, a: int): Heap
    requires TrimReady(h, a)
  {
    if Splits(h.blocks[a]) then Put(Cut(h, a), TailOf(a, h.blocks[a])) else h
  }

  ghost predicate MallocReady(h: Heap, size: nat, newBase: int) {
    ObtainReady(h, size) && TrimReady(Obtain(h, size, newBase), Chosen(h, size, newBase))
  }

  ghost function Malloc(h: Heap, size: nat, newBase: int): Heap
    requires MallocReady(h, size, newBase)
  {
    Trim(Obtain(h, size, newBase), Chosen(h, size, newBase))
  }

  // ---------------------------------------------------------------- free

  /** A heap and the tag free is working on. */
  datatype At = At(heap: Heap, tag: int)

  ghost predicate MeltLeftReady(h: Heap, a: int) {
    a in h.blocks && (IsFree(h, h.blocks[a].left) ==>
      JoinReady(h, h.blocks[a].left, a) && TakeReady(Join(h, h.blocks[a].left, a), h.blocks[a].left))
  }

  /** One turn of the first loop of free, if its guard holds: melt_left, then remove_tag. */
  ghost function MeltLeft(h: Heap, a: int): At
    requires MeltLeftReady(h, a)
  {
    var l := h.blocks[a].left;
    if IsFree(h, l) then At(Take(Join(h, l, a), l), l) else At(h, a)
  }

  ghost predicate MeltRightReady(h: Heap, a: int) {
    a in h.blocks && (IsFree(h, h.blocks[a].right) ==>
      TakeReady(h, h.blocks[a].right) && JoinReady(Take(h, h.blocks[a].right), a, h.blocks[a].right))
  }

  /** One turn of the second loop, if its guard holds: absorb_right. */
  ghost function MeltRight(h: Heap, a: int): Heap
    requires MeltRightReady(h, a)
  {
    var r := h.blocks[a].right;
    if IsFree(h, r) then Join(Take(h, r), a, r) else h
  }

  ghost predicate MergeReady(h: Heap, a: int) {
    MeltLeftReady(h, a) && MeltRightReady(MeltLeft(h, a).heap, MeltLeft(h, a).tag)
  }

  ghost function Merge(h: Heap, a: int): At
    requires MergeReady(h, a)
  {
    var m := MeltLeft(h, a);
    At(MeltRight(m.heap, m.tag), m.tag)
  }

  /** A whole region goes back to the page allocator when enough of its kind stand by. */
  ghost predicate Returns(h: Heap, a: int)
    requires PutReady(h, a)
  {
    Whole(h.blocks[a]) && |Standby(h, Bucket(h.blocks[a].realSize - TAG_SIZE))| == MAX_COMPLETE
  }

  ghost function Settle(h: Heap, a: int): Heap
    requires PutReady(h, a)
  {
    if Returns(h, a) then DropRegion(h, a) else Put(h, a)
  }

  ghost predicate FreeReady(h: Heap, a: int) {
    MergeReady(h, a) && PutReady(Merge(h, a).heap, Merge(h, a).tag)
  }

  ghost function Free(h: Heap, a: int): Heap
    requires FreeReady(h, a)
  {
    Settle(Merge(h, a).heap, Merge(h, a).tag)
  }

  // ---------------------------------------------------------------- calls

  ghost predicate Malloced(h: Heap, h': Heap, size: nat, newBase: int, tag: int) {
    MallocReady(h, size, newBase) && h' == Malloc(h, size, newBase) && tag == Chosen(h, size, newBase)
  }

  ghost predicate Freed(h: Heap, h': Heap, tag: int) {
    FreeReady(h, tag) && h' == Free(h, tag)
  }

  /** The heap malloc leaves is the one free starts from. */
  ghost predicate Reallocated(h: Heap, h': Heap, size: nat, newBase: int, oldTag: int, tag: int) {
    MallocReady(h, size, newBase) && Freed(Malloc(h, size, newBase), h', oldTag) && tag == Chosen(h, size, newBase)
  }
}
