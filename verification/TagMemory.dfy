/** The boundary tags of src/include/mm/liballoc.h as they lie in memory, and when such a
    memory represents a heap of HeapModel. */
module TagMemory {
  import opened Machine
  import opened HeapModel
  import opened HeapSteps

  const MAGIC: int := 0xc001c0de

  newtype byte = x: int | 0 <= x < 256

  /** struct boundary_tag; 0 is the null pointer. */
  datatype Tag = Tag(magic: int, size: int, realSize: int, index: int,
                     splitLeft: int, splitRight: int, next: int, prev: int)

  // ---------------------------------------------------------------- bytes

  function LittleEndian(v: int, k: nat): byte
    decreases k
  {
    if k == 0 then (v % 256) as byte else LittleEndian(v / 256, k - 1)
  }

  /** Byte k of a tag: four 32-bit fields, then four pointers. */
  function HeaderByte(t: Tag, k: nat): byte {
    if k < 4 then LittleEndian(t.magic, k)
    else if k < 8 then LittleEndian(t.size, k - 4)
    else if k < 12 then LittleEndian(t.realSize, k - 8)
    else if k < 16 then LittleEndian(t.index, k - 12)
    else if k < 24 then LittleEndian(t.splitLeft, k - 16)
    else if k < 32 then LittleEndian(t.splitRight, k - 24)
    else if k < 40 then LittleEndian(t.next, k - 32)
    else LittleEndian(t.prev, k - 40)
  }

  /** A byte of memory; one never written reads as 0. */
  function ByteAt(data: map<int, byte>, p: int): byte {
    if p in data then data[p] else 0
  }

  predicate Within(p: int, lo: int, n: int) { lo <= p < lo + n }

  function WithHeader(data: map<int, byte>, a: int, t: Tag): map<int, byte> {
    data + map p | a <= p < a + TAG_SIZE && Within(p, a, TAG_SIZE) :: HeaderByte(t, p - a)
  }

  /** The n bytes at a as a number, least significant first. */
  function Number(data: map<int, byte>, a: int, n: nat): nat
    decreases n
  {
    if n == 0 then 0 else ByteAt(data, a) as int + 256 * Number(data, a + 1, n - 1)
  }

  /** A write to [lo, hi) destroys every tag it overlaps. */
  function Spared(tags: map<int, Tag>, lo: int, hi: int): map<int, Tag> {
    map b | b in tags && (b + TAG_SIZE <= lo || hi <= b) :: tags[b]
  }

  function WithTag(tags: map<int, Tag>, a: int, t: Tag): map<int, Tag> {
    Spared(tags, a, a + TAG_SIZE)[a := t]
  }

  // ---------------------------------------------------------------- tags and bytes

  ghost predicate HeaderAt(data: map<int, byte>, a: int, t: Tag) {
    forall p | a <= p < a + TAG_SIZE :: ByteAt(data, p) == HeaderByte(t, p - a)
  }

  /** Memory: its bytes, and the tags that lie whole in it. */
  datatype RawMemory = RawMemory(tags: map<int, Tag>, data: map<int, byte>)

  ghost predicate InStep(m: RawMemory) {
    forall a | a in m.tags :: HeaderAt(m.data, a, m.tags[a])
  }

  /** The tags are at every moment what the bytes say. */
  type TagStore = m: RawMemory | InStep(m) witness RawMemory(map[], map[])

  /** A whole tag written at a. */
  function Written(m: TagStore, a: int, t: Tag): TagStore {
    WrittenInStep(m, a, t);
    RawMemory(WithTag(m.tags, a, t), WithHeader(m.data, a, t))
  }

  lemma WrittenInStep(m: TagStore, a: int, t: Tag)
    ensures InStep(RawMemory(WithTag(m.tags, a, t), WithHeader(m.data, a, t)))
  {
    hide InStep, HeaderByte;
    var m' := RawMemory(WithTag(m.tags, a, t), WithHeader(m.data, a, t));
    forall b | b in m'.tags ensures HeaderAt(m'.data, b, m'.tags[b]) {
      if b != a {
        TagIsInStep(m, b);
        HeaderStays(m.data, m'.data, b, m.tags[b]);
      }
    }
    AllInStep(m');
  }

  lemma HeaderStays(data: map<int, byte>, data': map<int, byte>, a: int, t: Tag)
    requires HeaderAt(data, a, t) && forall p | a <= p < a + TAG_SIZE :: ByteAt(data', p) == ByteAt(data, p)
    ensures HeaderAt(data', a, t)
  {
  }

  lemma TagIsInStep(m: TagStore, a: int)
    requires a in m.tags
    ensures HeaderAt(m.data, a, m.tags[a])
  {
  }

  lemma AllInStep(m: RawMemory)
    requires forall a | a in m.tags :: HeaderAt(m.data, a, m.tags[a])
    ensures InStep(m)
  {
  }

  /** The n bytes at dest overwritten by those gap further on. */
  function WithCopy(data: map<int, byte>, dest: int, gap: int, n: nat): map<int, byte> {
    data + map q | dest <= q < dest + n && Within(q, dest, n) :: ByteAt(data, q + gap)
  }

  function Copied(m: TagStore, dest: int, gap: int, n: nat): TagStore {
    CopiedInStep(m, dest, gap, n);
    RawMemory(Spared(m.tags, dest, dest + n), WithCopy(m.data, dest, gap, n))
  }

  lemma CopiedInStep(m: TagStore, dest: int, gap: int, n: nat)
    ensures InStep(RawMemory(Spared(m.tags, dest, dest + n), WithCopy(m.data, dest, gap, n)))
  {
    hide InStep, HeaderByte;
    var m' := RawMemory(Spared(m.tags, dest, dest + n), WithCopy(m.data, dest, gap, n));
    forall b | b in m'.tags ensures HeaderAt(m'.data, b, m'.tags[b]) {
      TagIsInStep(m, b);
      HeaderStays(m.data, m'.data, b, m.tags[b]);
    }
    AllInStep(m');
  }

  /** 256 to the n */
  function Bytes(n: nat): nat {
    if n == 0 then 1 else 256 * Bytes(n - 1)
  }

  /** A field is the number its bytes spell, modulo its width. */
  lemma {:induction false} FieldReadsBack(data: map<int, byte>, a: int, v: int, n: nat)
    requires forall k: nat | k < n :: ByteAt(data, a + k) == LittleEndian(v, k)
    ensures v == Number(data, a, n) + Bytes(n) * Above(v, n)
    ensures Number(data, a, n) < Bytes(n)
    decreases n
  {
    if n > 0 {
      forall k: nat | k < n - 1 ensures ByteAt(data, a + 1 + k) == LittleEndian(v / 256, k) {
        assert ByteAt(data, a + (k + 1)) == LittleEndian(v, k + 1);
      }
      FieldReadsBack(data, a + 1, v / 256, n - 1);
      assert ByteAt(data, a + 0) == LittleEndian(v, 0);
    }
  }

  /** What is left of v above its n lowest bytes. */
  function Above(v: int, n: nat): int
    decreases n
  {
    if n == 0 then v else Above(v / 256, n - 1)
  }

  /** The tag that the 48 bytes at a spell. */
  function TagAt(data: map<int, byte>, a: int): Tag {
    var index := Number(data, a + 12, 4);
    Tag(Number(data, a, 4), Number(data, a + 4, 4), Number(data, a + 8, 4),
        if index < 0x8000_0000 then index else index - 0x1_0000_0000,
        Number(data, a + 16, 8), Number(data, a + 24, 8), Number(data, a + 32, 8), Number(data, a + 40, 8))
  }

  /** Every field has room in its bytes; index alone is signed. */
  predicate FieldsFit(t: Tag) {
    && 0 <= t.magic < 0x1_0000_0000 && 0 <= t.size < 0x1_0000_0000 && 0 <= t.realSize < 0x1_0000_0000
    && -0x8000_0000 <= t.index < 0x8000_0000
    && 0 <= t.splitLeft < TWO_64 && 0 <= t.splitRight < TWO_64 && 0 <= t.next < TWO_64 && 0 <= t.prev < TWO_64
  }

  lemma FieldFits(data: map<int, byte>, a: int, v: int, n: nat)
    requires n == 4 || n == 8
    requires forall k: nat | k < n :: ByteAt(data, a + k) == LittleEndian(v, k)
    ensures n == 4 && 0 <= v < 0x1_0000_0000 ==> Number(data, a, n) == v
    ensures n == 4 && -0x8000_0000 <= v < 0 ==> Number(data, a, n) == v + 0x1_0000_0000
    ensures n == 8 && 0 <= v < TWO_64 ==> Number(data, a, n) == v
  {
    FieldReadsBack(data, a, v, n);
    assert Bytes(4) == 0x1_0000_0000;
    assert Bytes(8) == Bytes(4) * 0x1_0000_0000;
  }

  lemma FieldAt(data: map<int, byte>, a: int, t: Tag, from: nat, v: int, n: nat)
    requires HeaderAt(data, a, t) && (n == 4 || n == 8) && from + n <= TAG_SIZE
    requires forall k: nat | k < n :: HeaderByte(t, from + k) == LittleEndian(v, k)
    ensures n == 4 && 0 <= v < 0x1_0000_0000 ==> Number(data, a + from, n) == v
    ensures n == 4 && -0x8000_0000 <= v < 0 ==> Number(data, a + from, n) == v + 0x1_0000_0000
    ensures n == 8 && 0 <= v < TWO_64 ==> Number(data, a + from, n) == v
  {
    forall k: nat | k < n ensures ByteAt(data, a + from + k) == LittleEndian(v, k) {
      assert ByteAt(data, a + (from + k)) == HeaderByte(t, from + k);
    }
    FieldFits(data, a + from, v, n);
  }

  /** A tag in memory is the tag its bytes spell. */
  lemma TagReadsBack(m: TagStore, a: int)
    requires a in m.tags && FieldsFit(m.tags[a])
    ensures TagAt(m.data, a) == m.tags[a]
  {
    hide InStep, Number, LittleEndian, HeaderAt;
    TagIsInStep(m, a);
    var t := m.tags[a];
    FieldAt(m.data, a, t, 0, t.magic, 4);
    FieldAt(m.data, a, t, 4, t.size, 4);
    FieldAt(m.data, a, t, 8, t.realSize, 4);
    FieldAt(m.data, a, t, 12, t.index, 4);
    FieldAt(m.data, a, t, 16, t.splitLeft, 8);
    FieldAt(m.data, a, t, 24, t.splitRight, 8);
    FieldAt(m.data, a, t, 32, t.next, 8);
    FieldAt(m.data, a, t, 40, t.prev, 8);
  }

  /** .. its first word the magic number. */
  lemma MagicReadsBack(m: TagStore, a: int)
    requires a in m.tags && m.tags[a].magic == MAGIC
    ensures Number(m.data, a, 4) == MAGIC
  {
    hide InStep, Number, LittleEndian, HeaderAt;
    TagIsInStep(m, a);
    FieldAt(m.data, a, m.tags[a], 0, MAGIC, 4);
  }

  // ---------------------------------------------------------------- representation

  ghost predicate Matches(t: Tag, k: Block) {
    && t.magic == MAGIC && t.realSize == k.realSize && t.index == k.index
    && t.splitLeft == k.left && t.splitRight == k.right
    && (k.index < 0 ==> t.next == 0 && t.prev == 0)
  }

  ghost predicate Mirrors(tags: map<int, Tag>, h: Heap) {
    forall a | a in h.blocks :: a in tags && Matches(tags[a], h.blocks[a])
  }

  function Nth(list: seq<int>, j: int): int {
    if 0 <= j < |list| then list[j] else 0
  }

  /** next and prev run along the list in both directions, from head. */
  ghost predicate Threaded(tags: map<int, Tag>, list: seq<int>, head: int) {
    && head == Nth(list, 0)
    && forall j {:trigger list[j] in tags} {:trigger tags[list[j]]} | 0 <= j < |list| ::
         list[j] in tags && tags[list[j]].next == Nth(list, j + 1) && tags[list[j]].prev == Nth(list, j - 1)
  }

  ghost predicate Represents(tags: map<int, Tag>, heads: seq<int>, h: Heap) {
    && |heads| == MAX_EXP == |h.lists|
    && Mirrors(tags, h)
    && forall i | 0 <= i < MAX_EXP :: Threaded(tags, h.lists[i], heads[i])
  }

  lemma SameLinksStayThreaded(tags: map<int, Tag>, tags': map<int, Tag>, list: seq<int>, head: int)
    requires Threaded(tags, list, head)
    requires forall a | a in list && a in tags ::
               a in tags' && tags'[a].next == tags[a].next && tags'[a].prev == tags[a].prev
    ensures Threaded(tags', list, head)
  {
    forall j | 0 <= j < |list|
      ensures list[j] in tags' && tags'[list[j]].next == Nth(list, j + 1) && tags'[list[j]].prev == Nth(list, j - 1)
    {
      var b := list[j];
      assert b in list && b in tags;
      assert b in tags' && tags'[b].next == tags[b].next;
    }
  }

  // ---------------------------------------------------------------- insert_tag

  /** The stores of insert_tag on the list whose head is head. */
  ghost predicate Inserted(tags: map<int, Tag>, tags': map<int, Tag>, h: Heap, a: int, i: int, head: int) {
    forall b | b in h.blocks && b in tags :: b in tags' &&
      tags'[b] == if b == a then tags[a].(index := i, next := head)
                  else if b == head then tags[b].(prev := a)
                  else tags[b]
  }

  lemma InsertThreads(tags: map<int, Tag>, tags': map<int, Tag>, h: Heap, a: int, i: int, list: seq<int>, head: int)
    requires Inserted(tags, tags', h, a, i, head) && Threaded(tags, list, head)
    requires Distinct(list) && a !in list && forall b | b in list :: b in h.blocks
    requires a in h.blocks && a in tags && tags[a].prev == 0 && 0 !in h.blocks
    ensures Threaded(tags', [a] + list, a)
  {
    var longer := [a] + list;
    forall j | 0 <= j < |longer|
      ensures longer[j] in tags' && tags'[longer[j]].next == Nth(longer, j + 1)
                && tags'[longer[j]].prev == Nth(longer, j - 1)
    {
      if j > 0 {
        assert longer[j] == list[j - 1] && list[j - 1] in list;
        assert j > 1 ==> list[j - 1] != list[0];
      }
    }
  }

  lemma InsertMirrors(tags: map<int, Tag>, tags': map<int, Tag>, h: Heap, a: int, head: int)
    requires Mirrors(tags, h) && PutReady(h, a)
    requires Inserted(tags, tags', h, a, Bucket(h.blocks[a].realSize - TAG_SIZE), head)
    requires head in h.blocks ==> h.blocks[head].index >= 0
    ensures Mirrors(tags', Put(h, a))
  {
  }

  lemma ListFacts(h: Heap, k: int)
    requires Listed(h) && 0 <= k < MAX_EXP
    ensures |h.lists| == MAX_EXP && Distinct(h.lists[k])
    ensures forall b | b in h.lists[k] :: b in h.blocks && h.blocks[b].index == k
    ensures forall b | b in h.blocks && h.blocks[b].index == k :: b in h.lists[k]
  {
  }

  /** A list that holds neither a nor the old head keeps its links. */
  lemma OtherListsInsert(tags: map<int, Tag>, tags': map<int, Tag>, h: Heap, a: int, i: int, oldHead: int,
                         list: seq<int>, head: int)
    requires Inserted(tags, tags', h, a, i, oldHead) && Threaded(tags, list, head)
    requires a !in list && oldHead !in list && forall b | b in list :: b in h.blocks
    ensures Threaded(tags', list, head)
  {
    SameLinksStayThreaded(tags, tags', list, head);
  }

  lemma HeadIsFirst(tags: map<int, Tag>, list: seq<int>, head: int)
    requires Threaded(tags, list, head)
    ensures (head == 0 && list == []) || head in list
  {
  }

  lemma InsertRepresents(tags: map<int, Tag>, tags': map<int, Tag>, heads: seq<int>, h: Heap, a: int)
    requires Represents(tags, heads, h) && Listed(h) && Live(h, a) && PutReady(h, a) && 0 !in h.blocks
    requires var i := Bucket(h.blocks[a].realSize - TAG_SIZE); Inserted(tags, tags', h, a, i, heads[i])
    ensures Represents(tags', heads[Bucket(h.blocks[a].realSize - TAG_SIZE) := a], Put(h, a))
  {
    hide Inserted, Mirrors, Threaded, Distinct, Listed;
    var i := Bucket(h.blocks[a].realSize - TAG_SIZE);
    var h', heads' := Put(h, a), heads[i := a];
    ListFacts(h, i);
    HeadIsFirst(tags, h.lists[i], heads[i]);
    InsertMirrors(tags, tags', h, a, heads[i]);
    FirstInsert(tags, a, h);
    forall k | 0 <= k < MAX_EXP ensures Threaded(tags', h'.lists[k], heads'[k]) {
      ListFacts(h, k);
      if k == i {
        InsertThreads(tags, tags', h, a, i, h.lists[i], heads[i]);
      } else {
        OtherListsInsert(tags, tags', h, a, i, heads[i], h.lists[k], heads[k]);
      }
    }
  }

  lemma FirstInsert(tags: map<int, Tag>, a: int, h: Heap)
    requires Mirrors(tags, h) && Live(h, a)
    ensures a in tags && tags[a].next == 0 && tags[a].prev == 0
  {
  }

  lemma InsertKeepsShape(tags: map<int, Tag>, tags': map<int, Tag>, heads: seq<int>, h: Heap, a: int, i: int)
    requires PutReady(h, a) && i == Bucket(h.blocks[a].realSize - TAG_SIZE)
    requires Represents(tags, heads, h) && Inserted(tags, tags', h, a, i, heads[i])
    requires Live(h, a) && Tiled(h) && Listed(h)
    ensures Tiled(Put(h, a)) && Listed(Put(h, a)) && Represents(tags', heads[i := a], Put(h, a))
  {
    hide Tiled, Listed, Represents, Inserted, SameShape, Put, Linked;
    TiledFacts(h);
    InsertRepresents(tags, tags', heads, h, a);
    PutKeepsLists(h, a);
    PutSameShape(h, a);
    SameShapeTiles(h, Put(h, a));
  }

  // ---------------------------------------------------------------- remove_tag

  /** The stores of remove_tag. */
  ghost predicate Removed(tags: map<int, Tag>, tags': map<int, Tag>, h: Heap, a: int)
    requires a in tags
  {
    forall b | b in h.blocks && b in tags :: b in tags' &&
      tags'[b] == if b == a then tags[a].(index := -1, next := 0, prev := 0)
                  else if b == tags[a].prev then tags[b].(next := tags[a].next)
                  else if b == tags[a].next then tags[b].(prev := tags[a].prev)
                  else tags[b]
  }

  lemma {:induction false} WithoutAt(list: seq<int>, p: nat)
    requires Distinct(list) && p < |list|
    ensures Without(list, list[p]) == list[..p] + list[p + 1..]
  {
    if p > 0 {
      assert list[1..][p - 1] == list[p];
      WithoutAt(list[1..], p - 1);
    }
  }

  /** Element j of the list is a's neighbour by its links exactly when it is by position. */
  lemma NeighboursByPosition(tags: map<int, Tag>, list: seq<int>, head: int, p: nat, q: nat)
    requires Threaded(tags, list, head) && Distinct(list) && p < |list| && q < |list| && 0 !in list
    ensures var a := list[p];
            && (list[q] == tags[a].prev <==> q == p - 1)
            && (list[q] == tags[a].next <==> q == p + 1)
            && (list[q] == a <==> q == p)
  {
  }

  lemma RemoveLink(tags: map<int, Tag>, tags': map<int, Tag>, h: Heap, list: seq<int>, head: int, p: nat, q: nat)
    requires Threaded(tags, list, head) && Distinct(list) && p < |list| && q < |list| && p != q && 0 !in list
    requires list[q] in h.blocks && Removed(tags, tags', h, list[p])
    ensures list[q] in tags'
    ensures tags'[list[q]].next == if q == p - 1 then Nth(list, p + 1) else Nth(list, q + 1)
    ensures tags'[list[q]].prev == if q == p + 1 then Nth(list, p - 1) else Nth(list, q - 1)
  {
    NeighboursByPosition(tags, list, head, p, q);
  }

  lemma RemoveThreads(tags: map<int, Tag>, tags': map<int, Tag>, h: Heap, a: int, list: seq<int>, head: int)
    requires Threaded(tags, list, head) && Distinct(list) && a in list && 0 !in h.blocks
    requires forall b | b in list :: b in h.blocks
    requires a in tags && Removed(tags, tags', h, a)
    ensures Threaded(tags', Without(list, a), if head == a then tags[a].next else head)
  {
    hide Distinct, Removed, Without;
    var p :| 0 <= p < |list| && list[p] == a;
    WithoutAt(list, p);
    assert list[p] in tags;
    NewHead(tags, list, head, p);
    var shorter := list[..p] + list[p + 1..];
    forall j | 0 <= j < |shorter|
      ensures shorter[j] in tags' && tags'[shorter[j]].next == Nth(shorter, j + 1)
                && tags'[shorter[j]].prev == Nth(shorter, j - 1)
    {
      hide Threaded;
      var q := if j < p then j else j + 1;
      var b := list[q];
      assert b in list;
      RemoveLink(tags, tags', h, list, head, p, q);
    }
  }

  lemma NewHead(tags: map<int, Tag>, list: seq<int>, head: int, p: nat)
    requires Threaded(tags, list, head) && Distinct(list) && p < |list| && list[p] in tags
    ensures (if head == list[p] then tags[list[p]].next else head) == Nth(list[..p] + list[p + 1..], 0)
  {
  }

  lemma RemoveMirrors(tags: map<int, Tag>, tags': map<int, Tag>, h: Heap, a: int)
    requires Mirrors(tags, h) && TakeReady(h, a) && Removed(tags, tags', h, a)
    requires tags[a].prev in h.blocks ==> h.blocks[tags[a].prev].index >= 0
    requires tags[a].next in h.blocks ==> h.blocks[tags[a].next].index >= 0
    ensures Mirrors(tags', Take(h, a))
  {
  }

  /** A free block's neighbours on its list are 0 or on the same list. */
  lemma ListNeighbours(tags: map<int, Tag>, h: Heap, a: int, heads: seq<int>)
    requires Represents(tags, heads, h) && Listed(h) && IsFree(h, a)
    ensures a in tags && TakeReady(h, a)
    ensures var i := h.blocks[a].index; var t := tags[a];
            && (t.prev != 0 ==> t.prev in h.lists[i] && t.prev in h.blocks && t.prev in tags && t.prev != a)
            && (t.next != 0 ==> t.next in h.lists[i] && t.next in h.blocks && t.next in tags && t.next != a)
            && (t.prev != 0 ==> t.prev != t.next)
  {
    var list := h.lists[h.blocks[a].index];
    assert Threaded(tags, list, heads[h.blocks[a].index]);
    var p :| 0 <= p < |list| && list[p] == a;
    assert p > 0 ==> list[p - 1] in list;
    assert p + 1 < |list| ==> list[p + 1] in list;
  }

  /** A list that holds neither a nor its neighbours keeps its links. */
  lemma OtherListsRemove(tags: map<int, Tag>, tags': map<int, Tag>, h: Heap, a: int, list: seq<int>, head: int)
    requires a in tags && Removed(tags, tags', h, a) && Threaded(tags, list, head)
    requires a !in list && tags[a].prev !in list && tags[a].next !in list && forall b | b in list :: b in h.blocks
    ensures Threaded(tags', list, head)
  {
    SameLinksStayThreaded(tags, tags', list, head);
  }

  lemma RemoveRepresents(tags: map<int, Tag>, tags': map<int, Tag>, heads: seq<int>, h: Heap, a: int)
    requires Represents(tags, heads, h) && Listed(h) && IsFree(h, a) && 0 !in h.blocks && a != 0
    requires a in tags && Removed(tags, tags', h, a)
    ensures TakeReady(h, a)
    ensures var i := h.blocks[a].index;
            Represents(tags', heads[i := if heads[i] == a then tags[a].next else heads[i]], Take(h, a))
  {
    var i := h.blocks[a].index;
    ListNeighbours(tags, h, a, heads);
    hide Removed, Mirrors, Threaded, Distinct, Listed;
    ListFacts(h, i);
    RemoveMirrors(tags, tags', h, a);
    var h' := Take(h, a);
    var heads' := heads[i := if heads[i] == a then tags[a].next else heads[i]];
    forall k | 0 <= k < MAX_EXP ensures Threaded(tags', h'.lists[k], heads'[k]) {
      ListFacts(h, k);
      if k == i {
        RemoveThreads(tags, tags', h, a, h.lists[i], heads[i]);
      } else {
        OtherListsRemove(tags, tags', h, a, h.lists[k], heads[k]);
      }
    }
  }

  lemma RemoveKeepsShape(tags: map<int, Tag>, tags': map<int, Tag>, heads: seq<int>, h: Heap, a: int)
    requires Tiled(h) && Listed(h) && Represents(tags, heads, h) && IsFree(h, a)
    requires a in tags && Removed(tags, tags', h, a)
    ensures TakeReady(h, a)
    ensures var h' := Take(h, a); var i := h.blocks[a].index;
            Tiled(h') && Listed(h')
            && Represents(tags', heads[i := if heads[i] == a then tags[a].next else heads[i]], h')
  {
    hide Tiled, Listed, Represents, Removed, SameShape, Take, Linked;
    TiledFacts(h);
    RemoveRepresents(tags, tags', heads, h, a);
    TakeKeepsLists(h, a);
    TakeSameShape(h, a);
    SameShapeTiles(h, Take(h, a));
  }

  // ---------------------------------------------------------------- split links

  /** The stores that make b part of a. */
  ghost predicate Joined(tags: map<int, Tag>, tags': map<int, Tag>, h: Heap, a: int, b: int)
    requires JoinReady(h, a, b)
  {
    var r := h.blocks[b].right;
    forall c | c in h.blocks && c in tags && c != b :: c in tags' &&
      tags'[c] == if c == a then tags[a].(realSize := h.blocks[a].realSize + h.blocks[b].realSize, splitRight := r)
                  else if c == r then tags[c].(splitLeft := a)
                  else tags[c]
  }

  lemma JoinMirrors(tags: map<int, Tag>, tags': map<int, Tag>, h: Heap, a: int, b: int)
    requires Mirrors(tags, h) && JoinReady(h, a, b) && Joined(tags, tags', h, a, b)
    requires h.blocks[b].right != a && 0 !in h.blocks
    ensures Mirrors(tags', Join(h, a, b))
  {
  }

  lemma JoinRepresents(tags: map<int, Tag>, tags': map<int, Tag>, heads: seq<int>, h: Heap, a: int, b: int)
    requires Represents(tags, heads, h) && Listed(h) && JoinReady(h, a, b) && Joined(tags, tags', h, a, b)
    requires h.blocks[b].right != a && h.blocks[b].index < 0 && 0 !in h.blocks
    ensures Represents(tags', heads, Join(h, a, b))
  {
    hide Mirrors, Threaded, Listed;
    JoinMirrors(tags, tags', h, a, b);
    forall k | 0 <= k < MAX_EXP ensures Threaded(tags', h.lists[k], heads[k]) {
      ListFacts(h, k);
      SameLinksStayThreaded(tags, tags', h.lists[k], heads[k]);
    }
  }

  /** The stores of split_tag before it calls insert_tag; n is the new tag. */
  ghost predicate Divided(tags: map<int, Tag>, tags': map<int, Tag>, h: Heap, a: int, n: int)
    requires a in h.blocks
  {
    var k := h.blocks[a];
    && n in tags' && Matches(tags'[n], Block(k.base, a, k.right, k.realSize - TAG_SIZE - k.size, 0, -1))
    && forall c | c in h.blocks && c in tags && c != n :: c in tags' &&
         tags'[c] == if c == a then tags[a].(realSize := TAG_SIZE + k.size, splitRight := n)
                     else if c == k.right then tags[c].(splitLeft := n)
                     else tags[c]
  }

  lemma CutMirrors(tags: map<int, Tag>, tags': map<int, Tag>, h: Heap, a: int)
    requires Mirrors(tags, h) && CutReady(h, a) && Divided(tags, tags', h, a, TailOf(a, h.blocks[a]))
    requires h.blocks[a].right != a && 0 !in h.blocks && TailOf(a, h.blocks[a]) !in h.blocks
    ensures Mirrors(tags', Cut(h, a))
  {
  }

  lemma CutRepresents(tags: map<int, Tag>, tags': map<int, Tag>, heads: seq<int>, h: Heap, a: int)
    requires Represents(tags, heads, h) && Listed(h) && CutReady(h, a)
               && Divided(tags, tags', h, a, TailOf(a, h.blocks[a]))
    requires h.blocks[a].right != a && 0 !in h.blocks && TailOf(a, h.blocks[a]) !in h.blocks
    ensures Represents(tags', heads, Cut(h, a))
  {
    hide Mirrors, Threaded, Listed;
    CutMirrors(tags, tags', h, a);
    forall k | 0 <= k < MAX_EXP ensures Threaded(tags', h.lists[k], heads[k]) {
      ListFacts(h, k);
      SameLinksStayThreaded(tags, tags', h.lists[k], heads[k]);
    }
  }

  /** A fresh region's one tag, or the disappearance of one: the other tags are untouched. */
  lemma RegionRepresents(tags: map<int, Tag>, tags': map<int, Tag>, heads: seq<int>, h: Heap, h': Heap)
    requires Represents(tags, heads, h) && Listed(h) && h'.lists == h.lists
    requires forall c | c in h'.blocks ::
               if c in h.blocks then h'.blocks[c] == h.blocks[c] else c in tags' && Matches(tags'[c], h'.blocks[c])
    requires forall c | c in h.blocks && c in tags :: c in tags' && tags'[c] == tags[c]
    ensures Represents(tags', heads, h')
  {
    hide Threaded, Listed;
    forall k | 0 <= k < MAX_EXP ensures Threaded(tags', h.lists[k], heads[k]) {
      ListFacts(h, k);
      SameLinksStayThreaded(tags, tags', h.lists[k], heads[k]);
    }
  }

  lemma JoinKeepsShape(tags: map<int, Tag>, tags': map<int, Tag>, heads: seq<int>, h: Heap, a: int)
    requires Tiled(h) && Listed(h) && Represents(tags, heads, h)
    requires a in h.blocks && h.blocks[a].right != 0 && Live(h, h.blocks[a].right)
    requires JoinReady(h, a, h.blocks[a].right) ==> Joined(tags, tags', h, a, h.blocks[a].right)
    ensures JoinReady(h, a, h.blocks[a].right)
    ensures var h' := Join(h, a, h.blocks[a].right);
            Tiled(h') && Listed(h') && Represents(tags', heads, h')
  {
    hide Tiled, Listed, Represents, Joined, Linked;
    TiledFacts(h);
    var b := h.blocks[a].right;
    JoinTiles(h, a);
    JoinRepresents(tags, tags', heads, h, a, b);
    SameIndicesKeepLists(h, Join(h, a, b));
  }

  lemma CutKeepsShape(tags: map<int, Tag>, tags': map<int, Tag>, heads: seq<int>, h: Heap, a: int)
    requires Tiled(h) && Listed(h) && Represents(tags, heads, h)
    requires Live(h, a) && 0 <= h.blocks[a].size && Splits(h.blocks[a])
    requires Divided(tags, tags', h, a, TailOf(a, h.blocks[a]))
    ensures CutReady(h, a)
    ensures var h' := Cut(h, a); Tiled(h') && Listed(h') && Represents(tags', heads, h')
  {
    hide Tiled, Listed, Represents, Divided, Linked;
    TiledFacts(h);
    CutTiles(h, a);
    CutRepresents(tags, tags', heads, h, a);
    SameIndicesKeepLists(h, Cut(h, a));
  }

  lemma ResizedSameShape(h: Heap, a: int, size: int)
    requires a in h.blocks
    ensures SameShape(h, Resized(h, a, size))
  {
  }

  lemma ResizeMirrors(tags: map<int, Tag>, tags': map<int, Tag>, h: Heap, a: int, size: int)
    requires Mirrors(tags, h) && a in h.blocks
    requires forall b | b in h.blocks && b in tags ::
               b in tags' && tags'[b] == if b == a then tags[a].(size := size) else tags[b]
    ensures Mirrors(tags', Resized(h, a, size))
  {
  }

  /** tag->size = size */
  lemma ResizeKeepsShape(tags: map<int, Tag>, tags': map<int, Tag>, heads: seq<int>, h: Heap, a: int, size: int)
    requires a in h.blocks && a in tags
    requires forall b | b in h.blocks && b in tags ::
               b in tags' && tags'[b] == if b == a then tags[a].(size := size) else tags[b]
    requires Represents(tags, heads, h) && Tiled(h) && Listed(h)
    ensures var h' := Resized(h, a, size); Tiled(h') && Listed(h') && Represents(tags', heads, h')
  {
    hide Tiled, Listed, Threaded, Linked, SameShape, Mirrors;
    var h' := Resized(h, a, size);
    ResizedSameShape(h, a, size);
    SameShapeTiles(h, h');
    SameIndicesKeepLists(h, h');
    ResizeMirrors(tags, tags', h, a, size);
    forall k | 0 <= k < MAX_EXP ensures Threaded(tags', h.lists[k], heads[k]) {
      ListFacts(h, k);
      SameLinksStayThreaded(tags, tags', h.lists[k], heads[k]);
    }
  }

  // ---------------------------------------------------------------- stores

  /** A tag written at a overlaps no tag of another block. */
  ghost predicate ClearOf(h: Heap, a: int) {
    forall b | b in h.blocks && b != a :: b + TAG_SIZE <= a || a + TAG_SIZE <= b
  }

  lemma BlocksAreClear(h: Heap)
    requires Tiled(h)
    ensures forall a | a in h.blocks :: ClearOf(h, a)
    ensures 0 !in h.blocks
  {
    hide Linked;
    TiledFacts(h);
    forall a, b | a in h.blocks && b in h.blocks && b != a ensures b + TAG_SIZE <= a || a + TAG_SIZE <= b {
    }
  }

  /** The place of a new tail is clear, and so are all other tags of the cut heap. */
  lemma TailIsClear(h: Heap, a: int)
    requires Tiled(h) && Live(h, a) && 0 <= h.blocks[a].size && Splits(h.blocks[a])
    ensures CutReady(h, a) && TailOf(a, h.blocks[a]) !in h.blocks && 0 !in Cut(h, a).blocks
    ensures forall b | b in Cut(h, a).blocks :: ClearOf(Cut(h, a), b)
  {
    hide Tiled, ClearOf, Linked;
    TiledFacts(h);
    CutTiles(h, a);
    BlocksAreClear(Cut(h, a));
  }

  /** [lo, hi) inside a block, past its tag. */
  ghost predicate InPayload(h: Heap, a: int, lo: int, hi: int) {
    a in h.blocks && a + TAG_SIZE <= lo <= hi <= a + h.blocks[a].realSize
  }

  /** p is no byte of a tag. */
  ghost predicate OffHeaders(h: Heap, p: int) {
    forall a | a in h.blocks :: !(a <= p < a + TAG_SIZE)
  }

  /** q is a byte of the payload that a's holder asked for. */
  ghost predicate Held(h: Heap, a: int, q: int) {
    Live(h, a) && a + TAG_SIZE <= q < a + TAG_SIZE + h.blocks[a].size
  }

  lemma HeldBytesAreOffHeaders(h: Heap)
    requires Tiled(h) && Sized(h)
    ensures forall a, q | Held(h, a, q) :: OffHeaders(h, q)
  {
    hide Tiled, OffHeaders;
    forall a, q | Held(h, a, q) ensures OffHeaders(h, q) {
      PayloadIsOffHeaders(h, a, q, q + 1);
    }
  }

  lemma FewerTagsFewerHeaders(h: Heap, h': Heap)
    requires h'.blocks.Keys <= h.blocks.Keys
    ensures forall p | OffHeaders(h, p) :: OffHeaders(h', p)
  {
  }

  lemma PayloadIsOffHeaders(h: Heap, a: int, lo: int, hi: int)
    requires Tiled(h) && InPayload(h, a, lo, hi)
    ensures forall b | b in h.blocks :: b + TAG_SIZE <= lo || hi <= b
    ensures forall p | lo <= p < hi :: OffHeaders(h, p)
  {
    hide Linked;
    TiledFacts(h);
    forall b | b in h.blocks ensures b + TAG_SIZE <= lo || hi <= b {
    }
  }

  lemma SameTagsRepresent(tags: map<int, Tag>, tags': map<int, Tag>, heads: seq<int>, h: Heap)
    requires Represents(tags, heads, h) && Listed(h)
    requires forall c | c in h.blocks && c in tags :: c in tags' && tags'[c] == tags[c]
    ensures Represents(tags', heads, h)
  {
    RegionRepresents(tags, tags', heads, h, h);
  }
}
