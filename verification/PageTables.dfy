/** 4-level page tables as src/mm/vmm.cpp builds them, and the flat map from page numbers
    to entries that they represent.  The format is 4-level paging, section 4.5 of volume 3A
    of the Intel 64 and IA-32 Architectures Software Developer's Manual. */
module PageTables {
  import opened Machine

  const ENTRIES: nat := 512
  /** Bits 12 to 47 of an address. */
  const PAGES: nat := 0x10_0000_0000
  const TWO_63: nat := 0x8000_0000_0000_0000
  /** present | readwrite | user */
  const TABLE_FLAGS: nat := 7

  // ---------------------------------------------------------------- bit fields

  /** (v >> 39) & 0x1ff and so on, for each level. */
  function Index(v: nat, level: nat): nat
    requires 1 <= level <= 4
  {
    match level
    case 4 => (v / 0x80_0000_0000) % 512
    case 3 => (v / 0x4000_0000) % 512
    case 2 => (v / 0x20_0000) % 512
    case _ => (v / 0x1000) % 512
  }

  /** The page of an address, as the tables see it. */
  function Page(v: nat): nat { (v / 0x1000) % PAGES }

  lemma IndicesSpellThePage(v: nat)
    ensures Page(v) == ((Index(v, 4) * 512 + Index(v, 3)) * 512 + Index(v, 2)) * 512 + Index(v, 1)
  {
    var p := v / 0x1000;
    assert v / 0x20_0000 == p / 512;
    assert v / 0x4000_0000 == p / 0x4_0000;
    assert v / 0x80_0000_0000 == p / 0x800_0000;
    SplitDigits(p);
  }

  lemma Remainder(p: nat, d: nat, low: nat)
    requires p == d * PAGES + low && low < PAGES
    ensures p % PAGES == low
  {
  }

  lemma SplitDigits(p: nat)
    ensures p % PAGES == (((p / 0x800_0000) % 512 * 512 + (p / 0x4_0000) % 512) * 512 + (p / 512) % 512) * 512 + p % 512
  {
    var a := p / 512;
    var b := a / 512;
    var c := b / 512;
    var d := c / 512;
    assert p == a * 512 + p % 512 && a == b * 512 + a % 512 && b == c * 512 + b % 512 && c == d * 512 + c % 512;
    assert p / 0x4_0000 == b;
    assert p / 0x800_0000 == c;
    var low := (((c % 512) * 512 + b % 512) * 512 + a % 512) * 512 + p % 512;
    assert p == d * PAGES + low && 0 <= low < PAGES;
    Remainder(p, d, low);
  }

  /** Two addresses take the same way through the tables exactly when they share a page. */
  lemma SamePageSameIndices(v: nat, w: nat)
    ensures Page(v) == Page(w) <==> forall level | 1 <= level <= 4 :: Index(v, level) == Index(w, level)
  {
    IndicesSpellThePage(v);
    IndicesSpellThePage(w);
    if Page(v) == Page(w) {
      DigitsAreUnique(Index(v, 4), Index(v, 3), Index(v, 2), Index(v, 1), Index(w, 4), Index(w, 3), Index(w, 2),
          Index(w, 1));
    } else {
      assert !(Index(v, 4) == Index(w, 4) && Index(v, 3) == Index(w, 3) && Index(v, 2) == Index(w, 2)
          && Index(v, 1) == Index(w, 1));
    }
  }

  lemma DigitsAreUnique(a4: nat, a3: nat, a2: nat, a1: nat, b4: nat, b3: nat, b2: nat, b1: nat)
    requires a3 < 512 && a2 < 512 && a1 < 512 && b3 < 512 && b2 < 512 && b1 < 512
    requires ((a4 * 512 + a3) * 512 + a2) * 512 + a1 == ((b4 * 512 + b3) * 512 + b2) * 512 + b1
    ensures a4 == b4 && a3 == b3 && a2 == b2 && a1 == b1
  {
  }

  /** x | y */
  function BitOr(x: nat, y: nat): nat
    decreases x + y
  {
    if x == 0 && y == 0 then 0
    else 2 * BitOr(x / 2, y / 2) + if x % 2 == 1 || y % 2 == 1 then 1 else 0
  }

  /** Bit k of x. */
  predicate Bit(x: nat, k: nat) {
    if k == 0 then x % 2 == 1 else Bit(x / 2, k - 1)
  }

  lemma {:induction false} ZeroHasNoBits(k: nat)
    ensures !Bit(0, k)
  {
    if k > 0 { ZeroHasNoBits(k - 1); }
  }

  /** A bit of the one or of the other. */
  lemma {:induction false} BitOrBits(x: nat, y: nat, k: nat)
    ensures Bit(BitOr(x, y), k) <==> Bit(x, k) || Bit(y, k)
    decreases k
  {
    if x == 0 && y == 0 {
      ZeroHasNoBits(k);
    } else if k > 0 {
      BitOrBits(x / 2, y / 2, k - 1);
    }
  }

  lemma {:induction false} BitOrZero(x: nat)
    ensures BitOr(x, 0) == x
  {
    if x > 0 { BitOrZero(x / 2); }
  }

  /** e & ~FLAG_MASK: bits 0 to 6 and bit 63 cleared. */
  function FrameOf(e: nat): nat { e % TWO_63 / 128 * 128 }

  lemma BitOrOdd(x: nat, y: nat)
    ensures BitOr(2 * x, 2 * y + 1) == 2 * BitOr(x, y) + 1
  {
    assert (2 * x) / 2 == x && (2 * y + 1) / 2 == y;
  }

  lemma FrameSurvives(frame: nat)
    requires frame % PAGE_SIZE == 0 && frame < TWO_63
    ensures FrameOf(frame + TABLE_FLAGS) == frame
  {
    var q := frame / 4096;
    assert frame == 4096 * q && q < 0x8_0000_0000_0000;
    assert (frame + TABLE_FLAGS) % TWO_63 == frame + TABLE_FLAGS;
    assert (frame + TABLE_FLAGS) / 128 == 32 * q;
  }

  /** A table's entry carries its frame and nothing is lost in it. */
  lemma TableEntry(frame: nat)
    requires frame % PAGE_SIZE == 0 && frame < TWO_63
    ensures BitOr(frame, TABLE_FLAGS) == frame + TABLE_FLAGS
    ensures FrameOf(frame + TABLE_FLAGS) == frame
  {
    hide BitOr, FrameOf;
    FrameSurvives(frame);
    OrSeven(frame / 8);
  }

  lemma OrSeven(x: nat)
    ensures BitOr(8 * x, 7) == 8 * x + 7
  {
    hide BitOr;
    BitOrZero(x);
    BitOrOdd(x, 0);
    BitOrOdd(2 * x, 1);
    BitOrOdd(4 * x, 3);
  }

  // ---------------------------------------------------------------- walking

  /** Frames that hold tables, 512 entries each. */
  type Memory = map<nat, seq<nat>>

  function EntryAt(mem: Memory, frame: nat, i: nat): nat {
    if frame in mem && i < |mem[frame]| then mem[frame][i] else 0
  }

  /** The entry for v's page under the table at frame, or 0 if some table is missing. */
  function Walk(mem: Memory, frame: nat, level: nat, v: nat): nat
    requires 1 <= level <= 4
    decreases level
  {
    var e := EntryAt(mem, frame, Index(v, level));
    if level == 1 || e == 0 then e else Walk(mem, FrameOf(e), level - 1, v)
  }

  // ---------------------------------------------------------------- the forest

  /** Where a table hangs: its level, and the table and slot that point to it (a root, at
      level 4, has none). */
  datatype Node = Node(level: nat, parent: nat, slot: nat)

  type Forest = map<nat, Node>

  /** A node one level below level, in slot i of f. */
  predicate HangsAt(n: Node, level: nat, f: nat, i: nat) {
    n.level + 1 == level && n.parent == f && n.slot == i
  }

  /** Slot i of table f is empty or holds the one table that hangs there. */
  ghost predicate SlotOk(mem: Memory, tree: Forest, f: nat, i: nat)
    requires f in tree
  {
    var e := EntryAt(mem, f, i);
    e == 0 || (e >= TABLE_FLAGS && e - TABLE_FLAGS in tree && HangsAt(tree[e - TABLE_FLAGS], tree[f].level, f, i))
  }

  ghost predicate TableOk(mem: Memory, tree: Forest, f: nat)
    requires f in tree
  {
    && f in mem && |mem[f]| == ENTRIES
    && f % PAGE_SIZE == 0 && 0 < f < TWO_63 && 1 <= tree[f].level <= 4
    && (tree[f].level > 1 ==> forall i: nat | i < ENTRIES :: SlotOk(mem, tree, f, i))
  }

  /** The tables of all address spaces form trees of pairwise distinct frames. */
  ghost predicate WellFormed(mem: Memory, tree: Forest) {
    forall f | f in tree :: TableOk(mem, tree, f)
  }

  ghost predicate IsRoot(tree: Forest, f: nat) {
    f in tree && tree[f].level == 4
  }

  /** The table at the next level down on v's way, if it is there. */
  lemma NextTable(mem: Memory, tree: Forest, f: nat, v: nat)
    requires WellFormed(mem, tree) && f in tree && tree[f].level > 1
    ensures tree[f].level <= 4
    ensures var i := Index(v, tree[f].level); var e := EntryAt(mem, f, i);
            e != 0 ==> FrameOf(e) in tree && HangsAt(tree[FrameOf(e)], tree[f].level, f, i)
  {
    assert TableOk(mem, tree, f);
    var i := Index(v, tree[f].level);
    assert SlotOk(mem, tree, f, i);
    var e := EntryAt(mem, f, i);
    if e != 0 {
      assert TableOk(mem, tree, e - TABLE_FLAGS);
      TableEntry(e - TABLE_FLAGS);
    }
  }

  // ---------------------------------------------------------------- changes

  function Poke(mem: Memory, f: nat, i: nat, e: nat): Memory
    requires f in mem && i < |mem[f]|
  {
    var table: seq<nat> := mem[f][i := e];
    mem[f := table]
  }

  function Blank(): seq<nat> {
    seq(ENTRIES, i => 0)
  }

  /** A zeroed table at frame c, hung on slot i of f. */
  function Hang(mem: Memory, f: nat, i: nat, c: nat): Memory
    requires f in mem && i < |mem[f]|
  {
    Poke(mem, f, i, c + TABLE_FLAGS)[c := Blank()]
  }

  lemma HangKeepsForest(mem: Memory, tree: Forest, f: nat, i: nat, c: nat)
    requires WellFormed(mem, tree) && f in tree && tree[f].level > 1 && i < ENTRIES
    requires c !in tree && c % PAGE_SIZE == 0 && 0 < c < TWO_63
    ensures f in mem && i < |mem[f]|
    ensures WellFormed(Hang(mem, f, i, c), tree[c := Node(tree[f].level - 1, f, i)])
  {
    assert TableOk(mem, tree, f);
    var mem', tree' := Hang(mem, f, i, c), tree[c := Node(tree[f].level - 1, f, i)];
    forall g | g in tree' ensures TableOk(mem', tree', g) {
      if g != c {
        assert TableOk(mem, tree, g);
        forall k: nat | k < ENTRIES && tree[g].level > 1 ensures SlotOk(mem', tree', g, k) {
          assert SlotOk(mem, tree, g, k);
        }
      }
    }
  }

  lemma NewRootKeepsForest(mem: Memory, tree: Forest, c: nat)
    requires WellFormed(mem, tree) && c !in tree && c % PAGE_SIZE == 0 && 0 < c < TWO_63
    ensures WellFormed(mem[c := Blank()], tree[c := Node(4, 0, 0)])
  {
    var mem', tree' := mem[c := Blank()], tree[c := Node(4, 0, 0)];
    forall g | g in tree' ensures TableOk(mem', tree', g) {
      if g != c {
        assert TableOk(mem, tree, g);
        forall k: nat | k < ENTRIES && tree[g].level > 1 ensures SlotOk(mem', tree', g, k) {
          assert SlotOk(mem, tree, g, k);
        }
      }
    }
  }

  lemma LeafKeepsForest(mem: Memory, tree: Forest, f: nat, i: nat, e: nat)
    requires WellFormed(mem, tree) && f in tree && tree[f].level == 1 && i < ENTRIES
    ensures f in mem && i < |mem[f]| && WellFormed(Poke(mem, f, i, e), tree)
  {
    assert TableOk(mem, tree, f);
    var mem' := Poke(mem, f, i, e);
    forall g | g in tree ensures TableOk(mem', tree, g) {
      assert TableOk(mem, tree, g);
      forall k: nat | k < ENTRIES && tree[g].level > 1 ensures SlotOk(mem', tree, g, k) {
        assert SlotOk(mem, tree, g, k);
      }
    }
  }

  /** A walk that only sees tables a change left alone gives what it gave. */
  lemma {:induction false} HangKeepsWalks(mem: Memory, tree: Forest, f: nat, i: nat, c: nat, g: nat, v: nat)
    requires WellFormed(mem, tree) && f in tree && tree[f].level > 1 && i < ENTRIES && f in mem && i < |mem[f]|
    requires EntryAt(mem, f, i) == 0 && c !in tree && c % PAGE_SIZE == 0 && 0 < c < TWO_63
    requires g in tree
    ensures 1 <= tree[g].level <= 4
    ensures Walk(Hang(mem, f, i, c), g, tree[g].level, v) == Walk(mem, g, tree[g].level, v)
    decreases tree[g].level
  {
    assert TableOk(mem, tree, g);
    var level := tree[g].level;
    var k := Index(v, level);
    var mem' := Hang(mem, f, i, c);
    if g == f && k == i {
      TableEntry(c);
      assert EntryAt(mem', f, i) == c + TABLE_FLAGS;
      assert EntryAt(mem', c, Index(v, level - 1)) == 0;
    } else {
      assert EntryAt(mem', g, k) == EntryAt(mem, g, k);
      if level > 1 {
        NextTable(mem, tree, g, v);
        var e := EntryAt(mem, g, k);
        if e != 0 {
          HangKeepsWalks(mem, tree, f, i, c, FrameOf(e), v);
        }
      }
    }
  }

  // ---------------------------------------------------------------- the last table

  /** f is the level-1 table on the way of v from the root g. */
  ghost predicate Leads(mem: Memory, tree: Forest, g: nat, v: nat, f: nat)
    requires g in tree && 1 <= tree[g].level <= 4
    decreases tree[g].level
  {
    if tree[g].level == 1 then g == f
    else
      var e := EntryAt(mem, g, Index(v, tree[g].level));
      && e != 0 && FrameOf(e) in tree && tree[FrameOf(e)].level == tree[g].level - 1
      && Leads(mem, tree, FrameOf(e), v, f)
  }

  /** Writing the last table changes the walks that end in its slot, and no others. */
  lemma {:induction false} LeafWalks(mem: Memory, tree: Forest, f: nat, i: nat, e: nat, g: nat, v: nat)
    requires WellFormed(mem, tree) && f in tree && tree[f].level == 1 && i < ENTRIES && f in mem && i < |mem[f]|
    requires g in tree
    ensures 1 <= tree[g].level <= 4
    ensures Walk(Poke(mem, f, i, e), g, tree[g].level, v) ==
              if Leads(mem, tree, g, v, f) && Index(v, 1) == i then e else Walk(mem, g, tree[g].level, v)
    decreases tree[g].level
  {
    assert TableOk(mem, tree, g);
    var mem' := Poke(mem, f, i, e);
    if tree[g].level > 1 {
      NextTable(mem, tree, g, v);
      var k := Index(v, tree[g].level);
      assert EntryAt(mem', g, k) == EntryAt(mem, g, k);
      var x := EntryAt(mem, g, k);
      if x != 0 {
        LeafWalks(mem, tree, f, i, e, FrameOf(x), v);
      }
    }
  }

  /** Two ways that end in the same last table are one way: same root, same indices. */
  lemma {:induction false} OneWayToATable(mem: Memory, tree: Forest, g: nat, v: nat, h: nat, w: nat, f: nat)
    requires WellFormed(mem, tree) && g in tree && h in tree
    requires 1 <= tree[g].level == tree[h].level <= 4
    requires Leads(mem, tree, g, v, f) && Leads(mem, tree, h, w, f)
    ensures g == h && forall level | 1 < level <= tree[g].level :: Index(v, level) == Index(w, level)
    decreases tree[g].level
  {
    var level := tree[g].level;
    if level > 1 {
      NextTable(mem, tree, g, v);
      NextTable(mem, tree, h, w);
      var x, y := EntryAt(mem, g, Index(v, level)), EntryAt(mem, h, Index(w, level));
      OneWayToATable(mem, tree, FrameOf(x), v, FrameOf(y), w, f);
    }
  }

  // ---------------------------------------------------------------- the flat map

  /** What an address space maps: page number to entry, 0 for an unmapped page. */
  ghost function Flat(mem: Memory, root: nat): imap<nat, nat> {
    imap n: nat | n < PAGES :: Walk(mem, root, 4, n * 0x1000)
  }

  lemma {:induction false} SameIndicesSameWalk(mem: Memory, f: nat, level: nat, v: nat, w: nat)
    requires 1 <= level <= 4 && forall k | 1 <= k <= level :: Index(v, k) == Index(w, k)
    ensures Walk(mem, f, level, v) == Walk(mem, f, level, w)
    decreases level
  {
    var e := EntryAt(mem, f, Index(v, level));
    if level > 1 && e != 0 {
      SameIndicesSameWalk(mem, FrameOf(e), level - 1, v, w);
    }
  }

  /** The flat map says for a page what the walk says for each address in it. */
  lemma FlatIsTheWalk(mem: Memory, root: nat, v: nat)
    ensures Flat(mem, root)[Page(v)] == Walk(mem, root, 4, v)
  {
    assert Page(Page(v) * 0x1000) == Page(v);
    SamePageSameIndices(v, Page(v) * 0x1000);
    SameIndicesSameWalk(mem, root, 4, v, Page(v) * 0x1000);
  }

  lemma {:induction false} SameIndicesSameTable(mem: Memory, tree: Forest, g: nat, v: nat, w: nat, f: nat)
    requires g in tree && 1 <= tree[g].level <= 4
    requires forall k | 1 <= k <= tree[g].level :: Index(v, k) == Index(w, k)
    requires Leads(mem, tree, g, v, f)
    ensures Leads(mem, tree, g, w, f)
    decreases tree[g].level
  {
    if tree[g].level > 1 {
      SameIndicesSameTable(mem, tree, FrameOf(EntryAt(mem, g, Index(v, tree[g].level))), v, w, f);
    }
  }

  /** Where page n of root h stands after v's slot in v's last table was written. */
  lemma LeafUpdatesPage(mem: Memory, tree: Forest, g: nat, v: nat, f: nat, e: nat, h: nat, n: nat)
    requires WellFormed(mem, tree) && IsRoot(tree, g) && IsRoot(tree, h) && n < PAGES
    requires f in tree && tree[f].level == 1 && f in mem && Index(v, 1) < |mem[f]| && Leads(mem, tree, g, v, f)
    ensures Walk(Poke(mem, f, Index(v, 1), e), h, 4, n * 0x1000) ==
              if h == g && n == Page(v) then e else Walk(mem, h, 4, n * 0x1000)
  {
    hide WellFormed, Page, Leads, Walk, Index;
    var w := n * 0x1000;
    IndexBelow(v, 1);
    LeafWalks(mem, tree, f, Index(v, 1), e, h, w);
    assert Page(w) == n by { PageOfPage(n); }
    SamePageSameIndices(v, w);
    if Leads(mem, tree, h, w, f) && Index(w, 1) == Index(v, 1) {
      OneWayToATable(mem, tree, h, w, g, v, f);
    }
    if h == g && n == Page(v) {
      SameIndicesSameTable(mem, tree, g, v, w, f);
    }
  }

  lemma PageOfPage(n: nat)
    requires n < PAGES
    ensures Page(n * 0x1000) == n
  {
  }

  lemma IndexBelow(v: nat, level: nat)
    requires 1 <= level <= 4
    ensures Index(v, level) < ENTRIES
  {
  }

  /** The last store of MapPage is an update of the flat map at one key, and no update of
      any other address space. */
  lemma LeafUpdatesFlat(mem: Memory, tree: Forest, g: nat, v: nat, f: nat, e: nat, h: nat)
    requires WellFormed(mem, tree) && IsRoot(tree, g) && IsRoot(tree, h)
    requires f in tree && tree[f].level == 1 && f in mem && Index(v, 1) < |mem[f]| && Leads(mem, tree, g, v, f)
    ensures Flat(Poke(mem, f, Index(v, 1), e), h) == if h == g then Flat(mem, g)[Page(v) := e] else Flat(mem, h)
  {
    hide WellFormed, Leads, Walk, Index, Poke;
    forall n: nat | n < PAGES {
      LeafUpdatesPage(mem, tree, g, v, f, e, h, n);
    }
  }

  lemma HangKeepsFlat(mem: Memory, tree: Forest, f: nat, i: nat, c: nat, h: nat)
    requires WellFormed(mem, tree) && f in tree && tree[f].level > 1 && i < ENTRIES && f in mem && i < |mem[f]|
    requires EntryAt(mem, f, i) == 0 && c !in tree && c % PAGE_SIZE == 0 && 0 < c < TWO_63
    requires IsRoot(tree, h)
    ensures Flat(Hang(mem, f, i, c), h) == Flat(mem, h)
  {
    forall n: nat | n < PAGES {
      HangKeepsWalks(mem, tree, f, i, c, h, n * 0x1000);
    }
  }

  /** A fresh root maps nothing, and changes no other address space. */
  lemma {:induction false} NewRootKeepsWalks(mem: Memory, tree: Forest, c: nat, g: nat, v: nat)
    requires WellFormed(mem, tree) && c !in tree && g in tree
    ensures 1 <= tree[g].level <= 4
    ensures Walk(mem[c := Blank()], g, tree[g].level, v) == Walk(mem, g, tree[g].level, v)
    decreases tree[g].level
  {
    assert TableOk(mem, tree, g);
    if tree[g].level > 1 {
      NextTable(mem, tree, g, v);
      var e := EntryAt(mem, g, Index(v, tree[g].level));
      if e != 0 {
        NewRootKeepsWalks(mem, tree, c, FrameOf(e), v);
      }
    }
  }

  predicate IsPage(n: nat) { n < PAGES }

  ghost function NothingMapped(): imap<nat, nat> {
    imap n: nat | IsPage(n) :: 0
  }

  lemma NewRootFlat(mem: Memory, tree: Forest, c: nat)
    requires WellFormed(mem, tree) && c !in tree
    ensures Flat(mem[c := Blank()], c) == NothingMapped()
    ensures forall h | IsRoot(tree, h) :: Flat(mem[c := Blank()], h) == Flat(mem, h)
  {
    forall h, n: nat | IsRoot(tree, h) && n < PAGES
      ensures Walk(mem[c := Blank()], h, 4, n * 0x1000) == Walk(mem, h, 4, n * 0x1000)
    {
      NewRootKeepsWalks(mem, tree, c, h, n * 0x1000);
    }
  }

  // ---------------------------------------------------------------- rights

  const PRESENT: nat := 1
  const WRITE: nat := 2
  const USER: nat := 4

  /** The processor grants a right that every entry on the way grants, the last one included:
      section 4.6 of the same volume. */
  ghost predicate Granted(mem: Memory, f: nat, level: nat, v: nat, right: nat)
    requires 1 <= level <= 4 && right > 0
    decreases level
  {
    var e := EntryAt(mem, f, Index(v, level));
    e / right % 2 == 1 && (level == 1 || Granted(mem, FrameOf(e), level - 1, v, right))
  }

  /** A table above the last points to its tables by their address and the lowest three bits,
      and by nothing else. */
  lemma InnerEntries(mem: Memory, tree: Forest, f: nat, i: nat)
    requires WellFormed(mem, tree) && f in tree && tree[f].level > 1 && i < ENTRIES && EntryAt(mem, f, i) != 0
    ensures EntryAt(mem, f, i) % 4096 == 7 && EntryAt(mem, f, i) < TWO_63
    ensures FrameOf(EntryAt(mem, f, i)) == EntryAt(mem, f, i) / 4096 * 4096
  {
    hide FrameOf;
    assert TableOk(mem, tree, f);
    assert SlotOk(mem, tree, f, i);
    var c := EntryAt(mem, f, i) - TABLE_FLAGS;
    assert TableOk(mem, tree, c);
    TableEntry(c);
    assert c == 4096 * (c / 4096);
  }

  /** Permissions are of page granularity: what the whole way grants is what the last entry
      says. */
  lemma {:induction false} RightsAreTheLeafs(mem: Memory, tree: Forest, g: nat, v: nat, right: nat)
    requires WellFormed(mem, tree) && g in tree && 1 <= tree[g].level <= 4 && right in {PRESENT, WRITE, USER}
    ensures Granted(mem, g, tree[g].level, v, right) <==> Walk(mem, g, tree[g].level, v) / right % 2 == 1
    decreases tree[g].level
  {
    var level := tree[g].level;
    var e := EntryAt(mem, g, Index(v, level));
    if level > 1 && e != 0 {
      IndexBelow(v, level);
      InnerEntries(mem, tree, g, Index(v, level));
      NextTable(mem, tree, g, v);
      LowBits(e);
      RightsAreTheLeafs(mem, tree, FrameOf(e), v, right);
    }
  }

  lemma LowBits(e: nat)
    requires e % 4096 == 7
    ensures e % 2 == 1 && e / 2 % 2 == 1 && e / 4 % 2 == 1
  {
    var q := e / 4096;
    Halves(e, 2048 * q + 3);
    Halves(e / 2, 1024 * q + 1);
    Halves(e / 4, 512 * q);
    Quarter(e);
  }

  lemma Halves(e: nat, half: nat)
    requires e == 2 * half + 1
    ensures e / 2 == half && e % 2 == 1
  {
  }

  lemma Quarter(e: nat)
    ensures e / 2 / 2 == e / 4
  {
  }
}
