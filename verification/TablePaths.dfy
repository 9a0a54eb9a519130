/** Which tables stand on the way to a page, and how many one-page allocations it takes to
    supply those that are missing. */
module TablePaths {
  import opened Machine
  import opened PageTables
  import opened PhysicalPages

  // ---------------------------------------------------------------- paths

  /** The slots to follow from a table, one level down each: every one of them is taken. */
  ghost predicate Reached(mem: Memory, g: nat, p: seq<nat>)
    decreases |p|
  {
    p == [] || (EntryAt(mem, g, p[0]) != 0 && Reached(mem, FrameOf(EntryAt(mem, g, p[0])), p[1..]))
  }

  /** The table they lead to. */
  ghost function TableAt(mem: Memory, g: nat, p: seq<nat>): nat
    requires Reached(mem, g, p)
    decreases |p|
  {
    if p == [] then g else TableAt(mem, FrameOf(EntryAt(mem, g, p[0])), p[1..])
  }

  /** From a root to a table below it. */
  ghost predicate IsPath(p: seq<nat>) {
    1 <= |p| <= 3 && forall k | 0 <= k < |p| :: p[k] < ENTRIES
  }

  /** The three tables below the root on the way to the page of v. */
  function Way(v: nat): set<seq<nat>> {
    {[Index(v, 4)], [Index(v, 4), Index(v, 3)], [Index(v, 4), Index(v, 3), Index(v, 2)]}
  }

  /** Those of ways that are not there. */
  ghost function Lacking(mem: Memory, root: nat, ways: set<seq<nat>>): set<seq<nat>> {
    set p | p in ways && !Reached(mem, root, p)
  }

  lemma {:induction false} ReachedOn(mem: Memory, g: nat, q: seq<nat>, i: nat)
    ensures Reached(mem, g, q + [i]) <==> Reached(mem, g, q) && EntryAt(mem, TableAt(mem, g, q), i) != 0
    ensures Reached(mem, g, q + [i]) ==> TableAt(mem, g, q + [i]) == FrameOf(EntryAt(mem, TableAt(mem, g, q), i))
    decreases |q|
  {
    if q == [] {
      assert [i][1..] == [];
      assert q + [i] == [i];
    } else {
      assert (q + [i])[1..] == q[1..] + [i];
      if EntryAt(mem, g, q[0]) != 0 {
        ReachedOn(mem, FrameOf(EntryAt(mem, g, q[0])), q[1..], i);
      }
    }
  }

  lemma SlotLeads(mem: Memory, tree: Forest, f: nat, i: nat)
    requires WellFormed(mem, tree) && f in tree && tree[f].level > 1 && i < ENTRIES && EntryAt(mem, f, i) != 0
    ensures var c := FrameOf(EntryAt(mem, f, i)); c in tree && HangsAt(tree[c], tree[f].level, f, i)
  {
    hide FrameOf;
    assert TableOk(mem, tree, f);
    assert SlotOk(mem, tree, f, i);
    var e := EntryAt(mem, f, i);
    assert TableOk(mem, tree, e - TABLE_FLAGS);
    TableEntry(e - TABLE_FLAGS);
  }

  lemma {:induction false} PathArrives(mem: Memory, tree: Forest, g: nat, p: seq<nat>)
    requires WellFormed(mem, tree) && g in tree && |p| < tree[g].level && (forall k | 0 <= k < |p| :: p[k] < ENTRIES)
    requires Reached(mem, g, p)
    ensures TableAt(mem, g, p) in tree && tree[TableAt(mem, g, p)].level == tree[g].level - |p|
    decreases |p|
  {
    if p != [] {
      SlotLeads(mem, tree, g, p[0]);
      PathArrives(mem, tree, FrameOf(EntryAt(mem, g, p[0])), p[1..]);
    }
  }

  /** Two paths from one table to one table are the same. */
  lemma {:induction false} OnePath(mem: Memory, tree: Forest, g: nat, p: seq<nat>, q: seq<nat>)
    requires WellFormed(mem, tree) && g in tree && |p| < tree[g].level && |q| < tree[g].level
    requires (forall k | 0 <= k < |p| :: p[k] < ENTRIES) && (forall k | 0 <= k < |q| :: q[k] < ENTRIES)
    requires Reached(mem, g, p) && Reached(mem, g, q) && TableAt(mem, g, p) == TableAt(mem, g, q)
    ensures p == q
    decreases |p|
  {
    PathArrives(mem, tree, g, p);
    PathArrives(mem, tree, g, q);
    if p != [] {
      var n := |p| - 1;
      assert p == p[..n] + [p[n]] && q == q[..n] + [q[n]];
      ReachedOn(mem, g, p[..n], p[n]);
      ReachedOn(mem, g, q[..n], q[n]);
      PathArrives(mem, tree, g, p[..n]);
      PathArrives(mem, tree, g, q[..n]);
      SlotLeads(mem, tree, TableAt(mem, g, p[..n]), p[n]);
      SlotLeads(mem, tree, TableAt(mem, g, q[..n]), q[n]);
      OnePath(mem, tree, g, p[..n], q[..n]);
    }
  }

  // ---------------------------------------------------------------- a table more

  /** p ends in slot i of table f. */
  ghost predicate EndsIn(mem: Memory, g: nat, p: seq<nat>, f: nat, i: nat) {
    && p != [] && p[|p| - 1] == i
    && Reached(mem, g, p[..|p| - 1]) && TableAt(mem, g, p[..|p| - 1]) == f
  }

  /** A zeroed table hung on an empty slot is reached by the path to that slot, and is the end
      of no longer one. */
  lemma {:induction false} HangReached(mem: Memory, tree: Forest, f: nat, i: nat, c: nat, g: nat, p: seq<nat>)
    requires WellFormed(mem, tree) && f in tree && tree[f].level > 1 && i < ENTRIES && f in mem && i < |mem[f]|
    requires EntryAt(mem, f, i) == 0 && c !in tree && c % PAGE_SIZE == 0 && 0 < c < TWO_63
    requires g in tree && |p| < tree[g].level && forall k | 0 <= k < |p| :: p[k] < ENTRIES
    ensures Reached(Hang(mem, f, i, c), g, p) <==> Reached(mem, g, p) || EndsIn(mem, g, p, f, i)
    decreases |p|
  {
    var mem' := Hang(mem, f, i, c);
    if p != [] {
      var x, rest := p[0], p[1..];
      if g == f && x == i {
        TableEntry(c);
        assert EntryAt(mem', f, i) == c + TABLE_FLAGS;
        BlankEnds(mem', c, rest);
        if rest != [] {
          assert p[..|p| - 1][0] == x;
        }
      } else {
        assert TableOk(mem, tree, g);
        assert EntryAt(mem', g, x) == EntryAt(mem, g, x);
        EndsLater(mem, g, p, f, i);
        if EntryAt(mem, g, x) != 0 {
          SlotLeads(mem, tree, g, x);
          HangReached(mem, tree, f, i, c, FrameOf(EntryAt(mem, g, x)), rest);
        }
      }
    }
  }

  lemma BlankEnds(mem: Memory, c: nat, p: seq<nat>)
    requires c in mem && mem[c] == Blank()
    ensures Reached(mem, c, p) <==> p == []
  {
  }

  lemma EndsLater(mem: Memory, g: nat, p: seq<nat>, f: nat, i: nat)
    requires p != [] && !(g == f && p[0] == i)
    ensures EndsIn(mem, g, p, f, i) <==>
              EntryAt(mem, g, p[0]) != 0 && EndsIn(mem, FrameOf(EntryAt(mem, g, p[0])), p[1..], f, i)
  {
    var n := |p| - 1;
    if n > 0 {
      assert p[..n][1..] == p[1..][..n - 1];
      assert p[..n][0] == p[0];
    }
  }

  /** A store to a last table changes no path. */
  lemma {:induction false} PokeReached(mem: Memory, tree: Forest, f: nat, i: nat, e: nat, g: nat, p: seq<nat>)
    requires WellFormed(mem, tree) && f in tree && tree[f].level == 1 && f in mem && i < |mem[f]|
    requires g in tree && |p| < tree[g].level && forall k | 0 <= k < |p| :: p[k] < ENTRIES
    ensures Reached(Poke(mem, f, i, e), g, p) <==> Reached(mem, g, p)
    decreases |p|
  {
    if p != [] {
      assert TableOk(mem, tree, g);
      if EntryAt(mem, g, p[0]) != 0 {
        SlotLeads(mem, tree, g, p[0]);
        PokeReached(mem, tree, f, i, e, FrameOf(EntryAt(mem, g, p[0])), p[1..]);
      }
    }
  }

  // ---------------------------------------------------------------- supply

  /** What n one-page allocations in a row leave, if none of them halts. */
  function InARow(s: Pages, n: nat): Option<Pages>
    decreases n
  {
    if n == 0 then Some(s)
    else
      match Alloc(s, 1)
      case None => None
      case Some(a) => InARow(a.pages, n - 1)
  }

  lemma {:induction false} RowsAdd(s: Pages, m: nat, n: nat)
    ensures InARow(s, m + n) == if InARow(s, m).None? then None else InARow(InARow(s, m).value, n)
    decreases m
  {
    hide Alloc;
    if m > 0 && Alloc(s, 1).Some? {
      RowsAdd(Alloc(s, 1).value.pages, m - 1, n);
    }
  }

  /** All tables of ways below root are there now, and no others that were not. */
  ghost predicate Grown(mem: Memory, mem': Memory, root: nat, ways: set<seq<nat>>) {
    forall p | IsPath(p) :: Reached(mem', root, p) <==> Reached(mem, root, p) || p in ways
  }

  /** s' is what it takes of s to supply the tables of ways that mem lacks; None when the
      machine halts over it. */
  ghost function Supply(s: Pages, mem: Memory, root: nat, ways: set<seq<nat>>): Option<Pages> {
    InARow(s, |Lacking(mem, root, ways)|)
  }

  ghost predicate ArePaths(ways: set<seq<nat>>) {
    forall p | p in ways :: IsPath(p)
  }

  lemma GrownBoth(mem: Memory, mem': Memory, mem'': Memory, root: nat, ways: set<seq<nat>>, more: set<seq<nat>>)
    requires Grown(mem, mem', root, ways) && Grown(mem', mem'', root, more)
    ensures Grown(mem, mem'', root, ways + more)
  {
    hide Reached, IsPath;
  }

  /** Supplying two sets of tables one after the other is supplying both. */
  lemma SupplyBoth(s: Pages, mem: Memory, mem': Memory, root: nat, ways: set<seq<nat>>, more: set<seq<nat>>)
    requires Grown(mem, mem', root, ways) && ArePaths(ways) && ArePaths(more)
    ensures Supply(s, mem, root, ways + more) ==
              if Supply(s, mem, root, ways).None? then None
              else Supply(Supply(s, mem, root, ways).value, mem', root, more)
  {
    hide Reached, IsPath, InARow;
    var a, b := Lacking(mem, root, ways), Lacking(mem', root, more);
    assert Lacking(mem, root, ways + more) == a + b;
    assert a !! b;
    RowsAdd(s, |a|, |b|);
  }

  /** One table is supplied by one allocation or none. */
  lemma SupplyOne(s: Pages, mem: Memory, root: nat, p: seq<nat>)
    ensures Supply(s, mem, root, {p}) ==
              if Reached(mem, root, p) then Some(s)
              else if Alloc(s, 1).None? then None else Some(Alloc(s, 1).value.pages)
  {
    hide Alloc, Reached;
    if Reached(mem, root, p) {
      assert Lacking(mem, root, {p}) == {};
    } else {
      assert Lacking(mem, root, {p}) == {p};
      assert InARow(s, 1) == if Alloc(s, 1).None? then None else InARow(Alloc(s, 1).value.pages, 0);
    }
  }

  lemma NothingToSupply(s: Pages, mem: Memory, root: nat)
    ensures Supply(s, mem, root, {}) == Some(s) && Grown(mem, mem, root, {})
  {
    assert Lacking(mem, root, {}) == {};
  }

  lemma BlankLacksAll(mem: Memory, root: nat, ways: set<seq<nat>>)
    requires root in mem && mem[root] == Blank() && ArePaths(ways)
    ensures Lacking(mem, root, ways) == ways
  {
    forall p | p in ways ensures !Reached(mem, root, p) {
      BlankEnds(mem, root, p);
    }
  }

  /** What cannot be supplied for some cannot be supplied for more. */
  lemma SupplyMore(s: Pages, mem: Memory, root: nat, ways: set<seq<nat>>, more: set<seq<nat>>)
    requires Supply(s, mem, root, ways).None? && ways <= more
    ensures Supply(s, mem, root, more).None?
  {
    hide Reached, InARow;
    var a, b := Lacking(mem, root, ways), Lacking(mem, root, more);
    assert b == a + (b - a);
    RowsAdd(s, |a|, |b - a|);
  }

  lemma WayIsPaths(v: nat)
    ensures ArePaths(Way(v))
  {
  }
}
