/** Theorems about the page allocator: what it finds, who owns what, and what every
    history of allocations and matching frees keeps. */
module PhysicalPagesProofs {
  import opened Machine
  import opened PhysicalPages

  ghost predicate NoneServes(s: Pages, count: nat, from: nat, limit: nat) {
    forall q: nat :: !Serves(s.bits, q, count, from, limit)
  }

  /** LowestRun finds the lowest run when there is one, and only then. */
  lemma {:induction false} LowestRunIsLowest(bits: seq<bool>, count: nat, from: nat, limit: nat)
    ensures match LowestRun(bits, count, from, limit)
            case Some(p) => && Serves(bits, p, count, from, limit)
                            && forall q: nat | q < p :: !Serves(bits, q, count, from, limit)
            case None => forall q: nat :: !Serves(bits, q, count, from, limit)
    decreases limit - from
  {
    if count == 0 || from + count > limit || ClearRun(bits, from, count) {
    } else {
      LowestRunIsLowest(bits, count, from + 1, limit);
      assert forall q: nat | from < q ::
          Serves(bits, q, count, from, limit) <==> Serves(bits, q, count, from + 1, limit);
    }
  }

  /** The request is answered by a run that starts at page 0, whose address is null. */
  ghost predicate PageZeroAnswers(s: Pages, count: nat) {
    || Serves(s.bits, 0, count, s.cursor, s.limit)
    || (NoneServes(s, count, s.cursor, s.limit) && Serves(s.bits, 0, count, 0, s.cursor))
  }

  /** alloc stops the machine only for want of a run it searches, exactly when page 0 is
      not the answer: that one success reads as failure. */
  lemma HaltsOnlyForWantOfARunIff(s: Pages, count: nat)
    ensures (Alloc(s, count).None? <==>
               NoneServes(s, count, s.cursor, s.limit) && NoneServes(s, count, 0, s.cursor))
       <==> !PageZeroAnswers(s, count)
  {
    LowestRunIsLowest(s.bits, count, s.cursor, s.limit);
    LowestRunIsLowest(s.bits, count, 0, s.cursor);
    var first := LowestRun(s.bits, count, s.cursor, s.limit);
    var second := LowestRun(s.bits, count, 0, s.cursor);
    if first.Some? {
      assert Serves(s.bits, first.value, count, s.cursor, s.limit);
      if first.value == 0 {
        assert PageZeroAnswers(s, count);
        assert forall b: seq<bool> :: LowestRun(b, count, 0, 0).None?;
      } else {
        assert !PageZeroAnswers(s, count);
      }
    } else if second.Some? {
      assert Serves(s.bits, second.value, count, 0, s.cursor);
    }
  }

  /** With page 0 taken: the run at or above the cursor that starts lowest, and only when
      there is none, the lowest one that ends at or below the cursor. */
  lemma AllocIsNextFit(s: Pages, count: nat)
    requires 1 <= |s.bits| && s.bits[0]
    ensures Alloc(s, count).None? <==>
              NoneServes(s, count, s.cursor, s.limit) && NoneServes(s, count, 0, s.cursor)
    ensures match Alloc(s, count) {
              case None => true
              case Some(a) =>
                && 1 <= a.page
                && a.pages.bits == SetRange(s.bits, a.page, a.page + count, true)
                && a.pages.cursor == a.page + count
                && a.pages.limit == s.limit
                && (if NoneServes(s, count, s.cursor, s.limit)
                    then Serves(s.bits, a.page, count, 0, s.cursor)
                         && forall q: nat | q < a.page :: !Serves(s.bits, q, count, 0, s.cursor)
                    else Serves(s.bits, a.page, count, s.cursor, s.limit)
                         && forall q: nat | q < a.page :: !Serves(s.bits, q, count, s.cursor, s.limit))
            }
  {
    HaltsOnlyForWantOfARunIff(s, count);
    LowestRunIsLowest(s.bits, count, s.cursor, s.limit);
    LowestRunIsLowest(s.bits, count, 0, s.cursor);
  }

  /** Whatever free run a halting alloc has missed lies across the cursor. */
  lemma MissedRunsStraddle(s: Pages, count: nat, page: nat)
    requires 1 <= |s.bits| && s.bits[0] && s.cursor <= s.limit
    requires Alloc(s, count).None? && Serves(s.bits, page, count, 0, s.limit)
    ensures page < s.cursor < page + count
  {
    AllocIsNextFit(s, count);
    assert !Serves(s.bits, page, count, s.cursor, s.limit) && !Serves(s.bits, page, count, 0, s.cursor);
  }

  /** Where the lowest run from the cursor on is, that is where alloc goes. */
  lemma AnswersAt(s: Pages, count: nat, page: nat)
    requires 1 <= |s.bits| && s.bits[0] && Serves(s.bits, page, count, s.cursor, s.limit)
    requires forall q | s.cursor <= q < page :: s.bits[q]
    ensures Alloc(s, count).Some?
    ensures var a := Alloc(s, count).value;
            && a.page == page && a.pages.bits == SetRange(s.bits, page, page + count, true)
            && a.pages.cursor == page + count && a.pages.limit == s.limit
  {
    AllocIsNextFit(s, count);
    assert !NoneServes(s, count, s.cursor, s.limit);
    forall q: nat | q < page ensures !Serves(s.bits, q, count, s.cursor, s.limit) {
      assert s.cursor <= q < page ==> s.bits[q];
    }
  }

  // ---------------------------------------------------------------- ownership

  /** The pages handed out were nobody's, and they are the caller's afterwards. */
  lemma AllocKeepsOwnership(s: Pages, reserved: set<nat>, live: map<nat, nat>, count: nat)
    requires Owned(s, reserved, live)
    requires Alloc(s, count).Some?
    ensures var a := Alloc(s, count).value;
            && Owned(a.pages, reserved, live[a.page := count])
            && a.page !in live && 1 <= a.page && 1 <= count && a.page + count <= s.limit
            && (forall p | p in live :: p + live[p] <= a.page || a.page + count <= p)
  {
    AllocIsNextFit(s, count);
    var a := Alloc(s, count).value;
    var live' := live[a.page := count];
    assert ClearRun(s.bits, a.page, count);
    forall p | p in live ensures p + live[p] <= a.page || a.page + count <= p {
      assert Holds(live, p);
      assert p <= a.page < p + live[p] ==> Holds(live, a.page);
    }
    forall i | a.page <= i < a.page + count ensures i !in reserved {
      assert !s.bits[i];
    }
    forall i: nat | i < s.limit
      ensures a.pages.bits[i] <==> (i in reserved || Holds(live', i))
    {
      if a.page <= i < a.page + count {
        assert a.page in live';
      } else {
        HoldsOutside(live, a.page, count, i);
      }
    }
  }

  lemma HoldsOutside(live: map<nat, nat>, page: nat, count: nat, i: nat)
    requires page !in live
    requires !(page <= i < page + count)
    ensures Holds(live[page := count], i) <==> Holds(live, i)
  {
    var live' := live[page := count];
    if Holds(live, i) {
      var p :| p in live && p <= i < p + live[p];
      assert p in live';
    }
    if Holds(live', i) {
      var p :| p in live' && p <= i < p + live'[p];
      assert p in live;
    }
  }

  lemma FreeKeepsOwnership(s: Pages, reserved: set<nat>, live: map<nat, nat>, page: nat)
    requires Owned(s, reserved, live)
    requires page in live
    ensures Owned(Free(s, page, live[page]), reserved, live - {page})
  {
    var s' := Free(s, page, live[page]);
    var live' := live - {page};
    assert live == live'[page := live[page]];
    forall i: nat | i < s.limit
      ensures s'.bits[i] <==> (i in reserved || Holds(live', i))
    {
      if page <= i < page + live[page] {
        assert i !in reserved;
        assert forall p | p in live' :: p in live && (p < page || page < p);
      } else {
        HoldsOutside(live', page, live[page], i);
      }
    }
  }

  /** The two counters move in opposite directions, by the same amount, or not at all. */
  ghost function RamTotal(s: Pages): nat {
    (s.usedRam + s.freeRam) % TWO_64
  }

  lemma ModCancel(u: int, f: int, d: int)
    ensures ((u + d) % TWO_64 + (f - d) % TWO_64) % TWO_64 == (u + f) % TWO_64
  {
    var x := (u + d) % TWO_64;
    var y := (f - d) % TWO_64;
    assert (u + d) - x == TWO_64 * ((u + d) / TWO_64);
    assert (f - d) - y == TWO_64 * ((f - d) / TWO_64);
    ModShift(x + y, (u + d) / TWO_64 + (f - d) / TWO_64);
  }

  lemma {:induction false} ModShift(x: int, k: int)
    ensures (x + TWO_64 * k) % TWO_64 == x % TWO_64
    decreases if k < 0 then -k else k
  {
    if k > 0 {
      ModShift(x + TWO_64, k - 1);
    } else if k < 0 {
      ModShift(x - TWO_64, k + 1);
    }
  }

  lemma AllocKeepsRamTotal(s: Pages, count: nat)
    requires Alloc(s, count).Some?
    ensures RamTotal(Alloc(s, count).value.pages) == RamTotal(s)
  {
    ModCancel(s.usedRam, s.freeRam, count * PAGE_SIZE);
  }

  lemma FreeKeepsRamTotal(s: Pages, page: nat, count: nat)
    ensures RamTotal(Free(s, page, count)) == RamTotal(s)
  {
    ModCancel(s.usedRam, s.freeRam, -(count * PAGE_SIZE));
  }

  lemma LiveIsApart(s: Pages, reserved: set<nat>, live: map<nat, nat>, page: nat)
    requires Owned(s, reserved, live) && page in live
    ensures forall p | p in live && p != page :: p + live[p] <= page || page + live[page] <= p
  {
  }

  // ---------------------------------------------------------------- histories

  datatype Request = Take(count: nat) | Give(page: nat)

  /** The allocator together with the record of what it has handed out. */
  datatype World = Halted | World(pages: Pages, live: map<nat, nat>)

  /** A caller gives back only what it was handed, whole. */
  ghost predicate Allowed(w: World, r: Request) {
    w.World? && r.Give? ==> r.page in w.live
  }

  ghost function Serve(w: World, r: Request): World
    requires Allowed(w, r)
  {
    if w.Halted? then Halted
    else
      match r
      case Take(count) =>
        (match Alloc(w.pages, count)
         case None => Halted
         case Some(a) => World(a.pages, w.live[a.page := count]))
      case Give(page) => World(Free(w.pages, page, w.live[page]), w.live - {page})
  }

  ghost predicate History(w: World, rs: seq<Request>)
    decreases |rs|
  {
    rs == [] || (Allowed(w, rs[0]) && History(Serve(w, rs[0]), rs[1..]))
  }

  ghost function ServeAll(w: World, rs: seq<Request>): World
    requires History(w, rs)
    decreases |rs|
  {
    if rs == [] then w else ServeAll(Serve(w, rs[0]), rs[1..])
  }

  /** Over every history: live allocations stay disjoint, a bit is set exactly for a
      reserved page or a page of a live allocation, and the counters' total is constant. */
  lemma {:induction false} EveryHistoryKeepsOwnership(w: World, reserved: set<nat>, rs: seq<Request>)
    requires w.World? && Owned(w.pages, reserved, w.live)
    requires History(w, rs)
    ensures var z := ServeAll(w, rs);
            z.World? ==> Owned(z.pages, reserved, z.live) && RamTotal(z.pages) == RamTotal(w.pages)
                         && z.pages.limit == w.pages.limit
    decreases |rs|
  {
    if rs == [] {
    } else {
      var r := rs[0];
      var w' := Serve(w, r);
      if w'.Halted? {
        HaltedStays(w', rs[1..]);
      } else {
        match r {
          case Take(count) =>
            AllocKeepsOwnership(w.pages, reserved, w.live, count);
            AllocKeepsRamTotal(w.pages, count);
          case Give(page) =>
            FreeKeepsOwnership(w.pages, reserved, w.live, page);
            FreeKeepsRamTotal(w.pages, page, w.live[page]);
        }
        EveryHistoryKeepsOwnership(w', reserved, rs[1..]);
      }
    }
  }

  lemma {:induction false} HaltedStays(w: World, rs: seq<Request>)
    requires w.Halted? && History(w, rs)
    ensures ServeAll(w, rs).Halted?
    decreases |rs|
  {
    if rs != [] {
      HaltedStays(Serve(w, rs[0]), rs[1..]);
    }
  }

  // ------------------------------------------------- what the cursor remembers

  /** The page each Take of a history is answered with; a Give has no answer. */
  ghost function Answers(w: World, rs: seq<Request>): (ans: seq<nat>)
    requires History(w, rs)
    ensures |ans| == |rs|
    decreases |rs|
  {
    if rs == [] then []
    else
      var page := if rs[0].Take? && w.World? && Alloc(w.pages, rs[0].count).Some?
                  then Alloc(w.pages, rs[0].count).value.page
                  else 0;
      [page] + Answers(Serve(w, rs[0]), rs[1..])
  }

  /** k is the last Take of rs. */
  ghost predicate LastTake(rs: seq<Request>, k: nat) {
    k < |rs| && rs[k].Take? && forall j | k < j < |rs| :: rs[j].Give?
  }

  /** cursor is the lowest of start and the first pages given back from position k on. */
  ghost predicate LowestSince(rs: seq<Request>, k: int, start: nat, cursor: nat) {
    && cursor <= start
    && (forall j | k <= j < |rs| && 0 <= j && rs[j].Give? :: cursor <= rs[j].page)
    && (cursor == start || exists j | k <= j < |rs| :: 0 <= j && rs[j].Give? && rs[j].page == cursor)
  }

  ghost predicate OnlyGives(rs: seq<Request>) {
    forall j | 0 <= j < |rs| :: rs[j].Give?
  }

  lemma {:induction false} GivesLowerTheCursor(w: World, rs: seq<Request>)
    requires w.World? && History(w, rs) && ServeAll(w, rs).World? && OnlyGives(rs)
    ensures LowestSince(rs, 0, w.pages.cursor, ServeAll(w, rs).pages.cursor)
    decreases |rs|
  {
    if rs != [] {
      var w', rest := Serve(w, rs[0]), rs[1..];
      assert OnlyGives(rest) by { assert forall j | 0 <= j < |rest| :: rest[j] == rs[j + 1]; }
      GivesLowerTheCursor(w', rest);
      SinceShifts(rs, 0, w'.pages.cursor, ServeAll(w, rs).pages.cursor);
      SinceFirst(rs, w.pages.cursor, w'.pages.cursor, ServeAll(w, rs).pages.cursor);
    }
  }

  /** After any history that has answered a request, the cursor is the lowest of the end of
      the run answered last and the first pages given back since. */
  lemma {:induction false} CursorRemembers(w: World, reserved: set<nat>, rs: seq<Request>, k: nat)
    requires w.World? && Owned(w.pages, reserved, w.live) && History(w, rs) && ServeAll(w, rs).World? && LastTake(rs, k)
    ensures LowestSince(rs, k + 1, Answers(w, rs)[k] + rs[k].count, ServeAll(w, rs).pages.cursor)
    decreases |rs|
  {
    hide Owned, Alloc, LowestSince;
    var w', rest := Serve(w, rs[0]), rs[1..];
    var cursor := ServeAll(w, rs).pages.cursor;
    assert forall j | 0 <= j < |rest| :: rest[j] == rs[j + 1];
    if w'.Halted? {
      HaltedStays(w', rest);
    } else if k == 0 {
      GivesLowerTheCursor(w', rest);
      SinceShifts(rs, 0, w'.pages.cursor, cursor);
      AnswerEnds(w, reserved, rs[0].count);
    } else {
      ServedIsOwned(w, reserved, rs[0]);
      CursorRemembers(w', reserved, rest, k - 1);
      SinceShifts(rs, k, Answers(w, rs)[k] + rs[k].count, cursor);
    }
  }

  lemma AnswerEnds(w: World, reserved: set<nat>, count: nat)
    requires w.World? && Owned(w.pages, reserved, w.live) && Alloc(w.pages, count).Some?
    ensures Alloc(w.pages, count).value.pages.cursor == Alloc(w.pages, count).value.page + count
  {
    AllocIsNextFit(w.pages, count);
  }

  lemma ServedIsOwned(w: World, reserved: set<nat>, r: Request)
    requires w.World? && Owned(w.pages, reserved, w.live) && Allowed(w, r) && Serve(w, r).World?
    ensures Owned(Serve(w, r).pages, reserved, Serve(w, r).live)
    ensures 1 <= |w.pages.bits| && w.pages.bits[0]
  {
    match r {
      case Take(count) => AllocKeepsOwnership(w.pages, reserved, w.live, count);
      case Give(page) => FreeKeepsOwnership(w.pages, reserved, w.live, page);
    }
  }

  lemma SinceShifts(rs: seq<Request>, k: nat, start: nat, cursor: nat)
    requires rs != [] && LowestSince(rs[1..], k, start, cursor)
    ensures LowestSince(rs, k + 1, start, cursor)
  {
    var rest := rs[1..];
    assert forall j | 0 <= j < |rest| :: rest[j] == rs[j + 1];
    forall j | k + 1 <= j < |rs| && rs[j].Give? ensures cursor <= rs[j].page {
      assert rest[j - 1] == rs[j];
    }
    if cursor != start {
      var j :| k <= j < |rest| && rest[j].Give? && rest[j].page == cursor;
      assert rs[j + 1].page == cursor;
    }
  }

  lemma SinceFirst(rs: seq<Request>, start: nat, next: nat, cursor: nat)
    requires rs != [] && rs[0].Give? && next == (if start > rs[0].page then rs[0].page else start)
    requires LowestSince(rs, 1, next, cursor)
    ensures LowestSince(rs, 0, start, cursor)
  {
    forall j | 0 <= j < |rs| && rs[j].Give? ensures cursor <= rs[j].page {
    }
    if cursor == next != start {
      assert rs[0].page == cursor;
    }
  }

  /** So a history and its answers say which run the next request for count pages gets: the
      lowest at or above that cursor, or else the lowest below it. */
  lemma NextAnswer(w: World, reserved: set<nat>, rs: seq<Request>, count: nat, k: nat, cursor: nat)
    requires w.World? && Owned(w.pages, reserved, w.live) && History(w, rs) && ServeAll(w, rs).World?
    requires LastTake(rs, k) && LowestSince(rs, k + 1, Answers(w, rs)[k] + rs[k].count, cursor)
    ensures var s := ServeAll(w, rs).pages;
            match Alloc(s, count)
            case None => NoneServes(s, count, cursor, s.limit) && NoneServes(s, count, 0, cursor)
            case Some(a) =>
              if NoneServes(s, count, cursor, s.limit)
              then Serves(s.bits, a.page, count, 0, cursor)
                   && forall q: nat | q < a.page :: !Serves(s.bits, q, count, 0, cursor)
              else Serves(s.bits, a.page, count, cursor, s.limit)
                   && forall q: nat | q < a.page :: !Serves(s.bits, q, count, cursor, s.limit)
  {
    hide Owned, LowestSince, Alloc, ServeAll, History, NoneServes;
    CursorRemembers(w, reserved, rs, k);
    EveryHistoryKeepsOwnership(w, reserved, rs);
    var s := ServeAll(w, rs).pages;
    LowestIsOne(rs, k + 1, Answers(w, rs)[k] + rs[k].count, cursor, s.cursor);
    PageZeroIsOwned(s, reserved, ServeAll(w, rs).live);
    AllocIsNextFit(s, count);
  }

  lemma PageZeroIsOwned(s: Pages, reserved: set<nat>, live: map<nat, nat>)
    requires Owned(s, reserved, live)
    ensures 1 <= |s.bits| && s.bits[0]
  {
  }

  lemma LowestIsOne(rs: seq<Request>, k: int, start: nat, c: nat, d: nat)
    requires LowestSince(rs, k, start, c) && LowestSince(rs, k, start, d)
    ensures c == d
  {
  }

  // ------------------------------------------------- what the counters count

  /** Pages answered by a second pass, one below the cursor, or less those given back. */
  ghost function Change(w: World, r: Request): int
    requires w.World? && Allowed(w, r)
  {
    match r
    case Take(count) => if NoneServes(w.pages, count, w.pages.cursor, w.pages.limit) then count else 0
    case Give(page) =>
      var back: int := w.live[page];
      -back
  }

  ghost function Counted(w: World, rs: seq<Request>): int
    requires History(w, rs)
    decreases |rs|
  {
    if rs == [] || w.Halted? then 0 else Change(w, rs[0]) + Counted(Serve(w, rs[0]), rs[1..])
  }

  ghost predicate CountersMoved(s: Pages, z: Pages, pages: int) {
    && z.usedRam == (s.usedRam + 4096 * pages) % 0x1_0000_0000_0000_0000
    && z.freeRam == (s.freeRam - 4096 * pages) % 0x1_0000_0000_0000_0000
  }

  /** usedRam counts, modulo 2^64, the bytes of those pages and no others; freeRam is down by
      as much. */
  lemma {:induction false} CountersCount(w: World, reserved: set<nat>, rs: seq<Request>)
    requires w.World? && Owned(w.pages, reserved, w.live) && History(w, rs) && ServeAll(w, rs).World?
    requires w.pages.usedRam < TWO_64 && w.pages.freeRam < TWO_64
    ensures CountersMoved(w.pages, ServeAll(w, rs).pages, Counted(w, rs))
    decreases |rs|
  {
    hide Owned, Serve, Change;
    if rs == [] {
      SmallMod(w.pages.usedRam);
      SmallMod(w.pages.freeRam);
    } else if Serve(w, rs[0]).Halted? {
      HaltedStays(Serve(w, rs[0]), rs[1..]);
    } else {
      ServedIsOwned(w, reserved, rs[0]);
      OneCounted(w, rs[0]);
      CountersCount(Serve(w, rs[0]), reserved, rs[1..]);
      MovesAdd(w.pages, Serve(w, rs[0]).pages, ServeAll(w, rs).pages, Change(w, rs[0]),
               Counted(Serve(w, rs[0]), rs[1..]));
    }
  }

  lemma MovesAdd(s: Pages, t: Pages, z: Pages, d: int, e: int)
    requires CountersMoved(s, t, d) && CountersMoved(t, z, e)
    ensures CountersMoved(s, z, d + e)
  {
    SumMod(s.usedRam, 4096 * d, 4096 * e);
    SumMod(s.freeRam, -(4096 * d), -(4096 * e));
  }

  lemma OneCounted(w: World, r: Request)
    requires w.World? && Allowed(w, r) && Serve(w, r).World? && 1 <= |w.pages.bits| && w.pages.bits[0]
    requires w.pages.usedRam < TWO_64 && w.pages.freeRam < TWO_64
    ensures CountersMoved(w.pages, Serve(w, r).pages, Change(w, r))
    ensures Serve(w, r).pages.usedRam < TWO_64 && Serve(w, r).pages.freeRam < TWO_64
  {
    SmallMod(w.pages.usedRam);
    SmallMod(w.pages.freeRam);
    if r.Take? {
      LowestRunIsLowest(w.pages.bits, r.count, w.pages.cursor, w.pages.limit);
      TakenCounted(w.pages, r.count);
    }
  }

  lemma TakenCounted(s: Pages, count: nat)
    requires Alloc(s, count).Some? && 1 <= |s.bits| && s.bits[0] && s.usedRam < TWO_64 && s.freeRam < TWO_64
    ensures var z := Alloc(s, count).value.pages;
            if NoneServes(s, count, s.cursor, s.limit)
            then z.usedRam == (s.usedRam + 4096 * count) % TWO_64 && z.freeRam == (s.freeRam - 4096 * count) % TWO_64
            else z.usedRam == s.usedRam && z.freeRam == s.freeRam
  {
    hide ClearRun;
    LowestRunIsLowest(s.bits, count, s.cursor, s.limit);
    assert forall p: nat | Serves(s.bits, p, count, s.cursor, s.limit) :: p != 0 by { PageZeroIsTaken(s, count); }
  }

  lemma PageZeroIsTaken(s: Pages, count: nat)
    requires 1 <= |s.bits| && s.bits[0]
    ensures !Serves(s.bits, 0, count, s.cursor, s.limit)
  {
  }

  lemma SmallMod(x: nat)
    requires x < TWO_64
    ensures x % TWO_64 == x
  {
  }

  lemma SumMod(u: int, d: int, e: int)
    ensures ((u + d) % TWO_64 + e) % TWO_64 == (u + (d + e)) % TWO_64
  {
    ModShift((u + d) % TWO_64 + e, (u + d) / TWO_64);
  }

  // ------------------------------------------------- across the cursor

  /** Five requests: two single pages, the first given back, all the rest, the second given
      back. */
  const STRADDLE: seq<Request> := [Take(1), Take(1), Give(2), Take(4), Give(3)]

  /** The pages of an eight-page machine taken at each point of STRADDLE. */
  ghost predicate TakenExactly(s: Pages, taken: set<nat>) {
    |s.bits| >= 8 && s.limit == 8 && forall i: nat | i < 8 :: s.bits[i] <==> i in taken
  }

  lemma FirstThree(w: World)
    requires w.World? && w.live == map[] && w.pages.cursor == 0 && TakenExactly(w.pages, {0, 1})
    ensures var rs := STRADDLE[..3];
            && History(w, rs) && ServeAll(w, rs).World? && ServeAll(w, rs).live == map[3 := 1]
            && ServeAll(w, rs).pages.cursor == 2 && TakenExactly(ServeAll(w, rs).pages, {0, 1, 3})
  {
    AnswersAt(w.pages, 1, 2);
    var w1 := Serve(w, Take(1));
    AnswersAt(w1.pages, 1, 3);
    var w2 := Serve(w1, Take(1));
    var w3 := Serve(w2, Give(2));
    assert STRADDLE[..3] == [Take(1), Take(1), Give(2)];
    assert [Take(1), Take(1), Give(2)][1..] == [Take(1), Give(2)] && [Take(1), Give(2)][1..] == [Give(2)];
    assert History(w3, []) && ServeAll(w3, []) == w3;
    assert History(w2, [Give(2)]) && ServeAll(w2, [Give(2)]) == w3;
    assert History(w1, [Take(1), Give(2)]) && ServeAll(w1, [Take(1), Give(2)]) == w3;
    assert w2.live == map[2 := 1, 3 := 1];
  }

  lemma LastTwo(w: World)
    requires w.World? && w.live == map[3 := 1] && w.pages.cursor == 2 && TakenExactly(w.pages, {0, 1, 3})
    ensures var rs := STRADDLE[3..];
            && History(w, rs) && ServeAll(w, rs).World?
            && ServeAll(w, rs).pages.cursor == 3 && TakenExactly(ServeAll(w, rs).pages, {0, 1, 4, 5, 6, 7})
  {
    assert w.pages.bits[3];
    AllocIsNextFit(w.pages, 4);
    assert Serves(w.pages.bits, 4, 4, w.pages.cursor, w.pages.limit);
    var w1 := Serve(w, Take(4));
    forall q: nat | q < 4 ensures !Serves(w.pages.bits, q, 4, w.pages.cursor, w.pages.limit) {
      assert 2 <= q ==> q <= 3 < q + 4;
    }
    assert w1.live == map[3 := 1, 4 := 4];
    var w2 := Serve(w1, Give(3));
    assert STRADDLE[3..] == [Take(4), Give(3)] && [Take(4), Give(3)][1..] == [Give(3)];
    assert History(w2, []) && ServeAll(w2, []) == w2;
    assert History(w1, [Give(3)]) && ServeAll(w1, [Give(3)]) == w2;
  }

  lemma {:induction false} ServeBoth(w: World, rs: seq<Request>, ts: seq<Request>)
    requires History(w, rs) && History(ServeAll(w, rs), ts)
    ensures History(w, rs + ts) && ServeAll(w, rs + ts) == ServeAll(ServeAll(w, rs), ts)
    decreases |rs|
  {
    if rs == [] {
      assert rs + ts == ts;
    } else {
      assert (rs + ts)[1..] == rs[1..] + ts;
      ServeBoth(Serve(w, rs[0]), rs[1..], ts);
    }
  }

  /** A free run across the cursor is not found: a history of an eight-page machine after
      which pages 2 and 3 are free and a request for two pages halts it. */
  lemma RunAcrossTheCursorIsMissed(w: World)
    requires w.World? && w.live == map[] && w.pages.cursor == 0 && TakenExactly(w.pages, {0, 1})
    ensures History(w, STRADDLE) && ServeAll(w, STRADDLE).World?
    ensures var s := ServeAll(w, STRADDLE).pages; Serves(s.bits, 2, 2, 0, s.limit) && Alloc(s, 2).None?
  {
    hide ServeAll, History, TakenExactly, Alloc;
    FirstThree(w);
    var w3 := ServeAll(w, STRADDLE[..3]);
    LastTwo(w3);
    ServeBoth(w, STRADDLE[..3], STRADDLE[3..]);
    assert STRADDLE[..3] + STRADDLE[3..] == STRADDLE;
    HaltsOnTwo(ServeAll(w, STRADDLE).pages);
  }

  lemma HaltsOnTwo(s: Pages)
    requires s.cursor == 3 && TakenExactly(s, {0, 1, 4, 5, 6, 7})
    ensures Serves(s.bits, 2, 2, 0, s.limit) && Alloc(s, 2).None?
  {
    assert s.bits[0] && s.bits[1];
    AllocIsNextFit(s, 2);
    forall q: nat ensures !Serves(s.bits, q, 2, 3, 8) && !Serves(s.bits, q, 2, 0, 3) {
      assert q == 0 ==> s.bits[0];
      assert q == 1 ==> s.bits[1];
      assert 3 <= q < 7 ==> s.bits[q + 1];
    }
  }

  // ------------------------------------------------- one page at a time

  ghost predicate AllTakenBelow(s: Pages, n: nat) {
    forall i: nat | i < n && i < |s.bits| :: s.bits[i]
  }

  ghost predicate OnePageRequests(rs: seq<Request>) {
    forall r | r in rs && r.Take? :: r.count == 1
  }

  lemma OnePageServes(bits: seq<bool>, q: nat, from: nat, limit: nat)
    requires limit <= |bits|
    ensures Serves(bits, q, 1, from, limit) <==> from <= q < limit && !bits[q]
  {
  }

  /** While nothing is clear below the cursor, a one-page request gets the lowest clear
      page of all and halts only when there is none. */
  lemma OnePageIsLowest(s: Pages)
    requires 1 <= s.limit <= |s.bits| && s.bits[0] && s.cursor <= s.limit
    requires AllTakenBelow(s, s.cursor)
    ensures Alloc(s, 1).None? <==> AllTakenBelow(s, s.limit)
    ensures Alloc(s, 1).Some? ==>
              var a := Alloc(s, 1).value;
              && a.page < s.limit && !s.bits[a.page] && AllTakenBelow(s, a.page)
              && AllTakenBelow(a.pages, a.pages.cursor)
              && a.pages.cursor <= s.limit
  {
    AllocIsNextFit(s, 1);
    forall i: nat | i < s.limit && !s.bits[i] ensures Serves(s.bits, i, 1, s.cursor, s.limit) {
      assert i >= s.cursor;
    }
    if NoneServes(s, 1, s.cursor, s.limit) {
      forall q: nat ensures !Serves(s.bits, q, 1, 0, s.cursor) {
        OnePageServes(s.bits, q, 0, s.cursor);
      }
    } else {
      var q: nat :| Serves(s.bits, q, 1, s.cursor, s.limit);
      assert !s.bits[q];
      var a := Alloc(s, 1).value;
      assert Serves(s.bits, a.page, 1, s.cursor, s.limit);
      assert !s.bits[a.page];
    }
  }

  /** If every request is for one page, whatever is given back, the cursor never passes a
      clear page. */
  lemma {:induction false} CursorNeverPassesAClearPage(w: World, reserved: set<nat>, rs: seq<Request>)
    requires w.World? && Owned(w.pages, reserved, w.live)
    requires AllTakenBelow(w.pages, w.pages.cursor)
    requires History(w, rs) && OnePageRequests(rs)
    ensures var z := ServeAll(w, rs);
            z.World? ==> Owned(z.pages, reserved, z.live) && AllTakenBelow(z.pages, z.pages.cursor)
    decreases |rs|
  {
    if rs == [] {
    } else {
      var r := rs[0];
      var w' := Serve(w, r);
      if w'.Halted? {
        HaltedStays(w', rs[1..]);
      } else {
        match r {
          case Take(count) =>
            assert r in rs;
            OnePageIsLowest(w.pages);
            AllocKeepsOwnership(w.pages, reserved, w.live, count);
          case Give(page) =>
            FreeKeepsOwnership(w.pages, reserved, w.live, page);
        }
        CursorNeverPassesAClearPage(w', reserved, rs[1..]);
      }
    }
  }
}
