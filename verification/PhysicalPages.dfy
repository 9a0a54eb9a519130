/** The page bitmap allocator as a function of its state: src/mm/pmm.cpp without the
    bytes of the bitmap.  The class in PhysicalMemory.dfy is proved to compute these
    functions; the theorems about them are in PhysicalPagesProofs.dfy. */
module PhysicalPages {
  import opened Machine

  /** bits[i] is true when page i is taken; cursor is lastI; the counters are 64-bit. */
  datatype Pages = Pages(bits: seq<bool>, limit: nat, cursor: nat, usedRam: nat, freeRam: nat)

  predicate ClearRun(bits: seq<bool>, page: nat, count: nat) {
    page + count <= |bits| && forall i | page <= i < page + count :: !bits[i]
  }

  /** A request for count pages could be served at page by a search of [from, limit). */
  predicate Serves(bits: seq<bool>, page: nat, count: nat, from: nat, limit: nat) {
    count >= 1 && from <= page && page + count <= limit && ClearRun(bits, page, count)
  }

  /** The lowest page that serves the request, by trying every start in turn. */
  function LowestRun(bits: seq<bool>, count: nat, from: nat, limit: nat): Option<nat>
    decreases limit - from
  {
    if count == 0 || from + count > limit then None
    else if ClearRun(bits, from, count) then Some(from)
    else LowestRun(bits, count, from + 1, limit)
  }

  function SetRange(bits: seq<bool>, lo: nat, hi: nat, value: bool): (r: seq<bool>)
    ensures |r| == |bits|
    ensures forall i | 0 <= i < |bits| :: r[i] == if lo <= i < hi then value else bits[i]
  {
    seq(|bits|, i requires 0 <= i < |bits| => if lo <= i < hi then value else bits[i])
  }

  /** What one search leaves behind; page 0 is the null pointer of the source. */
  datatype Attempt = Attempt(page: nat, pages: Pages)

  function Search(s: Pages, count: nat, limit: nat): Attempt {
    match LowestRun(s.bits, count, s.cursor, limit)
    case Some(p) =>
      Attempt(p, s.(bits := SetRange(s.bits, p, p + count, true), cursor := p + count))
    case None =>
      Attempt(0, s.(cursor := if s.cursor < limit then limit else s.cursor))
  }

  /** One call of alloc: from the cursor up, then from the bottom up to the old cursor.
      None is the halted machine. */
  function Alloc(s: Pages, count: nat): Option<Attempt> {
    var first := Search(s, count, s.limit);
    if first.page != 0 then Some(first)
    else
      var second := Search(first.pages.(cursor := 0), count, s.cursor);
      if second.page == 0 then None
      else Some(second.(pages := Charged(second.pages, count)))
  }

  function Charged(s: Pages, count: int): Pages {
    s.(usedRam := Wrap(s.usedRam + count * PAGE_SIZE), freeRam := Wrap(s.freeRam - count * PAGE_SIZE))
  }

  function Free(s: Pages, page: nat, count: nat): Pages {
    Charged(s.(bits := SetRange(s.bits, page, page + count, false),
               cursor := if s.cursor > page then page else s.cursor), -(count as int))
  }

  // ---------------------------------------------------------------- ownership

  /** live maps the first page of each live allocation to its page count. */
  ghost predicate Holds(live: map<nat, nat>, i: nat) {
    exists p :: p in live && p <= i < p + live[p]
  }

  ghost predicate Owned(s: Pages, reserved: set<nat>, live: map<nat, nat>) {
    && s.cursor <= s.limit <= |s.bits|
    && 1 <= s.limit && s.bits[0] && 0 in reserved
    && (forall p | p in live :: 1 <= p && 1 <= live[p] && p + live[p] <= s.limit)
    && (forall p, q | p in live && q in live && p < q :: p + live[p] <= q)
    && (forall p, i | p in live && p <= i < p + live[p] :: i !in reserved)
    && (forall i: nat | i < s.limit :: s.bits[i] <==> (i in reserved || Holds(live, i)))
  }
}
