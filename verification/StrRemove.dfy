/** strremove of src/fs/initrd.cpp on its buffer, with the string helpers of
    src/include/util.h that it calls, and what it makes of a string. */
module StrRemove {
  import opened Machine

  type Text = seq<char>

  /** The string that starts at p: everything up to the first NUL. */
  function TextAt(buffer: seq<char>, p: nat): Text
    requires p <= |buffer|
    decreases |buffer| - p
  {
    if p == |buffer| || buffer[p] == '\0' then [] else [buffer[p]] + TextAt(buffer, p + 1)
  }

  /** A NUL ends the string at p inside the buffer. */
  ghost predicate Terminated(buffer: seq<char>, p: nat) {
    exists e :: p <= e < |buffer| && buffer[e] == '\0'
  }

  // ---------------------------------------------------------------- searching

  predicate OccursAt(s: Text, sub: Text, k: nat) {
    k + |sub| <= |s| && s[k..k + |sub|] == sub
  }

  /** The leftmost occurrence of a nonempty sub, by trying each place in turn. */
  function Find(s: Text, sub: Text, from: nat): Option<nat>
    requires from <= |s|
    decreases |s| - from
  {
    if from == |s| then None
    else if OccursAt(s, sub, from) then Some(from)
    else Find(s, sub, from + 1)
  }

  lemma {:induction false} FindIsLeftmost(s: Text, sub: Text, from: nat)
    requires from <= |s| && sub != []
    ensures match Find(s, sub, from)
            case Some(k) => from <= k && OccursAt(s, sub, k) && forall j | from <= j < k :: !OccursAt(s, sub, j)
            case None => forall j | from <= j :: !OccursAt(s, sub, j)
    decreases |s| - from
  {
    if from < |s| && !OccursAt(s, sub, from) {
      FindIsLeftmost(s, sub, from + 1);
    }
  }

  ghost predicate Contains(s: Text, sub: Text) {
    exists k :: OccursAt(s, sub, k)
  }

  /** s with its leftmost occurrences of sub deleted one after the other, each search going
      on from the place of the last deletion and never back. */
  function Removed(s: Text, sub: Text): Text
    requires sub != []
    decreases |s|
  {
    match Find(s, sub, 0)
    case None => s
    case Some(k) => FindFits(s, sub); s[..k] + Removed(s[k + |sub|..], sub)
  }

  lemma FindFits(s: Text, sub: Text)
    requires sub != []
    ensures var f := Find(s, sub, 0); f.Some? ==> f.value + |sub| <= |s|
  {
    FindIsLeftmost(s, sub, 0);
  }

  // ---------------------------------------------------------------- what it promises

  /** sub is one character, repeated. */
  ghost predicate Uniform(sub: Text) {
    forall i, j | 0 <= i < |sub| && 0 <= j < |sub| :: sub[i] == sub[j]
  }

  /** If sub is uniform, a character other than sub's ends the part kept before each
      deletion, so no occurrence can form across a seam. */
  lemma {:induction false} UniformIsRemovedForGood(s: Text, sub: Text)
    requires sub != [] && Uniform(sub)
    ensures !Contains(Removed(s, sub), sub)
    decreases |s|
  {
    FindIsLeftmost(s, sub, 0);
    match Find(s, sub, 0)
    case None =>
    case Some(k) =>
      var rest := Removed(s[k + |sub|..], sub);
      UniformIsRemovedForGood(s[k + |sub|..], sub);
      if k > 0 {
        KeptEndsOff(s, sub, k);
      }
      forall j ensures !OccursAt(s[..k] + rest, sub, j) {
        NoSeam(s, sub, k, rest, j);
      }
  }

  /** Before the leftmost occurrence of a uniform string stands another character. */
  lemma KeptEndsOff(s: Text, sub: Text, k: nat)
    requires sub != [] && Uniform(sub) && 0 < k && OccursAt(s, sub, k) && !OccursAt(s, sub, k - 1)
    ensures s[k - 1] != sub[0]
  {
    if s[k - 1] == sub[0] {
      forall i | 0 <= i < |sub| ensures s[k - 1..k - 1 + |sub|][i] == sub[i] {
        assert i > 0 ==> s[k..k + |sub|][i - 1] == sub[i - 1];
      }
    }
  }

  lemma NoSeam(s: Text, sub: Text, k: nat, rest: Text, j: nat)
    requires sub != [] && Uniform(sub) && k <= |s| && (k > 0 ==> s[k - 1] != sub[0])
    requires forall i | 0 <= i < k :: !OccursAt(s, sub, i)
    requires !Contains(rest, sub)
    ensures !OccursAt(s[..k] + rest, sub, j)
  {
    var t := s[..k] + rest;
    if j >= k {
      if j + |sub| <= |t| {
        assert t[j..j + |sub|] == rest[j - k..j - k + |sub|];
      }
      assert !OccursAt(rest, sub, j - k);
    } else if j + |sub| <= k {
      assert t[j..j + |sub|] == s[j..j + |sub|];
      assert !OccursAt(s, sub, j);
    } else if j + |sub| <= |t| {
      assert t[j..j + |sub|][k - 1 - j] == s[k - 1];
    }
  }

  /** A string on which the removal leaves an occurrence behind, for any sub that is not
      uniform: sub's first character, sub, and the rest of sub. */
  lemma OthersSurvive(sub: Text)
    requires sub != [] && !Uniform(sub)
    ensures var s := sub[..1] + sub + sub[1..]; Removed(s, sub) == sub && Contains(Removed(s, sub), sub)
  {
    var s := sub[..1] + sub + sub[1..];
    FindIsLeftmost(s, sub, 0);
    assert s[1..1 + |sub|] == sub;
    assert OccursAt(s, sub, 1);
    assert !OccursAt(s, sub, 0) by {
      if OccursAt(s, sub, 0) {
        ShiftIsUniform(sub, s);
      }
    }
    var rest := s[1 + |sub|..];
    assert rest == sub[1..];
    FindIsLeftmost(rest, sub, 0);
    assert Removed(rest, sub) == rest;
    assert s[..1] + sub[1..] == sub;
    assert sub[0..0 + |sub|] == sub;
    assert OccursAt(sub, sub, 0);
  }

  lemma ShiftIsUniform(sub: Text, s: Text)
    requires sub != [] && s == sub[..1] + sub + sub[1..] && OccursAt(s, sub, 0)
    ensures Uniform(sub)
  {
    forall i | 0 < i < |sub| ensures sub[i] == sub[i - 1] {
      assert s[0..|sub|][i] == sub[i];
      assert s[i] == sub[i - 1];
    }
    StepsUniform(sub, |sub|);
  }

  lemma {:induction false} StepsUniform(sub: Text, n: nat)
    requires n <= |sub| && forall i | 0 < i < |sub| :: sub[i] == sub[i - 1]
    ensures forall i | 0 <= i < n :: sub[i] == sub[0]
  {
    if n > 1 {
      StepsUniform(sub, n - 1);
      assert sub[n - 1] == sub[(n - 1) - 1];
    }
  }

  /** strremove leaves no occurrence of sub, whatever the string, exactly when sub is one
      character repeated. */
  lemma RemovesForGoodIff(sub: Text)
    requires sub != []
    ensures (forall s: Text :: !Contains(Removed(s, sub), sub)) <==> Uniform(sub)
  {
    if Uniform(sub) {
      forall s: Text ensures !Contains(Removed(s, sub), sub) {
        UniformIsRemovedForGood(s, sub);
      }
    } else {
      OthersSurvive(sub);
    }
  }

  // ---------------------------------------------------------------- what is left

  /** ps are the places of non-overlapping occurrences of t in s from place from on: each the
      leftmost at or after the end of the one before, and none after the last. */
  ghost predicate LeftmostPlaces(s: Text, t: Text, from: nat, ps: seq<nat>)
    decreases |ps|
  {
    if ps == [] then forall j: nat | from <= j :: !OccursAt(s, t, j)
    else
      && from <= ps[0] && OccursAt(s, t, ps[0]) && (forall j: nat | from <= j < ps[0] :: !OccursAt(s, t, j))
      && LeftmostPlaces(s, t, ps[0] + |t|, ps[1..])
  }

  /** What stands in s from place from on, the n characters at each of ps left out. */
  function Around(s: Text, n: nat, from: nat, ps: seq<nat>): Text
    requires from <= |s|
    decreases |ps|
  {
    if ps == [] || ps[0] < from || ps[0] + n > |s| then s[from..]
    else s[from..ps[0]] + Around(s, n, ps[0] + n, ps[1..])
  }

  lemma OccursInRest(s: Text, t: Text, from: nat, j: nat)
    requires from <= |s|
    ensures OccursAt(s[from..], t, j) <==> OccursAt(s, t, from + j)
  {
    if from + j + |t| <= |s| {
      assert s[from..][j..j + |t|] == s[from + j..from + j + |t|];
    }
  }

  /** Exactly the characters of the leftmost non-overlapping occurrences are gone, and those
      between stand in their order. */
  lemma {:induction false} RemovedIsAround(s: Text, t: Text, from: nat) returns (ps: seq<nat>)
    requires t != [] && from <= |s|
    ensures LeftmostPlaces(s, t, from, ps) && Removed(s[from..], t) == Around(s, |t|, from, ps)
    decreases |s| - from
  {
    hide Removed, Find, OccursAt;
    var rest := s[from..];
    FindIsLeftmost(rest, t, 0);
    forall j: nat ensures OccursAt(rest, t, j) <==> OccursAt(s, t, from + j) {
      OccursInRest(s, t, from, j);
    }
    match Find(rest, t, 0)
    case None =>
      ps := [];
      RemovedIsAll(rest, t);
      forall j: nat | from <= j ensures !OccursAt(s, t, j) {
        assert !OccursAt(rest, t, j - from);
      }
    case Some(k) =>
      RemovedSplits(rest, t, k);
      var more := RemovedIsAround(s, t, from + k + |t|);
      ps := [from + k] + more;
      assert rest[k + |t|..] == s[from + k + |t|..] && rest[..k] == s[from..from + k];
      forall j: nat | from <= j < from + k ensures !OccursAt(s, t, j) {
        assert !OccursAt(rest, t, j - from);
      }
  }

  lemma RemovedIsAll(s: Text, t: Text)
    requires t != [] && Find(s, t, 0) == None
    ensures Removed(s, t) == s
  {
  }

  lemma {:induction false} PlacesAreOne(s: Text, t: Text, from: nat, ps: seq<nat>, qs: seq<nat>)
    requires LeftmostPlaces(s, t, from, ps) && LeftmostPlaces(s, t, from, qs)
    ensures ps == qs
    decreases |ps|
  {
    if ps != [] && qs != [] {
      PlacesAreOne(s, t, ps[0] + |t|, ps[1..], qs[1..]);
      assert ps == [ps[0]] + ps[1..] && qs == [qs[0]] + qs[1..];
    }
  }

  // ---------------------------------------------------------------- the helpers

  lemma {:induction false} TextEnds(buffer: seq<char>, p: nat)
    requires p <= |buffer| && Terminated(buffer, p)
    ensures var n := |TextAt(buffer, p)|;
            && p + n < |buffer| && buffer[p + n] == '\0' && TextAt(buffer, p) == buffer[p..p + n]
            && (forall i | p <= i < p + n :: buffer[i] != '\0')
    decreases |buffer| - p
  {
    if buffer[p] != '\0' {
      TextEnds(buffer, p + 1);
      var n := |TextAt(buffer, p + 1)|;
      assert buffer[p..p + 1 + n] == [buffer[p]] + buffer[p + 1..p + 1 + n];
    }
  }

  /** The string from p + k on is what is left of the string at p after k characters. */
  lemma {:induction false} TextDrops(buffer: seq<char>, p: nat, k: nat)
    requires p <= |buffer| && Terminated(buffer, p) && k <= |TextAt(buffer, p)|
    ensures p + k <= |buffer| && Terminated(buffer, p + k) && TextAt(buffer, p + k) == TextAt(buffer, p)[k..]
    decreases k
  {
    TextEnds(buffer, p);
    assert Terminated(buffer, p + k) by { assert buffer[p + |TextAt(buffer, p)|] == '\0'; }
    if k > 0 {
      assert buffer[p] != '\0';
      TextDrops(buffer, p + 1, k - 1);
    }
  }

  method StrLen(str: array<char>, p: nat) returns (i: nat)
    requires p <= str.Length && Terminated(str[..], p)
    ensures i == |TextAt(str[..], p)|
  {
    i := 0;
    TextEnds(str[..], p);
    while str[p + i] != '\0'
      invariant i <= |TextAt(str[..], p)|
      decreases |TextAt(str[..], p)| - i
    {
      i := i + 1;
    }
  }

  /** compare: does the string at y begin the string at x? */
  method Compare(a: array<char>, x: nat, b: array<char>, y: nat) returns (same: bool)
    requires x <= a.Length && Terminated(a[..], x) && y <= b.Length && Terminated(b[..], y)
    ensures same <==> OccursAt(TextAt(a[..], x), TextAt(b[..], y), 0)
  {
    hide TextAt, Terminated;
    TextEnds(a[..], x);
    TextEnds(b[..], y);
    ghost var s, sub := TextAt(a[..], x), TextAt(b[..], y);
    var i := 0;
    while a[x + i] != '\0' && b[y + i] != '\0'
      invariant i <= |s| && i <= |sub|
      invariant s[..i] == sub[..i]
      decreases |s| - i
    {
      if a[x + i] != b[y + i] {
        assert s[i] != sub[i];
        assert |sub| <= |s| ==> s[0..|sub|][i] != sub[i];
        return false;
      }
      i := i + 1;
    }
    same := b[y + i] == '\0';
    assert same ==> sub[..i] == sub && s[0..|sub|] == s[..i];
  }

  lemma {:induction false} SearchMovesOn(s: Text, sub: Text, k: nat)
    requires sub != [] && k <= |s| && forall j | 0 <= j < k :: !OccursAt(s, sub, j)
    ensures Find(s, sub, 0) == Find(s, sub, k)
    decreases k
  {
    if k > 0 {
      SearchMovesOn(s, sub, k - 1);
    }
  }

  /** strstr from x on. */
  method StrStr(a: array<char>, x: nat, b: array<char>) returns (r: Option<nat>)
    requires x <= a.Length && Terminated(a[..], x) && Terminated(b[..], 0) && TextAt(b[..], 0) != []
    ensures match Find(TextAt(a[..], x), TextAt(b[..], 0), 0)
            case Some(k) => r == Some(x + k)
            case None => r == None
  {
    hide TextAt, Terminated;
    ghost var s, sub := TextAt(a[..], x), TextAt(b[..], 0);
    TextEnds(a[..], x);
    TextEnds(b[..], 0);
    var k := 0;
    while a[x + k] != '\0'
      invariant k <= |s| && forall j | 0 <= j < k :: !OccursAt(s, sub, j)
      decreases |s| - k
    {
      TextDrops(a[..], x, k);
      OccursHere(s, sub, k);
      if a[x + k] == b[0] {
        var same := Compare(a, x + k, b, 0);
        if same {
          SearchMovesOn(s, sub, k);
          return Some(x + k);
        }
      }
      k := k + 1;
    }
    SearchMovesOn(s, sub, k);
    r := None;
  }

  lemma OccursHere(s: Text, sub: Text, k: nat)
    requires k < |s| && sub != []
    ensures OccursAt(s, sub, k) <==> OccursAt(s[k..], sub, 0)
    ensures OccursAt(s, sub, k) ==> s[k] == sub[0]
  {
    if k + |sub| <= |s| {
      assert s[k..k + |sub|] == s[k..][0..|sub|];
      assert s[k..k + |sub|][0] == s[k];
    }
  }

  /** memmove to a lower address of the same buffer, byte by byte upwards. */
  method MoveDown(a: array<char>, dest: nat, src: nat, n: nat)
    requires dest <= src && src + n <= a.Length
    modifies a
    ensures forall j | dest <= j < dest + n :: a[j] == old(a[j + (src - dest)])
    ensures forall j | 0 <= j < a.Length && !(dest <= j < dest + n) :: a[j] == old(a[j])
  {
    var i := 0;
    while i < n
      invariant i <= n
      invariant forall j | dest <= j < dest + i :: a[j] == old(a[j + (src - dest)])
      invariant forall j | 0 <= j < a.Length && !(dest <= j < dest + i) :: a[j] == old(a[j])
    {
      a[dest + i] := a[src + i];
      i := i + 1;
    }
  }

  lemma {:induction false} TextIs(buffer: seq<char>, p: nat, n: nat)
    requires p + n < |buffer| && buffer[p + n] == '\0' && forall j | p <= j < p + n :: buffer[j] != '\0'
    ensures TextAt(buffer, p) == buffer[p..p + n] && Terminated(buffer, p)
    decreases n
  {
    if n > 0 {
      TextIs(buffer, p + 1, n - 1);
      assert buffer[p..p + n] == [buffer[p]] + buffer[p + 1..p + n];
    }
  }

  /** Characters and a NUL copied down to p read there as the string they were. */
  lemma CopiedText(was: seq<char>, now: seq<char>, q: nat, p: nat)
    requires q <= |was| && Terminated(was, q) && p <= q && |now| == |was|
    requires forall j | p <= j <= p + |TextAt(was, q)| && j + (q - p) < |was| :: now[j] == was[j + (q - p)]
    ensures Terminated(now, p) && TextAt(now, p) == TextAt(was, q)
  {
    TextEnds(was, q);
    var n := |TextAt(was, q)|;
    TextIs(now, p, n);
    var a, b := now[p..p + n], was[q..q + n];
    forall j | 0 <= j < n ensures a[j] == b[j] {
      assert now[p + j] == was[(p + j) + (q - p)];
    }
    assert a == b;
  }

  /** One turn of strremove: the len characters at p go, the rest of the string closes up. */
  method CloseUp(str: array<char>, p: nat, len: nat)
    requires p <= str.Length && Terminated(str[..], p) && len <= |TextAt(str[..], p)|
    modifies str
    ensures Terminated(str[..], p) && TextAt(str[..], p) == old(TextAt(str[..], p))[len..]
    ensures str[..p] == old(str[..p])
    ensures forall j | p + |old(TextAt(str[..], p))| < j < str.Length :: str[j] == old(str[j])
  {
    hide TextAt, Terminated;
    ghost var before := str[..];
    TextEnds(before, p);
    TextDrops(before, p, len);
    TextEnds(before, p + len);
    var n := StrLen(str, p + len);
    MoveDown(str, p, p + len, n + 1);
    CopiedText(before, str[..], p + len, p);
  }

  lemma {:induction false} TextAfterPrefix(buffer: seq<char>, p: nat)
    requires p <= |buffer| && forall i | 0 <= i < p :: buffer[i] != '\0'
    ensures TextAt(buffer, 0) == buffer[..p] + TextAt(buffer, p)
    ensures Terminated(buffer, p) ==> Terminated(buffer, 0)
    decreases p
  {
    if p > 0 {
      TextAfterPrefix(buffer, p - 1);
      assert TextAt(buffer, p - 1) == [buffer[p - 1]] + TextAt(buffer, p);
      assert buffer[..p] == buffer[..p - 1] + [buffer[p - 1]];
    }
  }

  method Remove(str: array<char>, sub: array<char>)
    requires str != sub && Terminated(str[..], 0) && Terminated(sub[..], 0)
    modifies str
    ensures Terminated(str[..], 0)
    ensures TextAt(str[..], 0) ==
              if TextAt(sub[..], 0) == [] then old(TextAt(str[..], 0))
              else Removed(old(TextAt(str[..], 0)), TextAt(sub[..], 0))
    ensures forall j | |old(TextAt(str[..], 0))| < j < str.Length :: str[j] == old(str[j])
  {
    hide TextAt, Removed, Find, Terminated;
    ghost var s0, t := TextAt(str[..], 0), TextAt(sub[..], 0);
    var len := StrLen(sub, 0);
    if len > 0 {
      var p: nat := 0;
      var r := StrStr(str, p, sub);
      while r.Some?
        invariant p <= str.Length && Terminated(str[..], p) && sub[..] == old(sub[..])
        invariant forall i | 0 <= i < p :: str[i] != '\0'
        invariant str[..p] + Removed(TextAt(str[..], p), t) == Removed(s0, t)
        invariant p + |TextAt(str[..], p)| <= |s0|
        invariant forall j | |s0| < j < str.Length :: str[j] == old(str[j])
        invariant match Find(TextAt(str[..], p), t, 0)
                  case Some(k) => r == Some(p + k)
                  case None => r == None
        decreases |TextAt(str[..], p)|
      {
        p := RemoveOnce(str, p, r.value, len, t);
        r := StrStr(str, p, sub);
      }
      TextAfterPrefix(str[..], p);
      NothingLeft(TextAt(str[..], p), t);
    }
  }

  lemma NothingLeft(s: Text, t: Text)
    requires t != [] && Find(s, t, 0) == None
    ensures Removed(s, t) == s
  {
  }

  /** The deletion of the occurrence found at q by a search from p. */
  method RemoveOnce(str: array<char>, p: nat, q: nat, len: nat, ghost t: Text) returns (p': nat)
    requires p <= str.Length && Terminated(str[..], p) && t != [] && len == |t|
    requires forall i | 0 <= i < p :: str[i] != '\0'
    requires p <= q && Find(TextAt(str[..], p), t, 0) == Some(q - p)
    modifies str
    ensures p' == q <= str.Length && Terminated(str[..], q)
    ensures forall i | 0 <= i < q :: str[i] != '\0'
    ensures str[..q] + Removed(TextAt(str[..], q), t) == old(str[..p] + Removed(TextAt(str[..], p), t))
    ensures |TextAt(str[..], q)| + len + (q - p) == |old(TextAt(str[..], p))|
    ensures forall j | p + |old(TextAt(str[..], p))| < j < str.Length :: str[j] == old(str[j])
  {
    hide TextAt, Removed, Find, Terminated;
    ghost var s, before := TextAt(str[..], p), str[..];
    FindIsLeftmost(s, t, 0);
    ghost var k := q - p;
    PrefixGrows(before, p, k);
    CloseUp(str, q, len);
    p' := q;
    assert s[k..][len..] == s[k + len..];
    RemovedSplits(s, t, k);
    assert before[..q] + Removed(s[k + len..], t) == before[..p] + (s[..k] + Removed(s[k + len..], t));
  }

  lemma RemovedSplits(s: Text, t: Text, k: nat)
    requires t != [] && Find(s, t, 0) == Some(k)
    ensures k + |t| <= |s| && Removed(s, t) == s[..k] + Removed(s[k + |t|..], t)
  {
    FindFits(s, t);
  }

  /** The characters passed over join the prefix. */
  lemma PrefixGrows(buffer: seq<char>, p: nat, k: nat)
    requires p <= |buffer| && Terminated(buffer, p) && k <= |TextAt(buffer, p)|
    requires forall i | 0 <= i < p :: buffer[i] != '\0'
    ensures p + k <= |buffer| && Terminated(buffer, p + k) && TextAt(buffer, p + k) == TextAt(buffer, p)[k..]
    ensures buffer[..p + k] == buffer[..p] + TextAt(buffer, p)[..k]
    ensures forall i | 0 <= i < p + k :: buffer[i] != '\0'
  {
    TextEnds(buffer, p);
    TextDrops(buffer, p, k);
  }
}
