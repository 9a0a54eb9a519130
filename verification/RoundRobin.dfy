/** The order in which src/sched/scheduler.cpp takes threads off its queue, over positions
    in the queue and flags that say which of them can run. */
module RoundRobin {
  import opened Machine

  ghost predicate SomeRunnable(flags: seq<bool>) {
    exists c :: 0 <= c < |flags| && flags[c]
  }

  /** The position k links after cur, the link after the last position being to the first. */
  function At(n: nat, cur: nat, k: nat): nat
    requires cur < n && k <= n
  {
    if cur + k < n then cur + k else cur + k - n
  }

  /** The runnable positions at distances j, j+1, .. |flags| after cur, cur itself last. */
  function Ring(flags: seq<bool>, cur: nat, j: nat): seq<nat>
    requires cur < |flags|
    decreases |flags| + 1 - j
  {
    if j > |flags| then []
    else
      var c := At(|flags|, cur, j);
      (if flags[c] then [c] else []) + Ring(flags, cur, j + 1)
  }

  /** Every runnable position from distance j on is in the ring, and nothing else. */
  lemma {:induction false} RingHolds(flags: seq<bool>, cur: nat, j: nat, c: nat)
    requires cur < |flags|
    ensures c in Ring(flags, cur, j) <==>
              c < |flags| && flags[c] && exists k :: j <= k <= |flags| && At(|flags|, cur, k) == c
    decreases |flags| + 1 - j
  {
    if j <= |flags| {
      RingHolds(flags, cur, j + 1, c);
      if c in Ring(flags, cur, j) && c !in Ring(flags, cur, j + 1) {
        assert c == At(|flags|, cur, j);
      }
    }
  }

  /** The ring from cur holds exactly the runnable positions. */
  lemma RingIsComplete(flags: seq<bool>, cur: nat, c: nat)
    requires cur < |flags|
    ensures c in Ring(flags, cur, 1) <==> c < |flags| && flags[c]
  {
    RingHolds(flags, cur, 1, c);
    if c < |flags| && flags[c] {
      var k := if c > cur then c - cur else c + |flags| - cur;
      assert At(|flags|, cur, k) == c;
    }
  }

  /** .. and each of them once. */
  lemma {:induction false} RingIsDistinct(flags: seq<bool>, cur: nat, j: nat)
    requires cur < |flags| && 1 <= j
    ensures forall x, y | 0 <= x < y < |Ring(flags, cur, j)| :: Ring(flags, cur, j)[x] != Ring(flags, cur, j)[y]
    decreases |flags| + 1 - j
  {
    if j <= |flags| {
      RingIsDistinct(flags, cur, j + 1);
      var c := At(|flags|, cur, j);
      RingHolds(flags, cur, j + 1, c);
      forall k | j + 1 <= k <= |flags| ensures At(|flags|, cur, k) != c {
      }
      var rest := Ring(flags, cur, j + 1);
      assert forall y | 0 <= y < |rest| :: rest[y] in rest;
    }
  }

  lemma RingIsNonempty(flags: seq<bool>, cur: nat)
    requires cur < |flags| && SomeRunnable(flags)
    ensures Ring(flags, cur, 1) != []
  {
    var c :| 0 <= c < |flags| && flags[c];
    RingIsComplete(flags, cur, c);
  }

  // ---------------------------------------------------------------- one dispatch

  /** The first runnable position after cur, cur itself being the last resort. */
  function Next(flags: seq<bool>, cur: nat): (c: nat)
    requires cur < |flags| && SomeRunnable(flags)
    ensures c < |flags| && flags[c]
  {
    RingIsNonempty(flags, cur);
    RingIsComplete(flags, cur, Ring(flags, cur, 1)[0]);
    Ring(flags, cur, 1)[0]
  }

  /** The ring begins with the nearest position that can run. */
  lemma {:induction false} RingBegins(flags: seq<bool>, cur: nat, j: nat) returns (d: nat)
    requires cur < |flags| && Ring(flags, cur, j) != []
    ensures j <= d <= |flags| && Ring(flags, cur, j)[0] == At(|flags|, cur, d) && flags[At(|flags|, cur, d)]
    ensures forall k | j <= k < d :: !flags[At(|flags|, cur, k)]
    decreases |flags| + 1 - j
  {
    if flags[At(|flags|, cur, j)] {
      d := j;
    } else {
      d := RingBegins(flags, cur, j + 1);
    }
  }

  /** Nobody who can run stands between cur and the answer. */
  lemma NextIsNearest(flags: seq<bool>, cur: nat)
    requires cur < |flags| && SomeRunnable(flags)
    ensures forall x | 0 <= x < |flags| && (if cur < Next(flags, cur) then cur < x < Next(flags, cur)
                                           else x < Next(flags, cur) || cur < x) :: !flags[x]
  {
    RingIsNonempty(flags, cur);
    var n, c := |flags|, Next(flags, cur);
    var d := RingBegins(flags, cur, 1);
    forall x | 0 <= x < n && (if cur < c then cur < x < c else x < c || cur < x) ensures !flags[x] {
      var k := if x > cur then x - cur else x + n - cur;
      assert At(n, cur, k) == x;
    }
  }

  /** current->next, or head after the last. */
  function Successor(n: nat, cur: nat): nat
    requires cur < n
  {
    if cur + 1 < n then cur + 1 else 0
  }

  /** Seen from the next position, the ring has moved on by one. */
  lemma {:induction false} RingShifts(flags: seq<bool>, cur: nat, j: nat)
    requires cur < |flags| && 1 <= j <= |flags|
    ensures var c := Successor(|flags|, cur);
            Ring(flags, c, j) == Ring(flags, cur, j + 1) + if flags[c] then [c] else []
    decreases |flags| - j
  {
    var n, c := |flags|, Successor(|flags|, cur);
    var x := At(n, c, j);
    var last := if flags[c] then [c] else [];
    if j < n {
      assert x == At(n, cur, j + 1);
      RingShifts(flags, cur, j + 1);
      var first := if flags[x] then [x] else [];
      assert Ring(flags, c, j) == first + Ring(flags, c, j + 1);
      assert Ring(flags, cur, j + 1) == first + Ring(flags, cur, j + 2);
      assert first + (Ring(flags, cur, j + 2) + last) == (first + Ring(flags, cur, j + 2)) + last;
    } else {
      assert x == c && Ring(flags, c, n + 1) == [] && Ring(flags, cur, n + 1) == [];
    }
  }

  /** One turn of GetNextThread: either the answer, or the same question one step on. */
  lemma NextStep(flags: seq<bool>, cur: nat)
    requires cur < |flags| && SomeRunnable(flags)
    ensures var c := Successor(|flags|, cur);
            if flags[c] then Next(flags, cur) == c else Next(flags, c) == Next(flags, cur)
  {
    var n, c := |flags|, Successor(|flags|, cur);
    RingShifts(flags, cur, 1);
  }

  /** How many turns GetNextThread takes. */
  ghost function Turns(flags: seq<bool>, cur: nat): (k: nat)
    requires cur < |flags| && SomeRunnable(flags)
    ensures 1 <= k <= |flags| && flags[At(|flags|, cur, k)] && forall i | 1 <= i < k :: !flags[At(|flags|, cur, i)]
  {
    RingIsNonempty(flags, cur);
    var c := Ring(flags, cur, 1)[0];
    RingHolds(flags, cur, 1, c);
    FirstTurn(flags, cur, 1)
  }

  ghost function FirstTurn(flags: seq<bool>, cur: nat, j: nat): (k: nat)
    requires cur < |flags| && exists k :: j <= k <= |flags| && flags[At(|flags|, cur, k)]
    ensures j <= k <= |flags| && flags[At(|flags|, cur, k)] && forall i | j <= i < k :: !flags[At(|flags|, cur, i)]
    decreases |flags| - j
  {
    if flags[At(|flags|, cur, j)] then j else FirstTurn(flags, cur, j + 1)
  }

  /** Each turn that finds a thread that cannot run brings the next one that can a step
      nearer: the recursion ends. */
  lemma TurnsShrink(flags: seq<bool>, cur: nat)
    requires cur < |flags| && SomeRunnable(flags) && !flags[Successor(|flags|, cur)]
    ensures Turns(flags, Successor(|flags|, cur)) < Turns(flags, cur)
  {
    var n, c := |flags|, Successor(|flags|, cur);
    var k := Turns(flags, cur);
    assert k >= 2;
    AtShifts(flags, cur, k - 1);
    var k' := Turns(flags, c);
    assert k' <= k - 1;
  }

  lemma AtShifts(flags: seq<bool>, cur: nat, k: nat)
    requires cur < |flags| && k < |flags|
    ensures At(|flags|, Successor(|flags|, cur), k) == At(|flags|, cur, k + 1)
  {
    var n, c := |flags|, Successor(|flags|, cur);
  }

  /** GetNextThread turn by turn, given up after this many turns. */
  function Search(flags: seq<bool>, cur: nat, turns: nat): Option<nat>
    requires cur < |flags|
    decreases turns
  {
    if turns == 0 then None
    else
      var c := Successor(|flags|, cur);
      if flags[c] then Some(c) else Search(flags, c, turns - 1)
  }

  lemma {:induction false} SearchFindsNext(flags: seq<bool>, cur: nat)
    requires cur < |flags| && SomeRunnable(flags)
    ensures Search(flags, cur, Turns(flags, cur)) == Some(Next(flags, cur))
    decreases Turns(flags, cur)
  {
    var c := Successor(|flags|, cur);
    NextStep(flags, cur);
    if !flags[c] {
      TurnsShrink(flags, cur);
      SearchFindsNext(flags, c);
      MoreTurns(flags, c, Turns(flags, c), Turns(flags, cur) - 1);
    }
  }

  lemma {:induction false} MoreTurns(flags: seq<bool>, cur: nat, turns: nat, more: nat)
    requires cur < |flags| && turns <= more && Search(flags, cur, turns).Some?
    ensures Search(flags, cur, more) == Search(flags, cur, turns)
    decreases turns
  {
    var c := Successor(|flags|, cur);
    if !flags[c] {
      MoreTurns(flags, c, turns - 1, more - 1);
    }
  }

  lemma {:induction false} SearchAnswersRunnable(flags: seq<bool>, cur: nat, turns: nat)
    requires cur < |flags| && Search(flags, cur, turns).Some?
    ensures SomeRunnable(flags)
    decreases turns
  {
    var c := Successor(|flags|, cur);
    if !flags[c] {
      SearchAnswersRunnable(flags, c, turns - 1);
    }
  }

  /** The recursion of GetNextThread comes to an end, at all and within one round, exactly
      when some thread can run, and its answer is then the next of them. */
  lemma SearchEndsIff(flags: seq<bool>, cur: nat)
    requires cur < |flags|
    ensures (exists turns: nat :: Search(flags, cur, turns).Some?) <==> SomeRunnable(flags)
    ensures SomeRunnable(flags) ==> Search(flags, cur, |flags|) == Some(Next(flags, cur))
  {
    if SomeRunnable(flags) {
      SearchFindsNext(flags, cur);
      MoreTurns(flags, cur, Turns(flags, cur), |flags|);
    } else {
      forall turns: nat ensures Search(flags, cur, turns).None? {
        if Search(flags, cur, turns).Some? {
          SearchAnswersRunnable(flags, cur, turns);
        }
      }
    }
  }

  /** A queue of one thread that deleted itself: no number of turns is enough. */
  lemma LoneDeadThreadIsSoughtForEver(turns: nat)
    ensures Search([false], 0, turns).None?
  {
    SearchEndsIff([false], 0);
  }

  // ---------------------------------------------------------------- fairness

  /** The answers of k calls in a row while the queue does not change. */
  function Dispatches(flags: seq<bool>, cur: nat, k: nat): seq<nat>
    requires cur < |flags| && SomeRunnable(flags)
    decreases k
  {
    if k == 0 then [] else [Next(flags, cur)] + Dispatches(flags, Next(flags, cur), k - 1)
  }

  /** After a dispatch the ring has turned: the thread just dispatched is last. */
  lemma {:induction false} RingTurns(flags: seq<bool>, cur: nat)
    requires cur < |flags| && SomeRunnable(flags)
    ensures var ring := Ring(flags, cur, 1);
            ring != [] && Ring(flags, Next(flags, cur), 1) == ring[1..] + [ring[0]]
    decreases Turns(flags, cur)
  {
    hide Turns;
    var c := Successor(|flags|, cur);
    RingShifts(flags, cur, 1);
    NextStep(flags, cur);
    RingIsNonempty(flags, cur);
    if !flags[c] {
      TurnsShrink(flags, cur);
      RingTurns(flags, c);
    }
  }

  lemma {:induction false} DispatchesFollowTheRing(flags: seq<bool>, cur: nat, k: nat)
    requires cur < |flags| && SomeRunnable(flags) && k <= |Ring(flags, cur, 1)|
    ensures Dispatches(flags, cur, k) == Ring(flags, cur, 1)[..k]
    decreases k
  {
    if k > 0 {
      RingTurns(flags, cur);
      DispatchesFollowTheRing(flags, Next(flags, cur), k - 1);
    }
  }

  /** With r threads that can run, any r calls in a row answer each of them exactly once,
      in cyclic order after the current one. */
  lemma RoundRobinIsFair(flags: seq<bool>, cur: nat)
    requires cur < |flags| && SomeRunnable(flags)
    ensures var round := Dispatches(flags, cur, |Ring(flags, cur, 1)|);
            && round == Ring(flags, cur, 1)
            && (forall c: nat :: c in round <==> c < |flags| && flags[c])
            && (forall x, y | 0 <= x < y < |round| :: round[x] != round[y])
  {
    DispatchesFollowTheRing(flags, cur, |Ring(flags, cur, 1)|);
    RingIsDistinct(flags, cur, 1);
    forall c: nat {
      RingIsComplete(flags, cur, c);
    }
  }
}
