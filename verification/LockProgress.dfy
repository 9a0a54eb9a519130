/** Whether the lock of SchedulerLock is opened again: what its holder does when left to
    itself, and when nothing can open it any more. */
module LockProgress {
  import opened Machine
  import opened RoundRobin
  import opened SchedulerModel
  import opened SchedulerLock

  // ---------------------------------------------------------------- one processor's steps

  /** c alone makes these choices one after the other. */
  ghost predicate Plays(s: State, c: nat, chs: seq<Choice>)
    decreases |chs|
  {
    chs == [] || (Enabled(s, c, chs[0]) && Plays(Apply(s, c, chs[0]), c, chs[1..]))
  }

  ghost function Played(s: State, c: nat, chs: seq<Choice>): State
    requires Plays(s, c, chs)
    decreases |chs|
  {
    if chs == [] then s else Played(Apply(s, c, chs[0]), c, chs[1..])
  }

  /** No choice of these begins anything. */
  predicate OnlyWork(chs: seq<Choice>) {
    forall ch | ch in chs :: ch.Go? || ch.Allocate? || ch.Swap?
  }

  lemma PlaysFirst(s: State, c: nat, ch: Choice, chs: seq<Choice>)
    requires Enabled(s, c, ch) && Plays(Apply(s, c, ch), c, chs)
    ensures Plays(s, c, [ch] + chs) && Played(s, c, [ch] + chs) == Played(Apply(s, c, ch), c, chs)
  {
    hide Enabled, Apply;
    assert ([ch] + chs)[1..] == chs;
  }

  // ---------------------------------------------------------------- an operation to its end

  /** The objects of s but u are still there, with their pids, and as they were if they are
      not on the queue. */
  ghost predicate Kept(s: State, s': State, u: nat) {
    forall o | o in s.objects && o != u ::
      && o in s'.objects && s'.objects[o].pid == s.objects[o].pid
      && (o !in s.order ==> s'.objects[o] == s.objects[o])
  }

  /** c has completed the operation it was at, and the lock is open; u is the object it
      added, if any. */
  ghost predicate Finished(s: State, s': State, c: nat, u: nat)
    requires c in s.places && InCritical(s.places[c])
  {
    var op := OpOf(s.places[c]);
    && Inv(s') && s'.places == s.places[c := Idle] && s'.lock == 0 && s'.holder == None
    && s'.log == s.log + Completed(c, op) && s'.order == (if op.Adding? then s.order + [u] else s.order)
    && Kept(s, s', u)
  }

  function OpOf(p: Place): Op
    requires !p.Idle?
  {
    p.op
  }

  /** One step further inside. */
  ghost predicate Further(s: State, s': State, c: nat, u: nat) {
    Inv(s) && Inv(s') && Onward(s, s', c, u)
  }

  ghost predicate Onward(s: State, s': State, c: nat, u: nat) {
    && c in s.places && c in s'.places && InCritical(s.places[c]) && InCritical(s'.places[c])
    && OpOf(s'.places[c]) == OpOf(s.places[c]) && s'.places == s.places[c := s'.places[c]]
    && s'.log == s.log && s'.order == s.order && Kept(s, s', u)
  }

  lemma FurtherFinishes(s: State, s': State, s'': State, c: nat, u: nat)
    requires Further(s, s', c, u) && Finished(s', s'', c, u)
    ensures Finished(s, s'', c, u)
  {
    hide Inv;
    assert s'.places[c := Idle] == s.places[c := Idle];
  }

  lemma LeavesAtOnce(s: State, c: nat, u: nat)
    requires Inv(s) && c in s.places && s.places[c].Leaving? && (s.places[c].op.Adding? ==> u == s.places[c].t)
    ensures Plays(s, c, [Go]) && Finished(s, Played(s, c, [Go]), c, u)
  {
    OtherwiseIsEnabled(s, c);
    EveryStepKeepsInv(s, c, Go);
    hide Inv, Plays, Played, Enabled, Apply;
    PlaysOne(s, c, Go);
    LeavingWritesNothing(s, c);
  }

  lemma LeavingWritesNothing(s: State, c: nat)
    requires c in s.places && s.places[c].Leaving? && Enabled(s, c, Go)
    ensures var s' := Apply(s, c, Go);
            && s'.places == s.places[c := Idle] && s'.lock == 0 && s'.holder == None && s'.objects == s.objects
            && s'.log == s.log + Completed(c, s.places[c].op)
            && s'.order == (if s.places[c].op.Adding? then s.order + [s.places[c].t] else s.order)
  {
  }

  lemma PlaysOne(s: State, c: nat, ch: Choice)
    requires Enabled(s, c, ch)
    ensures Plays(s, c, [ch]) && Played(s, c, [ch]) == Apply(s, c, ch)
  {
    hide Enabled, Apply;
    var s' := Apply(s, c, ch);
    assert [ch][1..] == [] && Plays(s', c, []) && Played(s', c, []) == s';
  }

  /** How many steps of an AddThread are still to come. */
  function Left(p: Place): nat {
    match p
    case Made(_, _) => 8
    case PidRead(_, _, _) => 7
    case PidBumped(_, _, _) => 6
    case Named(_, _) => 5
    case HeadSet(_, _) => 4
    case LinkSet(_, _) => 3
    case TailSet(_, _) => 2
    case _ => 1
  }

  lemma AddGoesFurther(s: State, c: nat)
    requires Inv(s) && c in s.places && IsAddStep(s.places[c])
    ensures Enabled(s, c, Go)
    ensures var s' := Apply(s, c, Go);
            && Further(s, s', c, s.places[c].t) && IsAdding(s'.places[c]) && s'.places[c].t == s.places[c].t
            && s'.places[c].op.Adding? && Left(s'.places[c]) < Left(s.places[c])
  {
    AddStepIsEnabled(s, c);
    EveryStepKeepsInv(s, c, Go);
    AddingFacts(s, c);
    TailIsLast(s, After(s.log), s.places[c]);
    hide Inv, After, HalfAdded, Apply, Enabled, Onward;
    AddWritesLittle(s, c);
  }

  lemma AddWritesLittle(s: State, c: nat)
    requires 0 in s.queues && c in s.places && IsAddStep(s.places[c]) && s.places[c].op.Adding? && Enabled(s, c, Go)
    requires s.places[c].HeadSet? && s.queues[0].tail != 0 ==> s.queues[0].tail in s.order
    ensures var s' := Apply(s, c, Go);
            && Onward(s, s', c, s.places[c].t) && IsAdding(s'.places[c]) && s'.places[c].t == s.places[c].t
            && s'.places[c].op.Adding? && Left(s'.places[c]) < Left(s.places[c])
  {
  }

  lemma TailIsLast(s: State, q: Queue, p: Place)
    requires 0 in s.queues && IsAdding(p) && HalfAdded(s, q, p)
    ensures p.HeadSet? && s.queues[0].tail != 0 ==> s.queues[0].tail in s.order
  {
    hide Chained, Points;
  }

  lemma {:induction false} AddFinishes(s: State, c: nat) returns (chs: seq<Choice>)
    requires Inv(s) && c in s.places && IsAdding(s.places[c]) && s.places[c].op.Adding?
    ensures Plays(s, c, chs) && OnlyWork(chs) && Finished(s, Played(s, c, chs), c, s.places[c].t)
    decreases Left(s.places[c])
  {
    if s.places[c].Leaving? {
      LeavesAtOnce(s, c, s.places[c].t);
      chs := [Go];
    } else {
      hide Inv, Enabled, Apply, Finished, Further;
      AddGoesFurther(s, c);
      var s' := Apply(s, c, Go);
      FurtherIsInside(s, s', c, s.places[c].t);
      var rest := AddFinishes(s', c);
      chs := [Go] + rest;
      PlaysFirst(s, c, Go, rest);
      FurtherFinishes(s, s', Played(s', c, rest), c, s.places[c].t);
    }
  }

  lemma FurtherIsInside(s: State, s': State, c: nat, u: nat)
    requires Further(s, s', c, u)
    ensures Inv(s') && c in s'.places && InCritical(s'.places[c])
  {
  }

  // ---------------------------------------------------------------- the search to its end

  /** How far the search, at place p and come to a, is from its answer. */
  ghost function Rounds(a: Queue, p: Place): nat {
    if a.tasks == [] || !CanDispatch(a) || p.Leaving? then 0
    else if p.Moved? && a.current.Some? && a.current.value < |a.tasks| && a.tasks[a.current.value].canRun then 0
    else Turns(Flags(a), SearchFrom(a))
  }

  function Phase(p: Place): nat {
    match p
    case Moved(_) => 4
    case Saved(_) => 3
    case NonEmpty(_) => 2
    case _ => 1
  }

  /** One turn brings the answer nearer .. */
  lemma RoundsOfTurn(a: Queue, p: Place, p': Place)
    requires Sound(a) && CanDispatch(a) && a.tasks != [] && p.AtCurrent? && p'.Moved?
    ensures SearchFrom(a) < |a.tasks| && Rounds(Advance(a), p') < Rounds(a, p)
  {
    DispatchByTurns(a);
  }

  /** .. and the other steps bring the next turn nearer. */
  lemma RoundsElsewhere(a: Queue, p: Place, p': Place)
    requires p.Saved? || p.NonEmpty? || p.Moved?
    requires if p.Saved? then p'.Leaving? || p'.NonEmpty?
             else if p.NonEmpty? then p'.AtCurrent?
             else a.current.Some? && a.current.value < |a.tasks|
                  && if a.tasks[a.current.value].canRun then p'.Leaving? else p'.Saved?
    ensures Rounds(a, p') <= Rounds(a, p) && Phase(p') < Phase(p)
  {
    hide Flags, Turns;
  }

  lemma RoundsShrink(s: State, q1: Queue, a: Queue)
    requires 0 in s.queues && 0 in s.places && IsSearchStep(s.places[0])
    requires CanDispatch(q1) && s.queues[0].head == Nth(s.order, 0) && s.queues[0].count == |s.order|
    requires Searching(s, q1, a, s.places[0])
    ensures Enabled(s, 0, Go)
    ensures var p, a' := Apply(s, 0, Go).places[0], Searched(a, s.places[0]);
            && (p.Leaving? || IsSearchStep(p))
            && (Rounds(a', p) < Rounds(a, s.places[0])
                || (Rounds(a', p) <= Rounds(a, s.places[0]) && Phase(p) < Phase(s.places[0])))
  {
    SearchStep(s, q1, a);
    SearchLengths(s, q1, a);
    if s.places[0].AtCurrent? {
      SearchingCanDispatch(s, q1, a);
      hide Searching, CanDispatch, Dispatch, Flags, Rounds, Sound;
      RoundsOfTurn(a, s.places[0], Apply(s, 0, Go).places[0]);
    } else {
      hide Searching, CanDispatch, Dispatch, Flags, Rounds, Sound;
      RoundsElsewhere(a, s.places[0], Apply(s, 0, Go).places[0]);
    }
  }

  lemma SearchLengths(s: State, q1: Queue, a: Queue)
    requires 0 in s.queues && 0 in s.places && IsSearchStep(s.places[0]) && Searching(s, q1, a, s.places[0])
    ensures |a.tasks| == |s.order| && Sound(a)
    ensures s.places[0].Moved? ==>
              && a.current.Some? && a.current.value < |s.order| && s.queues[0].current == s.order[a.current.value]
              && s.queues[0].current in s.objects
              && s.objects[s.queues[0].current].canRun == a.tasks[a.current.value].canRun
  {
    if s.places[0].Moved? {
      assert s.order[a.current.value] in s.objects;
    }
  }

  lemma SearchingCanDispatch(s: State, q1: Queue, a: Queue)
    requires 0 in s.queues && 0 in s.places && s.places[0].AtCurrent? && Searching(s, q1, a, s.places[0])
               && CanDispatch(q1)
    ensures CanDispatch(a) && a.tasks != []
  {
  }

  lemma SearchWritesLittle(s: State, c: nat)
    requires 0 in s.queues && c in s.places && c in s.queues && IsSearchStep(s.places[c]) && Enabled(s, c, Go)
    ensures Onward(s, Apply(s, c, Go), c, 0)
  {
  }

  lemma SearchGoesFurther(s: State, q1: Queue, a: Queue)
    requires Inv(s) && IsSearchStep(s.places[0]) && s.places[0].op.Scheduling?
    requires q1 == Save(After(s.log), s.places[0].op.regs) && CanDispatch(q1) && Searching(s, q1, a, s.places[0])
    ensures Enabled(s, 0, Go)
    ensures var s' := Apply(s, 0, Go); var a' := Searched(a, s.places[0]);
            && Further(s, s', 0, 0) && (s'.places[0].Leaving? || IsSearchStep(s'.places[0]))
            && Searching(s', q1, a', s'.places[0])
            && (Rounds(a', s'.places[0]) < Rounds(a, s.places[0])
                || (Rounds(a', s'.places[0]) <= Rounds(a, s.places[0]) && Phase(s'.places[0]) < Phase(s.places[0])))
  {
    SearchingFacts(s);
    assert HalfScheduled(s, After(s.log), s.places[0]);
    assert 0 in s.queues && 0 in s.places && s.queues[0].head == Nth(s.order, 0) && s.queues[0].count == |s.order|;
    hide Inv, HalfScheduled, Onward, Searching, After, Rounds, Searched;
    RoundsShrink(s, q1, a);
    SearchStep(s, q1, a);
    EveryStepKeepsInv(s, 0, Go);
    SearchWritesLittle(s, 0);
  }

  lemma {:induction false} SearchFinishes(s: State, q1: Queue, a: Queue) returns (chs: seq<Choice>)
    requires 0 in s.places
    requires Inv(s) && (IsSearchStep(s.places[0]) || s.places[0].Leaving?) && s.places[0].op.Scheduling?
    requires q1 == Save(After(s.log), s.places[0].op.regs) && CanDispatch(q1) && Searching(s, q1, a, s.places[0])
    ensures Plays(s, 0, chs) && OnlyWork(chs) && Finished(s, Played(s, 0, chs), 0, 0)
    decreases Rounds(a, s.places[0]), Phase(s.places[0])
  {
    hide Inv, Enabled, Apply, Finished, Onward, Searching, After, CanDispatch, Rounds, Searched, Save;
    if s.places[0].Leaving? {
      LeavesAtOnce(s, 0, 0);
      chs := [Go];
    } else {
      SearchGoesFurther(s, q1, a);
      var s' := Apply(s, 0, Go);
      OnwardKeeps(s, s', 0, 0);
      var rest := SearchFinishes(s', q1, Searched(a, s.places[0]));
      chs := [Go] + rest;
      PlaysFirst(s, 0, Go, rest);
      FurtherFinishes(s, s', Played(s', 0, rest), 0, 0);
    }
  }

  lemma OnwardKeeps(s: State, s': State, c: nat, u: nat)
    requires Onward(s, s', c, u)
    ensures c in s'.places && InCritical(s'.places[c]) && s'.log == s.log && OpOf(s'.places[c]) == OpOf(s.places[c])
  {
  }

  /** Another processor's Schedule finds its queue empty. */
  lemma IdleSearchFinishes(s: State, c: nat) returns (chs: seq<Choice>)
    requires Inv(s) && c in s.places && c != 0 && IsSearchStep(s.places[c])
    ensures Plays(s, c, chs) && OnlyWork(chs) && Finished(s, Played(s, c, chs), c, 0)
  {
    SearchStepIsEnabled(s, c);
    IdleSearchLeaves(s, c);
    EveryStepKeepsInv(s, c, Go);
    SearchWritesLittle(s, c);
    hide Inv, Enabled, Apply, Finished, Onward;
    var s' := Apply(s, c, Go);
    LeavesAtOnce(s', c, 0);
    FurtherIsInside(s, s', c, 0);
    PlaysFirst(s, c, Go, [Go]);
    FurtherFinishes(s, s', Played(s', c, [Go]), c, 0);
    chs := [Go] + [Go];
  }

  lemma IdleSearchLeaves(s: State, c: nat)
    requires Inv(s) && c in s.places && c != 0 && IsSearchStep(s.places[c]) && Enabled(s, c, Go)
    ensures s.places[c].op.Scheduling?
    ensures Apply(s, c, Go).places[c] == Leaving(s.places[c].op, 0)
  {
    OthersAreNotCritical(s, c);
    hide Exclusive, HalfAdded, HalfScheduled, Trace, After, InMemory;
  }

  // ---------------------------------------------------------------- the holder

  /** c holds the lock for a search that no thread can end. */
  ghost predicate Hopeless(s: State, c: nat)
    requires Trace(s.log)
  {
    && c == 0 && 0 in s.places && (s.places[0].Enter? || IsSearchStep(s.places[0])) && s.places[0].op.Scheduling?
    && !CanDispatch(After(s.log))
  }

  lemma InvTraces(s: State)
    requires Inv(s)
    ensures Trace(s.log)
  {
  }

  lemma ProcessorSearchFinishes(s: State) returns (chs: seq<Choice>)
    requires Inv(s) && IsSearchStep(s.places[0]) && Trace(s.log) && !Hopeless(s, 0)
    ensures Plays(s, 0, chs) && OnlyWork(chs) && Finished(s, Played(s, 0, chs), 0, 0)
  {
    var q := After(s.log);
    SearchingFacts(s);
    var regs := s.places[0].op.regs;
    SaveKeepsFlags(q, regs);
    var a: Queue :| Searching(s, Save(q, regs), a, s.places[0]);
    chs := SearchFinishes(s, Save(q, regs), a);
  }

  lemma EnterWritesLittle(s: State, c: nat, ch: Choice)
    requires c in s.places && c in s.queues && s.places[c].Enter? && Enabled(s, c, ch)
    requires s.places[c].op.Scheduling? && s.queues[c].current != 0 ==> s.queues[c].current in s.order
    ensures var s' := Apply(s, c, ch);
            && Onward(s, s', c, if ch.Allocate? then ch.t else 0)
            && if s.places[c].op.Adding? then s'.places[c] == Made(s.places[c].op, ch.t)
               else s'.places[c] == Saved(s.places[c].op)
  {
  }

  lemma CurrentIsQueued(s: State, c: nat)
    requires Inv(s) && c in s.places && s.places[c].Enter?
    ensures s.queues[c].current != 0 ==> s.queues[c].current in s.order
  {
    OthersAreNotCritical(s, c);
    hide Exclusive, HalfAdded, HalfScheduled, Trace, After, Chained;
  }

  lemma EnterFinishes(s: State, c: nat) returns (chs: seq<Choice>, u: nat)
    requires Inv(s) && c in s.places && s.places[c].Enter? && Trace(s.log) && !Hopeless(s, c)
    ensures Plays(s, c, chs) && OnlyWork(chs) && Finished(s, Played(s, c, chs), c, u)
    ensures if s.places[c].op.Adding? then u != 0 && u !in s.objects else u == 0
  {
    var ch := EnterIsEnabled(s, c);
    CurrentIsQueued(s, c);
    EveryStepKeepsInv(s, c, ch);
    EnterWritesLittle(s, c, ch);
    var s' := Apply(s, c, ch);
    u := if ch.Allocate? then ch.t else 0;
    hide Inv, Apply, Onward, Finished, Trace, After, CanDispatch;
    OnwardKeeps(s, s', c, u);
    var rest;
    if s.places[c].op.Adding? {
      rest := AddFinishes(s', c);
    } else if c == 0 {
      rest := ProcessorSearchFinishes(s');
    } else {
      rest := IdleSearchFinishes(s', c);
    }
    chs := [ch] + rest;
    PlaysFirst(s, c, ch, rest);
    FurtherFinishes(s, s', Played(s', c, rest), c, u);
  }

  /** Left to itself whoever holds the lock completes its operation and opens the lock. */
  lemma HolderFinishes(s: State, c: nat) returns (chs: seq<Choice>, u: nat)
    requires Inv(s) && c in s.places && InCritical(s.places[c]) && Trace(s.log) && !Hopeless(s, c)
    ensures Plays(s, c, chs) && OnlyWork(chs) && Finished(s, Played(s, c, chs), c, u)
    ensures s.places[c].Enter? ==> if s.places[c].op.Adding? then u != 0 && u !in s.objects else u == 0
  {
    hide Inv, Finished, Trace, CanDispatch;
    var p := s.places[c];
    u := 0;
    if p.Enter? {
      chs, u := EnterFinishes(s, c);
    } else if p.Leaving? {
      u := p.t;
      LeavesAtOnce(s, c, u);
      chs := [Go];
    } else if IsAddStep(p) {
      StepsAreAdding(s, c);
      u := p.t;
      chs := AddFinishes(s, c);
    } else if c == 0 {
      chs := ProcessorSearchFinishes(s);
    } else {
      chs := IdleSearchFinishes(s, c);
    }
  }

  lemma StepsAreAdding(s: State, c: nat)
    requires Inv(s) && c in s.places && IsAddStep(s.places[c])
    ensures s.places[c].op.Adding?
  {
    AddingFacts(s, c);
  }

  /** An idle processor takes the open lock for op and completes it. */
  lemma OperationCompletes(s: State, c: nat, op: Op) returns (chs: seq<Choice>, u: nat)
    requires Inv(s) && c in s.places && s.places[c].Idle? && s.holder == None && Trace(s.log)
    requires op.Scheduling? && c == 0 ==> CanDispatch(After(s.log))
    ensures chs != [] && chs[0] == Begin(op) && OnlyWork(chs[1..]) && Plays(s, c, chs)
    ensures var s' := Played(s, c, chs);
            && Inv(s') && s'.places == s.places && s'.lock == 0 && s'.holder == None
            && s'.log == s.log + Completed(c, op) && s'.order == (if op.Adding? then s.order + [u] else s.order)
            && Kept(s, s', u) && (if op.Adding? then u != 0 && u !in s.objects else u == 0)
  {
    hide Inv, Apply, Enabled, Trace, CanDispatch;
    GetsTheLock(s, c, op);
    var s1 := Apply(s, c, Begin(op));
    var s2 := Apply(s1, c, Swap(false));
    var rest;
    rest, u := HolderFinishes(s2, c);
    PlaysFirst(s1, c, Swap(false), rest);
    PlaysFirst(s, c, Begin(op), [Swap(false)] + rest);
    chs := [Begin(op)] + ([Swap(false)] + rest);
    assert chs[1..] == [Swap(false)] + rest;
    assert s.places[c := Enter(op)][c := Idle] == s.places;
  }

  lemma GetsTheLock(s: State, c: nat, op: Op)
    requires Inv(s) && c in s.places && s.places[c].Idle? && s.holder == None
    ensures Enabled(s, c, Begin(op)) && Enabled(Apply(s, c, Begin(op)), c, Swap(false))
    ensures var s2 := Apply(Apply(s, c, Begin(op)), c, Swap(false));
            && Inv(s2) && s2.places == s.places[c := Enter(op)]
            && s2.log == s.log && s2.objects == s.objects && s2.order == s.order
  {
    LockIsOpen(s, c);
    hide Inv;
    var s1 := Apply(s, c, Begin(op));
    EveryStepKeepsInv(s, c, Begin(op));
    EveryStepKeepsInv(s1, c, Swap(false));
    assert Apply(s1, c, Swap(false)).places == s.places[c := Enter(op)];
  }

  lemma LockIsOpen(s: State, c: nat)
    requires Inv(s) && s.holder == None && c in s.places
    ensures s.lock == 0 && c in s.queues && 0 in s.queues
  {
    hide Consistent;
  }

  // ---------------------------------------------------------------- when the lock is lost

  /** Any processors in any order. */
  ghost predicate InTurn(s: State, ts: seq<(nat, Choice)>)
    decreases |ts|
  {
    ts == [] || (Enabled(s, ts[0].0, ts[0].1) && InTurn(Apply(s, ts[0].0, ts[0].1), ts[1..]))
  }

  ghost function Taken(s: State, ts: seq<(nat, Choice)>): State
    requires InTurn(s, ts)
    decreases |ts|
  {
    if ts == [] then s else Taken(Apply(s, ts[0].0, ts[0].1), ts[1..])
  }

  lemma {:induction false} PlaysInTurn(s: State, c: nat, chs: seq<Choice>) returns (ts: seq<(nat, Choice)>)
    requires Plays(s, c, chs)
    ensures InTurn(s, ts) && Taken(s, ts) == Played(s, c, chs)
    decreases |chs|
  {
    hide Enabled, Apply;
    if chs == [] {
      ts := [];
    } else {
      var rest := PlaysInTurn(Apply(s, c, chs[0]), c, chs[1..]);
      ts := [(c, chs[0])] + rest;
      assert ts[1..] == rest;
    }
  }

  /** The timer interrupts the holder: on its processor Schedule now spins for the lock, and
      what it interrupted waits beneath. */
  ghost function Ticked(s: State, regs: Regs): State
    requires s.holder.Some?
  {
    s.(places := s.places[s.holder.value := Spin(Scheduling(regs))])
  }

  /** The lock is held and nobody inside can open it. */
  ghost predicate NobodysLock(s: State) {
    s.lock == 1 && forall c | c in s.places :: !InCritical(s.places[c])
  }

  lemma {:induction false} NobodyOpensIt(s: State, ts: seq<(nat, Choice)>)
    requires NobodysLock(s) && InTurn(s, ts)
    ensures Taken(s, ts).lock == 1
    decreases |ts|
  {
    if ts != [] {
      StaysNobodys(s, ts[0].0, ts[0].1);
      NobodyOpensIt(Apply(s, ts[0].0, ts[0].1), ts[1..]);
    }
  }

  lemma StaysNobodys(s: State, c: nat, ch: Choice)
    requires NobodysLock(s) && Enabled(s, c, ch)
    ensures NobodysLock(Apply(s, c, ch))
  {
  }

  lemma TickLosesTheLock(s: State, regs: Regs)
    requires Inv(s) && s.holder.Some?
    ensures NobodysLock(Ticked(s, regs))
  {
    hide Consistent;
  }

  /** The search goes round: no step of anyone ends it. */
  ghost predicate Searches(s: State) {
    Inv(s) && s.holder == Some(0) && Trace(s.log) && Hopeless(s, 0)
  }

  lemma {:induction false} SearchGoesOn(s: State, ts: seq<(nat, Choice)>)
    requires Searches(s) && InTurn(s, ts)
    ensures Taken(s, ts).lock == 1
    decreases |ts|
  {
    if ts == [] {
      HeldIsLocked(s);
    } else {
      hide Searches, Enabled, Apply;
      StillSearches(s, ts[0].0, ts[0].1);
      SearchGoesOn(Apply(s, ts[0].0, ts[0].1), ts[1..]);
    }
  }

  lemma HeldIsLocked(s: State)
    requires Inv(s) && s.holder.Some?
    ensures s.lock == 1 && s.holder.value in s.places && InCritical(s.places[s.holder.value])
    ensures forall c | c in s.places && c != s.holder.value :: !InCritical(s.places[c])
    ensures forall c | c in s.queues && c != 0 :: s.queues[c].current !in s.objects
  {
    hide Consistent;
  }

  lemma StillSearches(s: State, c: nat, ch: Choice)
    requires Searches(s) && Enabled(s, c, ch)
    ensures Searches(Apply(s, c, ch))
  {
    HeldIsLocked(s);
    EveryStepKeepsInv(s, c, ch);
    hide Inv, Trace, After, CanDispatch, Apply, Enabled;
    if c == 0 {
      SearcherTurns(s, ch);
      NeverLeaves(s, Apply(s, c, ch));
    } else {
      OthersWait(s, c, ch);
    }
  }

  lemma SearcherTurns(s: State, ch: Choice)
    requires Enabled(s, 0, ch) && (s.places[0].Enter? || IsSearchStep(s.places[0])) && s.places[0].op.Scheduling?
    ensures var s' := Apply(s, 0, ch);
            && s'.holder == s.holder && s'.log == s.log && 0 in s'.places
            && (s'.places[0].Leaving? || IsSearchStep(s'.places[0])) && s'.places[0].op == s.places[0].op
  {
  }

  lemma OthersWait(s: State, c: nat, ch: Choice)
    requires Enabled(s, c, ch) && c != 0 && s.lock == 1 && !InCritical(s.places[c]) && s.queues[c].current !in s.objects
    ensures var s' := Apply(s, c, ch);
            && s'.holder == s.holder && s'.log == s.log
            && (0 in s.places ==> 0 in s'.places && s'.places[0] == s.places[0])
  {
  }

  /** A search that leaves has found a thread. */
  lemma NeverLeaves(s: State, s': State)
    requires Inv(s') && s'.log == s.log && s'.holder == Some(0) && Trace(s.log) && !CanDispatch(After(s.log))
    ensures !(s'.places[0].Leaving? && s'.places[0].op.Scheduling?)
  {
    if s'.places[0].Leaving? && s'.places[0].op.Scheduling? {
      var q, regs := After(s'.log), s'.places[0].op.regs;
      assert HalfScheduled(s', q, s'.places[0]);
      SaveKeepsFlags(q, regs);
    }
  }

  /** The lock can still be opened exactly when its holder has not been interrupted, and is
      not searching a queue on which nobody can run. */
  lemma LockComesBackIff(s: State, regs: Regs, tick: bool)
    requires Inv(s) && s.holder.Some? && Trace(s.log)
    ensures var s0 := if tick then Ticked(s, regs) else s;
            (exists ts :: InTurn(s0, ts) && Taken(s0, ts).lock == 0) <==> !tick && !Hopeless(s, s.holder.value)
  {
    hide Inv, Hopeless, Trace;
    var h := s.holder.value;
    HeldIsLocked(s);
    if tick {
      TickLosesTheLock(s, regs);
      forall ts | InTurn(Ticked(s, regs), ts) ensures Taken(Ticked(s, regs), ts).lock == 1 {
        NobodyOpensIt(Ticked(s, regs), ts);
      }
    } else if Hopeless(s, h) {
      forall ts | InTurn(s, ts) ensures Taken(s, ts).lock == 1 {
        HopelessIsZero(s, h);
        SearchGoesOn(s, ts);
      }
    } else {
      var chs, u := HolderFinishes(s, h);
      var ts := PlaysInTurn(s, h, chs);
      FinishedIsOpen(s, Played(s, h, chs), h, u);
    }
  }

  lemma HopelessIsZero(s: State, c: nat)
    requires Trace(s.log) && Hopeless(s, c)
    ensures c == 0
  {
  }

  lemma FinishedIsOpen(s: State, s': State, c: nat, u: nat)
    requires c in s.places && InCritical(s.places[c]) && Finished(s, s', c, u)
    ensures s'.lock == 0
  {
  }
}
