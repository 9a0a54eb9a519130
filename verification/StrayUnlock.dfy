/** AddThread(Thread*) of src/sched/scheduler.cpp among the processors of SchedulerLock: the
    writes of the locked function and its final store to the lock, without taking the lock. */
module StrayUnlock {
  import opened Machine
  import opened RoundRobin
  import opened SchedulerModel
  import opened SchedulerLock
  import opened LockProgress

  /** A thread, by its object, on its processor; 0 is the context that booted it. */
  datatype Caller = Caller(cpu: nat, thread: nat)

  /** How far a call has come: a place of the locked function, or between reading tail and
      writing to what was read. */
  datatype Stage = At(p: Place) | TailRead(op: Op, t: nat, tail: nat)

  /** The machine, and the calls of AddThread(Thread*) under way.  To the machine a processor
      whose thread is in a call is idle.  masked says whether callers keep interrupts off. */
  datatype Whole = Whole(machine: State, calls: map<Caller, Stage>, masked: bool)

  /** A step of the machine by the processor; a call by its running thread, with a new thread
      object at t; or the next read or write of its running thread's call. */
  datatype Act = Plain(ch: Choice) | Call(t: nat, ctxt: Regs, rootTable: nat) | Stray

  datatype Turn = Turn(who: nat, act: Act)

  function Running(s: State, c: nat): Caller
    requires c in s.queues
  {
    Caller(c, s.queues[c].current)
  }

  /** With interrupts off a processor does nothing else while its thread is in a call. */
  ghost predicate Uninterrupted(x: Whole, c: nat) {
    x.masked ==> forall k | k in x.calls :: k.cpu != c
  }

  /** What a thread does of its own accord, not the timer. */
  predicate ByThread(ch: Choice) {
    ch.Delete? || (ch.Begin? && ch.op.Adding?)
  }

  ghost predicate Able(x: Whole, c: nat, a: Act) {
    && c in x.machine.places && c in x.machine.queues && 0 in x.machine.queues
    && match a
       case Plain(ch) =>
         && Enabled(x.machine, c, ch) && Uninterrupted(x, c)
         && (ByThread(ch) ==> Running(x.machine, c) !in x.calls)
       case Call(t, _, _) =>
         && x.machine.places[c].Idle? && Uninterrupted(x, c) && Running(x.machine, c) !in x.calls
         && t != 0 && t !in x.machine.objects
       case Stray =>
         && x.machine.places[c].Idle? && Running(x.machine, c) in x.calls
         && CanGoOn(x.machine, x.calls[Running(x.machine, c)])
  }

  ghost predicate CanGoOn(s: State, st: Stage)
    requires 0 in s.queues
  {
    match st
    case At(p) => IsAdding(p) && (p.HeadSet? || Enabled(Standing(s, p), Stand(s), Go))
    case TailRead(_, _, tail) => tail != 0 ==> tail in s.objects
  }

  /** A number that is no processor's, under which a call's steps are looked up. */
  ghost function Stand(s: State): nat {
    Unused(s.places.Keys + s.queues.Keys)
  }

  ghost function Unused(cs: set<nat>): (v: nat)
    ensures v !in cs
  {
    SomeUnused(cs);
    var v: nat :| v !in cs;
    v
  }

  lemma SomeUnused(cs: set<nat>)
    ensures exists v: nat :: v !in cs
  {
    var below := Bounded(cs);
    assert below !in cs;
  }

  ghost function Standing(s: State, p: Place): State {
    s.(places := s.places[Stand(s) := p], queues := s.queues[Stand(s) := NO_QUEUE])
  }

  ghost function Do(x: Whole, c: nat, a: Act): Whole
    requires Able(x, c, a)
  {
    var s := x.machine;
    match a
    case Plain(ch) => x.(machine := Apply(s, c, ch))
    case Call(t, ctxt, rootTable) =>
      x.(machine := WithRec(s, t, Rec(ctxt, rootTable, 0, true, 0)),
         calls := x.calls[Running(s, c) := At(Made(Adding(ctxt, rootTable), t))])
    case Stray =>
      var k := Running(s, c);
      x.(machine := Written(s, x.calls[k]),
         calls := if x.calls[k].At? && x.calls[k].p.Leaving? then x.calls - {k}
                  else x.calls[k := NextStage(s, x.calls[k])])
  }

  /** What the step writes; whoever holds the lock is not asked. */
  ghost function Written(s: State, st: Stage): State
    requires 0 in s.queues && CanGoOn(s, st)
  {
    match st
    case At(p) =>
      if p.HeadSet? then s
      else
        var s' := Apply(Standing(s, p), Stand(s), Go);
        s'.(places := s.places, queues := s'.queues - {Stand(s)}, holder := s.holder)
    case TailRead(_, t, tail) => if tail != 0 then WithRec(s, tail, s.objects[tail].(next := t)) else s
  }

  ghost function NextStage(s: State, st: Stage): Stage
    requires 0 in s.queues && CanGoOn(s, st)
  {
    match st
    case At(p) =>
      if p.HeadSet? then TailRead(p.op, p.t, s.queues[0].tail)
      else At(Apply(Standing(s, p), Stand(s), Go).places[Stand(s)])
    case TailRead(op, t, _) => At(LinkSet(op, t))
  }

  ghost predicate Takes(x: Whole, ts: seq<Turn>)
    decreases |ts|
  {
    ts == [] || (Able(x, ts[0].who, ts[0].act) && Takes(Do(x, ts[0].who, ts[0].act), ts[1..]))
  }

  ghost function EndOf(x: Whole, ts: seq<Turn>): Whole
    requires Takes(x, ts)
    decreases |ts|
  {
    if ts == [] then x else EndOf(Do(x, ts[0].who, ts[0].act), ts[1..])
  }

  lemma {:induction false} TakesBoth(x: Whole, ts: seq<Turn>, us: seq<Turn>)
    requires Takes(x, ts) && Takes(EndOf(x, ts), us)
    ensures Takes(x, ts + us) && EndOf(x, ts + us) == EndOf(EndOf(x, ts), us)
    decreases |ts|
  {
    hide Able, Do;
    if ts == [] {
      assert ts + us == us;
    } else {
      assert (ts + us)[1..] == ts[1..] + us;
      TakesBoth(Do(x, ts[0].who, ts[0].act), ts[1..], us);
    }
  }

  lemma TakesOne(x: Whole, c: nat, a: Act)
    requires Able(x, c, a)
    ensures Takes(x, [Turn(c, a)]) && EndOf(x, [Turn(c, a)]) == Do(x, c, a)
  {
    hide Able, Do;
    var ts, x' := [Turn(c, a)], Do(x, c, a);
    assert ts[1..] == [] && Takes(x', []) && EndOf(x', []) == x';
  }

  // ---------------------------------------------------------------- calls in peace

  /** Whoever can be inside: a processor in the critical section, or a thread in its call. */
  datatype Agent = Processor(c: nat) | Thread(k: Caller)

  ghost predicate Inside(x: Whole, a: Agent) {
    match a
    case Processor(c) => c in x.machine.places && InCritical(x.machine.places[c])
    case Thread(k) => k in x.calls
  }

  /** No critical section beside a call, be it another processor's or that of another thread
      or the timer on the caller's own, and no two calls at once. */
  ghost predicate OneInside(x: Whole) {
    forall a, b | Inside(x, a) && Inside(x, b) :: a == b
  }

  lemma OnlyOne(x: Whole, a: Agent, b: Agent)
    requires OneInside(x) && Inside(x, a) && Inside(x, b)
    ensures a == b
  {
  }

  lemma OnlyCall(x: Whole, k: Caller)
    requires OneInside(x) && k in x.calls
    ensures x.calls.Keys == {k} && forall c | c in x.machine.places :: !InCritical(x.machine.places[c])
  {
    forall j | j in x.calls ensures j == k {
      OnlyOne(x, Thread(k), Thread(j));
    }
    forall c | c in x.machine.places ensures !InCritical(x.machine.places[c]) {
      if InCritical(x.machine.places[c]) {
        OnlyOne(x, Thread(k), Processor(c));
      }
    }
  }

  /** What the machine would be if the call were another processor's and had the lock. */
  ghost function AsIfLocked(s: State, p: Place): State {
    Standing(s, p).(lock := 1, holder := Some(Stand(s)))
  }

  ghost predicate Lent(s: State, st: Stage) {
    && s.lock == 0 && s.holder == None && 0 in s.queues
    && match st
       case At(p) => IsAdding(p) && p.op.Adding? && Inv(AsIfLocked(s, p))
       case TailRead(op, t, tail) => op.Adding? && tail == s.queues[0].tail && Inv(AsIfLocked(s, HeadSet(op, t)))
  }

  /** Between calls the machine's own invariant; during one, that of a locked AddThread. */
  ghost predicate Peace(x: Whole) {
    && OneInside(x)
    && (x.calls == map[] ==> Inv(x.machine))
    && (forall k | k in x.calls :: Lent(x.machine, x.calls[k]))
  }

  /** A processor with nothing to do may join the machine or leave it. */
  ghost function Joined(s: State): State {
    Standing(s, Idle)
  }

  lemma JoinKeepsInv(s: State)
    requires s.places.Keys == s.queues.Keys && 0 in s.places && s.holder == None
    ensures Inv(s) <==> Inv(Joined(s))
  {
    var v := Stand(s);
    assert v !in s.places.Keys && v !in s.queues.Keys;
    hide InMemory, HalfAdded, HalfScheduled, Trace, After;
    JoinIsExclusive(s);
    assert forall c | c in s.queues :: Joined(s).queues[c] == s.queues[c];
    assert Joined(s).queues[v] == NO_QUEUE;
  }

  lemma JoinIsExclusive(s: State)
    requires s.holder == None && Stand(s) !in s.places
    ensures Exclusive(s) <==> Exclusive(Joined(s))
  {
    assert forall c | c in s.places :: Joined(s).places[c] == s.places[c];
    assert forall c | c in Joined(s).places :: c == Stand(s) || c in s.places;
  }

  /** A call that begins while nobody is inside begins like a locked one. */
  lemma CallBegins(x: Whole, c: nat, t: nat, ctxt: Regs, rootTable: nat)
    requires Peace(x) && x.calls == map[] && Able(x, c, Call(t, ctxt, rootTable))
    requires OneInside(Do(x, c, Call(t, ctxt, rootTable)))
    ensures Peace(Do(x, c, Call(t, ctxt, rootTable)))
  {
    var x' := Do(x, c, Call(t, ctxt, rootTable));
    var k := Running(x.machine, c);
    OnlyCall(x', k);
    NobodyHolds(x.machine);
    hide Inv, OneInside, Able, Do;
    LocksLike(x.machine, t, ctxt, rootTable);
    assert x'.calls == map[k := At(Made(Adding(ctxt, rootTable), t))];
  }

  lemma NobodyHolds(s: State)
    requires Inv(s) && forall c | c in s.places :: !InCritical(s.places[c])
    ensures s.holder == None && s.lock == 0 && s.places.Keys == s.queues.Keys && 0 in s.places
  {
    hide Consistent;
  }

  lemma LocksLike(s: State, t: nat, ctxt: Regs, rootTable: nat)
    requires Inv(s) && s.holder == None && s.lock == 0 && s.places.Keys == s.queues.Keys && 0 in s.places
    requires t != 0 && t !in s.objects
    ensures Lent(WithRec(s, t, Rec(ctxt, rootTable, 0, true, 0)), At(Made(Adding(ctxt, rootTable), t)))
  {
    var v, op := Stand(s), Adding(ctxt, rootTable);
    assert v !in s.places.Keys && v !in s.queues.Keys && v != 0;
    JoinKeepsInv(s);
    hide Inv, Apply, Enabled;
    EntersLike(Joined(s), v, op);
    AllocatesLike(s, op, t);
    EveryStepKeepsInv(Entered(Joined(s), v, op), v, Allocate(t));
  }

  lemma AllocatesLike(s: State, op: Op, t: nat)
    requires 0 in s.queues && t != 0 && t !in s.objects && op.Adding?
    ensures var v := Stand(s); var j := Entered(Joined(s), v, op);
            && Enabled(j, v, Allocate(t))
            && Apply(j, v, Allocate(t)) ==
                 AsIfLocked(WithRec(s, t, Rec(op.ctxt, op.rootTable, 0, true, 0)), Made(op, t))
  {
    var v := Stand(s);
    assert v !in s.places.Keys && v !in s.queues.Keys;
    var l := AsIfLocked(WithRec(s, t, Rec(op.ctxt, op.rootTable, 0, true, 0)), Made(op, t));
    assert l.places == Apply(Entered(Joined(s), v, op), v, Allocate(t)).places;
  }

  function Entered(s: State, c: nat, op: Op): State {
    s.(places := s.places[c := Enter(op)], lock := 1, holder := Some(c))
  }

  lemma EntersLike(s: State, c: nat, op: Op)
    requires Inv(s) && c in s.places && c in s.queues && 0 in s.queues && s.places[c] == Idle && s.lock == 0
    ensures Inv(Entered(s, c, op))
  {
    hide Inv;
    EveryStepKeepsInv(s, c, Begin(op));
    var s1 := AtPlace(s, c, Spin(op));
    EveryStepKeepsInv(s1, c, Swap(false));
    assert Apply(s1, c, Swap(false)).places == Entered(s, c, op).places;
    assert Apply(s1, c, Swap(false)) == Entered(s, c, op);
  }

  // ---------------------------------------------------------------- each step of a call

  /** The lock is not looked at inside the function: what a call writes is what it would
      write with the lock. */
  lemma LockedStep(s: State, p: Place)
    requires s.lock == 0 && s.holder == None && 0 in s.queues
    requires IsAdding(p) && p.op.Adding? && !p.HeadSet? && Enabled(Standing(s, p), Stand(s), Go)
    ensures Enabled(AsIfLocked(s, p), Stand(s), Go)
    ensures var s' := Written(s, At(p)); var l' := Apply(AsIfLocked(s, p), Stand(s), Go);
            && s'.places == s.places && s'.queues.Keys == s.queues.Keys && s'.lock == 0 && s'.holder == None
            && Stand(s') == Stand(s) && 0 in s'.queues
            && if p.Leaving? then Joined(s') == l'
               else var p' := NextStage(s, At(p)).p;
                    IsAdding(p') && p'.op == p.op && AsIfLocked(s', p') == l'
  {
    var v := Stand(s);
    assert v !in s.places.Keys && v !in s.queues.Keys;
    var s', l' := Written(s, At(p)), Apply(AsIfLocked(s, p), v, Go);
    assert s'.queues.Keys == s.queues.Keys;
    assert s'.queues[v := NO_QUEUE] == l'.queues;
    assert p.Leaving? ==> s.places[v := Idle] == l'.places;
    assert !p.Leaving? ==> s.places[v := NextStage(s, At(p)).p] == l'.places;
  }

  lemma CallGoesOn(x: Whole, c: nat)
    requires Peace(x) && Able(x, c, Stray)
    ensures Peace(Do(x, c, Stray))
  {
    var k := Running(x.machine, c);
    OnlyCall(x, k);
    var st := x.calls[k];
    assert Lent(x.machine, st) && CanGoOn(x.machine, st);
    hide Inv, Peace, OneInside, Able, Lent, Written, NextStage, CanGoOn;
    WrittenKeepsPlaces(x.machine, st);
    var x' := Do(x, c, Stray);
    if st.At? && st.p.Leaving? {
      CallLeaves(x.machine, st.p);
      FewerInside(x, x');
      NoCallsInPeace(x');
    } else {
      StageKeepsLent(x.machine, st);
      FewerInside(x, x');
      OneCallInPeace(x', k);
    }
  }

  lemma NoCallsInPeace(x: Whole)
    requires Inv(x.machine) && x.calls.Keys == {} && OneInside(x)
    ensures Peace(x)
  {
  }

  lemma OneCallInPeace(x: Whole, k: Caller)
    requires x.calls.Keys == {k} && Lent(x.machine, x.calls[k]) && OneInside(x)
    ensures Peace(x)
  {
  }

  lemma WrittenKeepsPlaces(s: State, st: Stage)
    requires 0 in s.queues && CanGoOn(s, st)
    ensures Written(s, st).places == s.places
  {
  }

  lemma CallLeaves(s: State, p: Place)
    requires Lent(s, At(p)) && CanGoOn(s, At(p)) && p.Leaving?
    ensures Inv(Written(s, At(p)))
  {
    LentKeys(s, p);
    hide Inv, Apply, Enabled;
    var s' := Written(s, At(p));
    LockedStep(s, p);
    EveryStepKeepsInv(AsIfLocked(s, p), Stand(s), Go);
    JoinKeepsInv(s');
  }

  lemma LentKeys(s: State, p: Place)
    requires Inv(AsIfLocked(s, p)) && 0 in s.queues
    ensures s.places.Keys == s.queues.Keys && 0 in s.places
  {
    var v := Stand(s);
    assert v !in s.places.Keys && v !in s.queues.Keys;
    assert AsIfLocked(s, p).places.Keys == s.places.Keys + {v};
    assert AsIfLocked(s, p).queues.Keys == s.queues.Keys + {v};
    assert s.places.Keys == s.places.Keys + {v} - {v} && s.queues.Keys == s.queues.Keys + {v} - {v};
  }

  lemma StageKeepsLent(s: State, st: Stage)
    requires Lent(s, st) && CanGoOn(s, st) && !(st.At? && st.p.Leaving?)
    ensures Lent(Written(s, st), NextStage(s, st))
  {
    hide Inv, Apply, Enabled;
    if st.TailRead? {
      LinkIsOneStep(s, st);
    } else if !st.p.HeadSet? {
      LockedStep(s, st.p);
      EveryStepKeepsInv(AsIfLocked(s, st.p), Stand(s), Go);
    }
  }

  /** Reading tail and writing to it, undisturbed, are the one step of the locked function. */
  lemma LinkIsOneStep(s: State, st: Stage)
    requires Lent(s, st) && CanGoOn(s, st) && st.TailRead?
    ensures Lent(Written(s, st), NextStage(s, st))
  {
    var v, p := Stand(s), HeadSet(st.op, st.t);
    assert v !in s.places.Keys && v !in s.queues.Keys;
    var l := AsIfLocked(s, p);
    assert l.queues[0] == s.queues[0];
    hide Inv;
    EveryStepKeepsInv(l, v, Go);
    var l' := AsIfLocked(Written(s, st), LinkSet(st.op, st.t));
    assert l'.places == Apply(l, v, Go).places;
    assert l' == Apply(l, v, Go);
  }

  lemma FewerInside(x: Whole, x': Whole)
    requires OneInside(x) && x'.machine.places == x.machine.places && x'.calls.Keys <= x.calls.Keys
    ensures OneInside(x')
  {
    assert forall a | Inside(x', a) :: Inside(x, a);
  }

  /** So is what the others do outside the critical section meanwhile. */
  lemma OthersGoOn(x: Whole, k: Caller, d: nat, ch: Choice)
    requires Peace(x) && k in x.calls && Able(x, d, Plain(ch)) && OneInside(Do(x, d, Plain(ch)))
    ensures Peace(Do(x, d, Plain(ch)))
  {
    var x' := Do(x, d, Plain(ch));
    OnlyCall(x, k);
    OnlyCall(x', k);
    assert Lent(x.machine, x.calls[k]);
    hide Inv, Peace, OneInside;
    OutsideKeepsLent(x.machine, x.calls[k], d, ch);
    OneCallInPeace(x', k);
  }

  lemma OutsideKeepsLent(s: State, st: Stage, d: nat, ch: Choice)
    requires Lent(s, st) && Enabled(s, d, ch)
    requires !InCritical(s.places[d]) && d in Apply(s, d, ch).places && !InCritical(Apply(s, d, ch).places[d])
    ensures Lent(Apply(s, d, ch), st)
  {
    hide Inv;
    var p := if st.At? then st.p else HeadSet(st.op, st.t);
    OutsideIsOutside(s, p, d, ch);
    EveryStepKeepsInv(AsIfLocked(s, p), d, ch);
  }

  lemma OutsideIsOutside(s: State, p: Place, d: nat, ch: Choice)
    requires s.lock == 0 && s.holder == None && 0 in s.queues && Enabled(s, d, ch)
    requires !InCritical(s.places[d]) && d in Apply(s, d, ch).places && !InCritical(Apply(s, d, ch).places[d])
    ensures Enabled(AsIfLocked(s, p), d, ch)
    ensures var s' := Apply(s, d, ch);
            && s'.lock == 0 && s'.holder == None && s'.queues == s.queues
            && AsIfLocked(s', p) == Apply(AsIfLocked(s, p), d, ch)
  {
    assert Stand(s) !in s.places.Keys && Stand(s) !in s.queues.Keys;
    OutsideEnabled(s, p, Stand(s), d, ch);
    OutsideWrites(s, d, ch);
    OutsideWrites(AsIfLocked(s, p), d, ch);
    hide Enabled, Apply, InCritical;
    assert s.places[d := Apply(s, d, ch).places[d]].Keys == s.places.Keys;
    var p' := Apply(s, d, ch).places[d];
    assert s.places[d := p'][Stand(s) := p] == s.places[Stand(s) := p][d := p'];
  }

  lemma OutsideEnabled(s: State, p: Place, v: nat, d: nat, ch: Choice)
    requires 0 in s.queues && Enabled(s, d, ch) && !InCritical(s.places[d]) && v !in s.places && v !in s.queues
    ensures Enabled(s.(places := s.places[v := p], queues := s.queues[v := NO_QUEUE], lock := 1, holder := Some(v)),
              d, ch)
  {
  }

  /** What a step outside the critical section that stays outside does. */
  ghost function Elsewhere(s: State, d: nat, ch: Choice): State
    requires d in s.queues
  {
    var current := s.queues[d].current;
    if ch.Begin? then AtPlace(s, d, Spin(ch.op))
    else if ch.Delete? && current in s.objects then
      var s' := WithRec(s, current, s.objects[current].(canRun := false));
      if d == 0 then s'.(log := s.log + [Event.DeleteCurThread]) else s'
    else s
  }

  lemma OutsideWrites(s: State, d: nat, ch: Choice)
    requires Enabled(s, d, ch) && !InCritical(s.places[d])
    requires s.places[d].Spin? && s.lock == 0 ==> !InCritical(Apply(s, d, ch).places[d])
    ensures Apply(s, d, ch) == Elsewhere(s, d, ch)
  {
  }

  lemma StepKeepsPeace(x: Whole, c: nat, a: Act)
    requires Peace(x) && Able(x, c, a) && OneInside(Do(x, c, a))
    ensures Peace(Do(x, c, a))
  {
    hide Inv, Lent, Apply, Enabled, OneInside;
    match a
    case Plain(ch) =>
      if k :| k in x.calls {
        OthersGoOn(x, k, c, ch);
      } else {
        assert x.calls == map[];
        EveryStepKeepsInv(x.machine, c, ch);
      }
    case Call(t, ctxt, rootTable) =>
      if k :| k in x.calls {
        OnlyOne(Do(x, c, a), Thread(k), Thread(Running(x.machine, c)));
      } else {
        assert x.calls == map[];
        CallBegins(x, c, t, ctxt, rootTable);
      }
    case Stray => CallGoesOn(x, c);
  }

  /** In every state the turns lead through only one is inside. */
  ghost predicate Undisturbed(x: Whole, ts: seq<Turn>)
    requires Takes(x, ts)
    decreases |ts|
  {
    OneInside(x) && (ts != [] ==> Undisturbed(Do(x, ts[0].who, ts[0].act), ts[1..]))
  }

  lemma {:induction false} UndisturbedKeepsPeace(x: Whole, ts: seq<Turn>)
    requires Peace(x) && Takes(x, ts) && Undisturbed(x, ts)
    ensures Peace(EndOf(x, ts))
    decreases |ts|
  {
    if ts != [] {
      hide Peace, OneInside, Able, Do;
      var x' := Do(x, ts[0].who, ts[0].act);
      assert OneInside(x') by { assert Undisturbed(x', ts[1..]); }
      StepKeepsPeace(x, ts[0].who, ts[0].act);
      UndisturbedKeepsPeace(x', ts[1..]);
    }
  }

  /** Nobody is in the critical section with another; and when the lock is free and no call
      is under way, memory holds exactly the queue of the completed operations. */
  ghost predicate Sequential(x: Whole) {
    && (forall c, d | c in x.machine.places && d in x.machine.places
                      && InCritical(x.machine.places[c]) && InCritical(x.machine.places[d]) :: c == d)
    && (x.calls == map[] && x.machine.lock == 0 ==>
          && 0 in x.machine.queues && Trace(x.machine.log)
          && InMemory(x.machine.objects, x.machine.queues[0], x.machine.curPid, x.machine.order, After(x.machine.log)))
  }

  lemma PeaceIsSequential(x: Whole)
    requires Peace(x)
    ensures Sequential(x)
  {
    hide InMemory, HalfAdded, HalfScheduled, Trace, After, Lent;
    forall c, d | c in x.machine.places && d in x.machine.places
                  && InCritical(x.machine.places[c]) && InCritical(x.machine.places[d]) ensures c == d {
      OnlyOne(x, Processor(c), Processor(d));
    }
  }

  /** Calls of AddThread(Thread*) that nobody disturbs, at any time and by any thread, are as
      good as locked ones. */
  lemma UndisturbedCallsAreSequential(s: State, masked: bool, ts: seq<Turn>)
    requires Inv(s) && Takes(Whole(s, map[], masked), ts) && Undisturbed(Whole(s, map[], masked), ts)
    ensures Sequential(EndOf(Whole(s, map[], masked), ts))
  {
    assert Peace(Whole(s, map[], masked)) by { InvIsPeace(s, masked); }
    UndisturbedKeepsPeace(Whole(s, map[], masked), ts);
    PeaceIsSequential(EndOf(Whole(s, map[], masked), ts));
  }

  lemma InvIsPeace(s: State, masked: bool)
    requires Inv(s)
    ensures Peace(Whole(s, map[], masked))
  {
    hide Consistent;
  }

  // ---------------------------------------------------------------- nobody else

  /** c is the only processor, and while its thread is in a call it does nothing else. */
  ghost predicate Alone(x: Whole, c: nat) {
    && x.masked && x.machine.places.Keys == {c}
    && (forall j, k | j in x.calls && k in x.calls :: j == k)
    && (forall k | k in x.calls :: k.cpu == c && x.machine.places[c].Idle?)
  }

  lemma AloneStaysAlone(x: Whole, c: nat, d: nat, a: Act)
    requires Alone(x, c) && Able(x, d, a)
    ensures Alone(Do(x, d, a), c)
  {
    assert d in x.machine.places.Keys;
    hide Enabled, Apply, Written, NextStage, CanGoOn;
    match a
    case Plain(ch) =>
      StepKeepsProcessors(x.machine, d, ch);
      assert x.calls.Keys == {};
    case Call(_, _, _) =>
      assert x.calls.Keys == {};
    case Stray => WrittenKeepsPlaces(x.machine, x.calls[Running(x.machine, d)]);
  }

  lemma StepKeepsProcessors(s: State, c: nat, ch: Choice)
    requires Enabled(s, c, ch)
    ensures Apply(s, c, ch).places.Keys == s.places.Keys
  {
  }

  lemma AloneIsOne(x: Whole, c: nat)
    requires Alone(x, c)
    ensures OneInside(x)
  {
  }

  lemma {:induction false} AloneIsUndisturbed(x: Whole, c: nat, ts: seq<Turn>)
    requires Alone(x, c) && Takes(x, ts)
    ensures Undisturbed(x, ts)
    decreases |ts|
  {
    AloneIsOne(x, c);
    if ts != [] {
      hide Able, Do, Alone, OneInside;
      AloneStaysAlone(x, c, ts[0].who, ts[0].act);
      AloneIsUndisturbed(Do(x, ts[0].who, ts[0].act), c, ts[1..]);
    }
  }
}
