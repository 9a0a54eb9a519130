/** A call of AddThread(Thread*) by itself: each of its steps written out, its end, and what
    becomes of the critical section when somebody was in it. */
module StrayCalls {
  import opened Machine
  import opened RoundRobin
  import opened SchedulerModel
  import opened SchedulerLock
  import opened LockProgress
  import opened StrayUnlock

  // ---------------------------------------------------------------- a call by itself

  /** A step of a call, written out. */
  ghost function Effect(s: State, st: Stage): State
    requires 0 in s.queues && CanGoOn(s, st)
  {
    var q0 := s.queues[0];
    match st
    case TailRead(_, t, tail) => if tail != 0 then WithRec(s, tail, s.objects[tail].(next := t)) else s
    case At(p) =>
      match p
      case PidRead(_, _, pid) => s.(curPid := pid + 1)
      case PidBumped(_, t, pid) => WithRec(s, t, s.objects[t].(pid := pid))
      case Named(_, t) => if q0.head == 0 then WithQueue(s, 0, q0.(head := t)) else s
      case LinkSet(_, t) => WithQueue(s, 0, q0.(tail := t))
      case TailSet(_, _) => WithQueue(s, 0, q0.(count := q0.count + 1))
      case Leaving(op, t) =>
        s.(lock := 0, log := s.log + Completed(Stand(s), op), order := if op.Adding? then s.order + [t] else s.order)
      case _ => s
  }

  ghost function Then(s: State, st: Stage): Stage
    requires 0 in s.queues
  {
    match st
    case TailRead(op, t, _) => At(LinkSet(op, t))
    case At(p) =>
      match p
      case Made(op, t) => At(PidRead(op, t, s.curPid))
      case PidRead(op, t, pid) => At(PidBumped(op, t, pid))
      case PidBumped(op, t, _) => At(Named(op, t))
      case Named(op, t) => At(HeadSet(op, t))
      case HeadSet(op, t) => TailRead(op, t, s.queues[0].tail)
      case LinkSet(op, t) => At(TailSet(op, t))
      case TailSet(op, t) => At(Leaving(op, t))
      case _ => At(Idle)
  }

  lemma EffectIsWritten(s: State, st: Stage)
    requires 0 in s.queues && CanGoOn(s, st)
    ensures Written(s, st) == Effect(s, st)
    ensures NextStage(s, st) == Then(s, st)
  {
    if st.At? && !st.p.HeadSet? {
      PlaceEffect(s, st.p);
    }
  }

  lemma PlaceEffect(s: State, p: Place)
    requires 0 in s.queues && CanGoOn(s, At(p)) && !p.HeadSet?
    ensures Written(s, At(p)) == Effect(s, At(p))
    ensures NextStage(s, At(p)) == Then(s, At(p))
  {
    var v := Stand(s);
    assert v !in s.places.Keys && v !in s.queues.Keys;
    assert s.queues[v := NO_QUEUE] - {v} == s.queues;
    var s' := Apply(Standing(s, p), v, Go);
    assert s'.queues - {v} == s.queues[0 := s'.queues[0]];
  }

  function Object(st: Stage): nat
    requires st.At? ==> IsAdding(st.p)
  {
    match st
    case At(p) => p.t
    case TailRead(_, t, _) => t
  }

  /** A call that can go on without help. */
  ghost predicate Ready(s: State, st: Stage) {
    && 0 in s.queues && (st.At? ==> IsAdding(st.p)) && Object(st) in s.objects && Object(st) != 0
    && (s.queues[0].tail != 0 ==> s.queues[0].tail in s.objects)
    && (st.TailRead? && st.tail != 0 ==> st.tail in s.objects)
  }

  function StepsLeft(st: Stage): nat {
    match st
    case At(p) => if p.Made? || p.PidRead? || p.PidBumped? || p.Named? || p.HeadSet? then Left(p) + 1 else Left(p)
    case TailRead(_, _, _) => 4
  }

  lemma ReadyGoesOn(s: State, st: Stage)
    requires Ready(s, st)
    ensures CanGoOn(s, st)
    ensures var s' := Effect(s, st);
            && s'.places == s.places && s'.queues.Keys == s.queues.Keys
            && (forall c | c in s.queues :: s'.queues[c].current == s.queues[c].current)
            && if st.At? && st.p.Leaving? then s'.lock == 0
               else Ready(s', Then(s, st)) && StepsLeft(Then(s, st)) < StepsLeft(st)
                    && !(Then(s, st).At? && Then(s, st).p.Idle?)
  {
    assert Stand(s) !in s.places.Keys && Stand(s) !in s.queues.Keys;
  }

  /** The one call under way is that of c's running thread, and can go on. */
  ghost predicate CanFinish(x: Whole, c: nat) {
    var s := x.machine;
    && c in s.places && c in s.queues && 0 in s.queues && s.places[c].Idle?
    && x.calls.Keys == {Running(s, c)} && Ready(s, x.calls[Running(s, c)])
  }

  lemma CallStep(x: Whole, c: nat)
    requires CanFinish(x, c)
    ensures Able(x, c, Stray) && CanGoOn(x.machine, x.calls[Running(x.machine, c)])
    ensures var st := x.calls[Running(x.machine, c)]; var x' := Do(x, c, Stray);
            && x'.machine == Effect(x.machine, st) && x'.machine.places == x.machine.places
            && x'.machine.queues.Keys == x.machine.queues.Keys && x'.masked == x.masked
            && if st.At? && st.p.Leaving? then x'.machine.lock == 0 && x'.calls == map[]
               else CanFinish(x', c) && x'.calls == map[Running(x.machine, c) := Then(x.machine, st)]
                    && Running(x'.machine, c) == Running(x.machine, c)
                    && StepsLeft(Then(x.machine, st)) < StepsLeft(st)
  {
    var k := Running(x.machine, c);
    ReadyGoesOn(x.machine, x.calls[k]);
    EffectIsWritten(x.machine, x.calls[k]);
    hide Ready, CanGoOn, Written, NextStage, Effect, Then;
    var x' := Do(x, c, Stray);
    assert x.calls.Keys - {k} == {};
  }

  /** Left to itself a call ends with the lock open, whoever is inside. */
  lemma {:induction false} CallEnds(x: Whole, c: nat) returns (ts: seq<Turn>)
    requires CanFinish(x, c)
    ensures Takes(x, ts) && (forall t | t in ts :: t == Turn(c, Stray))
    ensures var x' := EndOf(x, ts);
            && x'.machine.places == x.machine.places && x'.machine.lock == 0 && x'.calls == map[]
            && x'.machine.queues.Keys == x.machine.queues.Keys && x'.masked == x.masked
    decreases StepsLeft(x.calls[Running(x.machine, c)])
  {
    CallStep(x, c);
    var st := x.calls[Running(x.machine, c)];
    var x' := Do(x, c, Stray);
    hide Able, Do, CanFinish, Effect, Then;
    TakesOne(x, c, Stray);
    ts := [Turn(c, Stray)];
    if !(st.At? && st.p.Leaving?) {
      var rest := CallEnds(x', c);
      TakesBoth(x, ts, rest);
      ts := ts + rest;
    }
  }

  // ---------------------------------------------------------------- two inside

  const ANY_OP: Op := Adding(InitialContext(0, false), 0)

  /** An idle processor of a machine whose lock is open can get in. */
  lemma GetsIn(x: Whole, d: nat) returns (ts: seq<Turn>)
    requires d in x.machine.places && d in x.machine.queues && 0 in x.machine.queues && x.calls == map[]
    requires (x.machine.places[d].Idle? || x.machine.places[d].Spin?) && x.machine.lock == 0
    ensures Takes(x, ts) && (forall t | t in ts :: t.who == d && t.act.Plain?)
    ensures var x' := EndOf(x, ts);
            && x'.calls == map[] && x'.masked == x.masked && x'.machine.places.Keys == x.machine.places.Keys
            && InCritical(x'.machine.places[d])
            && (forall c | c in x.machine.places && c != d :: x'.machine.places[c] == x.machine.places[c])
    ensures Inv(x.machine) ==> Inv(EndOf(x, ts).machine)
  {
    hide Inv;
    if x.machine.places[d].Idle? {
      var x1 := Do(x, d, Plain(Begin(ANY_OP)));
      TakesOne(x, d, Plain(Begin(ANY_OP)));
      TakesOne(x1, d, Plain(Swap(false)));
      TakesBoth(x, [Turn(d, Plain(Begin(ANY_OP)))], [Turn(d, Plain(Swap(false)))]);
      ts := [Turn(d, Plain(Begin(ANY_OP)))] + [Turn(d, Plain(Swap(false)))];
      if Inv(x.machine) {
        EveryStepKeepsInv(x.machine, d, Begin(ANY_OP));
        EveryStepKeepsInv(x1.machine, d, Swap(false));
      }
    } else {
      TakesOne(x, d, Plain(Swap(false)));
      ts := [Turn(d, Plain(Swap(false)))];
      if Inv(x.machine) {
        EveryStepKeepsInv(x.machine, d, Swap(false));
      }
    }
  }

  /** With a second processor there are turns after which somebody is inside and c is not. */
  lemma SomebodyGetsIn(s: State, masked: bool, c: nat, d: nat) returns (ts: seq<Turn>, h: nat)
    requires Inv(s) && c in s.places && s.places[c].Idle? && d in s.places && d != c
    ensures Takes(Whole(s, map[], masked), ts) && (forall t | t in ts :: t.act.Plain?)
    ensures var x := EndOf(Whole(s, map[], masked), ts);
            && x.calls == map[] && x.masked == masked && Inv(x.machine) && c in x.machine.places
            && x.machine.places[c].Idle? && h in x.machine.places && h != c && InCritical(x.machine.places[h])
  {
    hide Consistent;
    ts := [];
    if s.holder.Some? {
      h := s.holder.value;
    } else {
      assert !InCritical(s.places[d]);
      h := d;
      ts := GetsIn(Whole(s, map[], masked), d);
    }
  }

  lemma TailIsAnObject(s: State)
    requires Inv(s)
    ensures s.queues[0].tail != 0 ==> s.queues[0].tail in s.objects
  {
    hide Exclusive, Trace, After, Chained, Points;
    var q := After(s.log);
    if s.holder.Some? && IsAdding(s.places[s.holder.value]) && s.places[s.holder.value].op.Adding? {
      TailIsThere(s, q, s.places[s.holder.value]);
    } else {
      TailOfQueue(s, q);
    }
  }

  lemma TailOfQueue(s: State, q: Queue)
    requires 0 in s.queues && Sound(q)
    requires InMemory(s.objects, s.queues[0], s.curPid, s.order, q)
             || (0 in s.places && IsScheduling(s.places[0]) && HalfScheduled(s, q, s.places[0]))
    ensures s.queues[0].tail != 0 ==> s.queues[0].tail in s.objects
  {
    if InMemory(s.objects, s.queues[0], s.curPid, s.order, q) {
      LastIsThere(s.objects, s.order, q.tasks, 0);
    } else {
      var a: Queue :| Searching(s, Save(q, s.places[0].op.regs), a, s.places[0]);
      LastIsThere(s.objects, s.order, a.tasks, 0);
    }
  }

  /** .. and then turns of c alone, a call and an operation after it, that bring c in too. */
  lemma TheCallerGetsIn(s: State, masked: bool, c: nat, h: nat) returns (ts: seq<Turn>)
    requires Inv(s) && c in s.places && s.places[c].Idle? && h in s.places && h != c && InCritical(s.places[h])
    ensures Takes(Whole(s, map[], masked), ts) && (forall t | t in ts :: t.who == c)
    ensures !Sequential(EndOf(Whole(s, map[], masked), ts))
  {
    var x := Whole(s, map[], masked);
    var x1, call := CallCanBegin(x, c);
    hide Able, Do, CanFinish, Inv;
    TakesOne(x, c, call);
    var us := CallEnds(x1, c);
    var x2 := EndOf(x1, us);
    assert c in x2.machine.queues && 0 in x2.machine.queues by { FinishQueues(x1, c); }
    var vs := GetsIn(x2, c);
    TakesBoth(x1, us, vs);
    TakesBoth(x, [Turn(c, call)], us + vs);
    ts := [Turn(c, call)] + (us + vs);
    var z := EndOf(x, ts);
    assert z == EndOf(x2, vs);
    assert InCritical(z.machine.places[c]) && InCritical(z.machine.places[h]);
  }

  lemma FinishQueues(x: Whole, c: nat)
    requires CanFinish(x, c)
    ensures c in x.machine.queues && 0 in x.machine.queues
  {
  }

  lemma CallCanBegin(x: Whole, c: nat) returns (x': Whole, call: Act)
    requires Inv(x.machine) && c in x.machine.places && x.machine.places[c].Idle? && x.calls == map[]
    ensures call.Call? && Able(x, c, call) && x' == Do(x, c, call) && CanFinish(x', c)
    ensures x'.machine.places == x.machine.places
    ensures x'.calls == map[Running(x.machine, c) := At(Made(Adding(call.ctxt, call.rootTable), call.t))]
  {
    TailIsAnObject(x.machine);
    hide Exclusive, Consistent;
    var below := Bounded(x.machine.objects.Keys);
    var t := FreshAddress(x.machine.objects.Keys, below);
    call := Call(t, InitialContext(0, false), 0);
    x' := Do(x, c, call);
  }
}
