/** What calls of AddThread(Thread*) do to the queue when other threads run meanwhile, and
    exactly when they are safe. */
module LostThread {
  import opened Machine
  import opened RoundRobin
  import opened SchedulerModel
  import opened SchedulerLock
  import opened LockProgress
  import opened StrayUnlock
  import opened StrayCalls

  // ---------------------------------------------------------------- others meanwhile

  /** Nobody holds the lock and the queue is whole, whatever calls are under way. */
  ghost predicate Resting(x: Whole) {
    Inv(x.machine) && x.machine.holder == None && Trace(x.machine.log)
  }

  lemma RestingMemory(x: Whole)
    requires Resting(x)
    ensures 0 in x.machine.places && 0 in x.machine.queues && 0 !in x.machine.objects && x.machine.lock == 0
    ensures x.machine.places.Keys == x.machine.queues.Keys
    ensures InMemory(x.machine.objects, x.machine.queues[0], x.machine.curPid, x.machine.order, After(x.machine.log))
    ensures forall c | c in x.machine.places && c != 0 :: x.machine.queues[c] == NO_QUEUE
  {
  }

  lemma {:induction false} PlainPlays(x: Whole, c: nat, chs: seq<Choice>) returns (ts: seq<Turn>)
    requires Plays(x.machine, c, chs) && OnlyWork(chs) && Uninterrupted(x, c)
    ensures Takes(x, ts) && (forall t | t in ts :: t.act.Plain?)
    ensures EndOf(x, ts) == x.(machine := Played(x.machine, c, chs))
    decreases |chs|
  {
    ts := [];
    if chs != [] {
      assert chs[0] in chs && Able(x, c, Plain(chs[0]));
      hide Enabled, Apply, Able;
      TakesOne(x, c, Plain(chs[0]));
      var x' := x.(machine := Apply(x.machine, c, chs[0]));
      var rest := PlainPlays(x', c, chs[1..]);
      TakesBoth(x, [Turn(c, Plain(chs[0]))], rest);
      ts := [Turn(c, Plain(chs[0]))] + rest;
    }
  }

  /** The objects there were are still there, with their pids, and as they were if they are
      not on the queue; and nothing joins the queue that was not new. */
  ghost predicate Untouched(s: State, s': State) {
    forall o | o in s.objects ::
      && o in s'.objects && s'.objects[o].pid == s.objects[o].pid
      && (o !in s.order ==> s'.objects[o] == s.objects[o] && o !in s'.order)
  }

  lemma UntouchedBoth(s: State, s': State, s'': State)
    requires Untouched(s, s') && Untouched(s', s'')
    ensures Untouched(s, s'')
  {
  }

  ghost predicate OnlyMachine(x: Whole, x': Whole) {
    x' == x.(machine := x'.machine) && x'.machine.places == x.machine.places
  }

  /** c completes an operation of its own, or of the timer's. */
  lemma Operates(x: Whole, c: nat, op: Op) returns (ts: seq<Turn>, u: nat)
    requires Resting(x) && c in x.machine.places && x.machine.places[c].Idle? && Uninterrupted(x, c)
    requires op.Adding? ==> c in x.machine.queues && Running(x.machine, c) !in x.calls
    requires op.Scheduling? && c == 0 ==> CanDispatch(After(x.machine.log))
    ensures Takes(x, ts) && (forall t | t in ts :: t.act.Plain?)
    ensures var x' := EndOf(x, ts);
            && Resting(x') && OnlyMachine(x, x') && Untouched(x.machine, x'.machine)
            && x'.machine.log == x.machine.log + Completed(c, op)
            && x'.machine.order == (if op.Adding? then x.machine.order + [u] else x.machine.order)
            && (op.Adding? ==> u != 0 && u !in x.machine.objects)
  {
    RestingMemory(x);
    var chs;
    hide Inv, InMemory, Plays, Played, Able, Uninterrupted;
    chs, u := OperationCompletes(x.machine, c, op);
    ts := BeginPlays(x, c, op, chs);
    var s' := Played(x.machine, c, chs);
    InvTraces(s');
    KeptIsUntouched(x.machine, s', u, op.Adding?);
  }

  lemma BeginPlays(x: Whole, c: nat, op: Op, chs: seq<Choice>) returns (ts: seq<Turn>)
    requires chs != [] && chs[0] == Begin(op) && OnlyWork(chs[1..]) && Plays(x.machine, c, chs)
    requires Uninterrupted(x, c) && c in x.machine.queues && (op.Adding? ==> Running(x.machine, c) !in x.calls)
    ensures Takes(x, ts) && (forall t | t in ts :: t.act.Plain?)
    ensures EndOf(x, ts) == x.(machine := Played(x.machine, c, chs))
  {
    assert Able(x, c, Plain(Begin(op)));
    hide Enabled, Apply, Able, OnlyWork;
    TakesOne(x, c, Plain(Begin(op)));
    var x1 := x.(machine := Apply(x.machine, c, Begin(op)));
    var rest := PlainPlays(x1, c, chs[1..]);
    TakesBoth(x, [Turn(c, Plain(Begin(op)))], rest);
    ts := [Turn(c, Plain(Begin(op)))] + rest;
  }

  lemma KeptIsUntouched(s: State, s': State, u: nat, added: bool)
    requires Kept(s, s', u) && 0 !in s.objects && if added then u !in s.objects else u == 0
    requires s'.order == if added then s.order + [u] else s.order
    ensures Untouched(s, s')
  {
  }

  // ---------------------------------------------------------------- what an operation leaves

  lemma AddLeaves(x: Whole, x': Whole, op: Op, u: nat)
    requires Resting(x) && Resting(x') && op.Adding? && OnlyMachine(x, x')
    requires x'.machine.log == x.machine.log + [Event.AddThread(op.ctxt, op.rootTable)]
    requires x'.machine.order == x.machine.order + [u]
    ensures After(x'.machine.log) == Add(After(x.machine.log), op.ctxt, op.rootTable)
    ensures x'.machine.curPid == x.machine.curPid + 1
    ensures u in x'.machine.objects && x'.machine.objects[u].pid == x.machine.curPid
    ensures forall c | c in x.machine.places && c in x.machine.queues ::
              c in x'.machine.queues && Running(x'.machine, c) == Running(x.machine, c)
  {
    RestingMemory(x);
    RestingMemory(x');
    AppendEvent(x.machine.log, Event.AddThread(op.ctxt, op.rootTable));
    hide Inv, Trace, After;
    var q := After(x.machine.log);
    assert x'.machine.order[|q.tasks|] in x'.machine.objects;
  }

  lemma TickLeaves(x: Whole, x': Whole, regs: Regs)
    requires Resting(x) && Resting(x') && CanDispatch(After(x.machine.log)) && After(x.machine.log).tasks != []
    requires x'.machine.log == x.machine.log + [Event.Schedule(regs)] && x'.machine.order == x.machine.order
    ensures var q, q' := After(x.machine.log), After(x'.machine.log);
            && Flags(q') == Flags(q) && |q'.tasks| == |q.tasks| && q'.nextPid == q.nextPid
            && SearchFrom(q) < |q.tasks| && q'.current == Some(Next(Flags(q), SearchFrom(q)))
    ensures x'.machine.curPid == x.machine.curPid
  {
    RestingMemory(x);
    RestingMemory(x');
    var q := After(x.machine.log);
    AppendEvent(x.machine.log, Event.Schedule(regs));
    SaveKeepsFlags(q, regs);
    var d := Step(q, Event.Schedule(regs));
    assert d.tasks == Save(q, regs).tasks;
    assert Flags(d) == Flags(Save(q, regs));
  }

  // ---------------------------------------------------------------- the timer, and another thread

  /** Processor 0 is idle, in this state or a later one with the same places and calls, and
      interrupts are on. */
  ghost predicate TimerRuns(x: Whole) {
    Resting(x) && !x.masked && 0 in x.machine.places && x.machine.places[0].Idle?
  }

  const NO_REGS: Regs := InitialContext(0, false)

  /** x' is x after ticks: another thread may be running, all else is as it was. */
  ghost predicate Later(x: Whole, x': Whole)
    requires Resting(x) && Resting(x')
  {
    var q, q' := After(x.machine.log), After(x'.machine.log);
    && TimerRuns(x') && OnlyMachine(x, x') && Untouched(x.machine, x'.machine)
    && x'.machine.order == x.machine.order && x'.machine.curPid == x.machine.curPid
    && Flags(q') == Flags(q) && |q'.tasks| == |q.tasks|
  }

  lemma LaterBoth(x: Whole, x': Whole, x'': Whole)
    requires Resting(x) && Resting(x') && Resting(x'') && Later(x, x') && Later(x', x'')
    ensures Later(x, x'')
  {
    hide Resting, TimerRuns, Untouched, After, Flags;
    UntouchedBoth(x.machine, x'.machine, x''.machine);
  }

  ghost function QueueOf(x: Whole): Queue
    requires Resting(x)
  {
    After(x.machine.log)
  }

  /** One tick: the next thread that can run is dispatched. */
  lemma Tick(x: Whole) returns (ts: seq<Turn>)
    requires TimerRuns(x) && CanDispatch(QueueOf(x)) && QueueOf(x).tasks != []
    ensures Takes(x, ts) && (forall t | t in ts :: t.act.Plain?)
    ensures Resting(EndOf(x, ts)) && Later(x, EndOf(x, ts))
    ensures var q := QueueOf(x);
            && SearchFrom(q) < |q.tasks| && SomeRunnable(Flags(q))
            && QueueOf(EndOf(x, ts)).current == Some(Next(Flags(q), SearchFrom(q)))
  {
    hide Inv, Flags, Trace, After, CanDispatch, Able, Takes, EndOf, Untouched;
    DispatchMeans(QueueOf(x));
    var u;
    ts, u := Operates(x, 0, Scheduling(NO_REGS));
    TickLeaves(x, EndOf(x, ts), NO_REGS);
  }

  lemma DispatchMeans(q: Queue)
    requires CanDispatch(q) && q.tasks != []
    ensures SearchFrom(q) < |q.tasks| && SomeRunnable(Flags(q))
  {
  }

  /** Position i is the n-th that will be dispatched. */
  ghost predicate ComesIn(q: Queue, i: nat, n: nat) {
    SearchFrom(q) < |q.tasks| && var ring := Ring(Flags(q), SearchFrom(q), 1); n < |ring| && ring[n] == i
  }

  /** Tick by tick the thread at position i comes round again. */
  lemma {:induction false} UntilBack(x: Whole, i: nat, n: nat) returns (ts: seq<Turn>)
    requires TimerRuns(x) && ComesIn(QueueOf(x), i, n)
    ensures Takes(x, ts) && (forall t | t in ts :: t.act.Plain?)
    ensures Resting(EndOf(x, ts)) && Later(x, EndOf(x, ts)) && QueueOf(EndOf(x, ts)).current == Some(i)
    decreases n
  {
    RingCanDispatch(QueueOf(x), i, n);
    hide Inv, Flags, After, QueueOf, CanDispatch, Able, Takes, EndOf, Later, Next, ComesIn;
    ts := Tick(x);
    var x' := EndOf(x, ts);
    LaterFlags(x, x');
    ComesSooner(QueueOf(x), QueueOf(x'), i, n);
    if n > 0 {
      var rest := UntilBack(x', i, n - 1);
      TakesBoth(x, ts, rest);
      LaterBoth(x, x', EndOf(x', rest));
      ts := ts + rest;
    }
  }

  lemma LaterFlags(x: Whole, x': Whole)
    requires Resting(x) && Resting(x') && Later(x, x')
    ensures TimerRuns(x') && Flags(QueueOf(x')) == Flags(QueueOf(x)) && |QueueOf(x').tasks| == |QueueOf(x).tasks|
  {
  }

  lemma ComesSooner(q: Queue, q': Queue, i: nat, n: nat)
    requires ComesIn(q, i, n) && Flags(q') == Flags(q) && |q'.tasks| == |q.tasks| && SomeRunnable(Flags(q))
    requires q'.current == Some(Next(Flags(q), SearchFrom(q)))
    ensures if n == 0 then q'.current == Some(i) else ComesIn(q', i, n - 1)
  {
    hide Ring, Next;
    NextIsFirst(Flags(q), SearchFrom(q));
    RingTurns(Flags(q), SearchFrom(q));
  }

  lemma NextIsFirst(flags: seq<bool>, cur: nat)
    requires cur < |flags| && SomeRunnable(flags)
    ensures Ring(flags, cur, 1) != [] && Next(flags, cur) == Ring(flags, cur, 1)[0]
  {
    RingIsNonempty(flags, cur);
  }

  lemma RingCanDispatch(q: Queue, i: nat, n: nat)
    requires ComesIn(q, i, n)
    ensures CanDispatch(q) && q.tasks != [] && |Flags(q)| == |q.tasks| && i < |q.tasks| && q.tasks[i].canRun
  {
    hide Ring;
    var ring := Ring(Flags(q), SearchFrom(q), 1);
    assert ring[n] in ring;
    RingIsComplete(Flags(q), SearchFrom(q), i);
  }

  /** With two threads that can run a tick takes the processor from the one that runs. */
  lemma NextIsAnother(flags: seq<bool>, cur: nat, j: nat)
    requires cur < |flags| && flags[cur] && j < |flags| && flags[j] && j != cur
    ensures SomeRunnable(flags) && Next(flags, cur) != cur
  {
    assert SomeRunnable(flags);
    var ring := Ring(flags, cur, 1);
    NextIsFirst(flags, cur);
    RingTurns(flags, cur);
    RingIsDistinct(flags, cur, 1);
    RingIsComplete(flags, cur, j);
    RingIsComplete(flags, cur, cur);
    assert |ring| >= 2;
    assert (ring[1..] + [ring[0]])[0] == ring[1];
  }

  ghost predicate TwoCanRun(q: Queue) {
    && q.current.Some? && q.current.value < |q.tasks| && q.tasks[q.current.value].canRun
    && exists j: nat :: j < |q.tasks| && q.tasks[j].canRun && j != q.current.value
  }

  /** The running thread of processor 0 is that of the current position. */
  lemma RunningIs(x: Whole)
    requires Resting(x) && After(x.machine.log).current.Some?
    ensures var i := After(x.machine.log).current.value;
            0 in x.machine.queues && i < |x.machine.order| && Running(x.machine, 0).thread == x.machine.order[i]
  {
    RestingMemory(x);
  }

  lemma OrderIsDistinct(x: Whole, i: nat, j: nat)
    requires Resting(x) && i < j < |x.machine.order|
    ensures x.machine.order[i] != x.machine.order[j]
  {
    RestingMemory(x);
  }

  /** w has joined the queue, under the lock, and all else is as it was. */
  ghost predicate Grown(x: Whole, x': Whole, w: nat)
    requires Resting(x) && Resting(x')
  {
    && OnlyMachine(x, x') && Untouched(x.machine, x'.machine)
    && x'.machine.order == x.machine.order + [w] && w != 0 && w !in x.machine.objects
    && w in x'.machine.objects && x'.machine.objects[w].pid == x.machine.curPid
    && x'.machine.curPid == x.machine.curPid + 1
  }

  /** The running thread of d adds another. */
  lemma Adds(x: Whole, d: nat) returns (ts: seq<Turn>, w: nat)
    requires Resting(x) && d in x.machine.places && x.machine.places[d].Idle? && Uninterrupted(x, d)
    requires d in x.machine.queues && Running(x.machine, d) !in x.calls
    ensures Takes(x, ts) && (forall t | t in ts :: t.act.Plain?)
    ensures Resting(EndOf(x, ts)) && Grown(x, EndOf(x, ts), w)
    ensures QueueOf(EndOf(x, ts)) == Add(QueueOf(x), InitialContext(0, false), 0)
    ensures forall c | c in x.machine.places && c in x.machine.queues ::
              c in EndOf(x, ts).machine.queues && Running(EndOf(x, ts).machine, c) == Running(x.machine, c)
  {
    hide Inv, Trace, After, Able, Takes, EndOf, Untouched, Uninterrupted;
    ts, w := Operates(x, d, ANY_OP);
    AddLeaves(x, EndOf(x, ts), ANY_OP, w);
  }

  /** Some other thread can get to run while c's is in its call: on an idle processor of its
      own, or on c's when the timer says so. */
  ghost predicate CanBeDisturbed(x: Whole, c: nat)
    requires Resting(x)
  {
    || (exists d :: d in x.machine.places && d != c && x.machine.places[d].Idle?)
    || (!x.masked && c == 0 && TwoCanRun(QueueOf(x)))
  }

  /** c's running thread is in its call, which is the only one. */
  ghost predicate InCall(x: Whole, c: nat) {
    && Resting(x) && c in x.machine.places && x.machine.places[c].Idle? && c in x.machine.queues
    && x.calls.Keys == {Running(x.machine, c)}
  }

  ghost predicate Disturbance(x: Whole, x': Whole, c: nat, w: nat)
    requires InCall(x, c)
  {
    InCall(x', c) && Grown(x, x', w) && CanBeDisturbed(x', c)
  }

  lemma ElsewhereAdds(x: Whole, c: nat, d: nat) returns (ts: seq<Turn>, w: nat)
    requires InCall(x, c) && d in x.machine.places && d != c && x.machine.places[d].Idle?
    ensures Takes(x, ts) && (forall t | t in ts :: t.act.Plain?) && Disturbance(x, EndOf(x, ts), c, w)
  {
    RestingMemory(x);
    hide Inv, Resting, Takes, EndOf, Untouched, QueueOf;
    assert forall k | k in x.calls :: k in x.calls.Keys && k.cpu == c;
    ts, w := Adds(x, d);
  }

  lemma TimerAdds(x: Whole) returns (ts: seq<Turn>, w: nat)
    requires InCall(x, 0) && !x.masked && TwoCanRun(QueueOf(x))
    ensures Takes(x, ts) && (forall t | t in ts :: t.act.Plain?) && Disturbance(x, EndOf(x, ts), 0, w)
  {
    var q := QueueOf(x);
    var i := q.current.value;
    var j: nat :| j < |q.tasks| && q.tasks[j].canRun && j != i;
    assert Flags(q)[i] && Flags(q)[j];
    NextIsAnother(Flags(q), i, j);
    assert CanDispatch(q);
    var us := Tick(x);
    var x1 := EndOf(x, us);
    AnotherRuns(x, x1);
    hide Resting, Takes, EndOf, Later, QueueOf, TwoCanRun, CanDispatch;
    var vs;
    vs, w := AnotherAdds(x1);
    var x2 := EndOf(x1, vs);
    var n := ComesRound(x, x1, x2, i, w);
    var ws := UntilBack(x2, i, n);
    TakesBoth(x, us, vs);
    TakesBoth(x, us + vs, ws);
    ts := us + vs + ws;
    assert EndOf(x, ts) == EndOf(x2, ws);
    BackInCall(x, x1, x2, EndOf(x2, ws), w);
  }

  /** Processor 0 runs a thread that is in no call. */
  ghost predicate AnotherThread(x: Whole) {
    TimerRuns(x) && 0 in x.machine.queues && Running(x.machine, 0) !in x.calls
  }

  lemma AnotherRuns(x: Whole, x1: Whole)
    requires InCall(x, 0) && QueueOf(x).current.Some? && Resting(x1) && Later(x, x1)
    requires QueueOf(x1).current.Some? && QueueOf(x1).current != QueueOf(x).current
    ensures AnotherThread(x1)
  {
    RunningIs(x);
    RunningIs(x1);
    var i, j := QueueOf(x).current.value, QueueOf(x1).current.value;
    OrderIsDistinct(x, if i < j then i else j, if i < j then j else i);
    hide Inv, Untouched, Flags, After;
    assert Running(x1.machine, 0) !in x.calls.Keys;
  }

  lemma AnotherAdds(x: Whole) returns (ts: seq<Turn>, w: nat)
    requires AnotherThread(x)
    ensures Takes(x, ts) && (forall t | t in ts :: t.act.Plain?)
    ensures Resting(x) && Resting(EndOf(x, ts)) && TimerRuns(EndOf(x, ts)) && Grown(x, EndOf(x, ts), w)
    ensures QueueOf(EndOf(x, ts)) == Add(QueueOf(x), InitialContext(0, false), 0)
  {
    hide Resting, Takes, EndOf, Untouched, QueueOf;
    ts, w := Adds(x, 0);
  }

  lemma ComesRound(x: Whole, x1: Whole, x2: Whole, i: nat, w: nat) returns (n: nat)
    requires Resting(x) && Resting(x1) && Resting(x2) && Later(x, x1)
    requires QueueOf(x2) == Add(QueueOf(x1), InitialContext(0, false), 0) && QueueOf(x1).current.Some?
    requires i < |QueueOf(x).tasks| && QueueOf(x).tasks[i].canRun
    ensures ComesIn(QueueOf(x2), i, n)
  {
    var q, q1, q2 := QueueOf(x), QueueOf(x1), QueueOf(x2);
    assert Sound(q2);
    assert Flags(q)[i] && Flags(q1)[i];
    assert Flags(q2)[i];
    var ring := Ring(Flags(q2), SearchFrom(q2), 1);
    RingIsComplete(Flags(q2), SearchFrom(q2), i);
    n :| n < |ring| && ring[n] == i;
  }

  lemma BackInCall(x: Whole, x1: Whole, x2: Whole, x3: Whole, w: nat)
    requires InCall(x, 0) && !x.masked && TwoCanRun(QueueOf(x)) && Resting(x1) && Resting(x2) && Resting(x3)
    requires Later(x, x1) && Grown(x1, x2, w) && Later(x2, x3)
    requires QueueOf(x2) == Add(QueueOf(x1), InitialContext(0, false), 0) && QueueOf(x3).current == QueueOf(x).current
    ensures Disturbance(x, x3, 0, w)
  {
    hide Inv, Trace, After;
    RunningIs(x);
    RunningIs(x3);
    UntouchedBoth(x.machine, x1.machine, x2.machine);
    UntouchedBoth(x.machine, x2.machine, x3.machine);
    TwoStillRun(QueueOf(x), QueueOf(x1), QueueOf(x2), QueueOf(x3));
  }

  lemma TwoStillRun(q: Queue, q1: Queue, q2: Queue, q3: Queue)
    requires TwoCanRun(q) && Flags(q1) == Flags(q) && |q1.tasks| == |q.tasks|
    requires q2 == Add(q1, InitialContext(0, false), 0)
    requires Flags(q3) == Flags(q2) && |q3.tasks| == |q2.tasks| && q3.current == q.current
    ensures TwoCanRun(q3)
  {
    var j: nat :| j < |q.tasks| && q.tasks[j].canRun && j != q.current.value;
    assert Flags(q)[j] && Flags(q)[q.current.value];
    assert Flags(q1)[j] && Flags(q1)[q.current.value];
    assert Flags(q2)[j] && Flags(q2)[q.current.value];
    assert Flags(q3)[j] && Flags(q3)[q.current.value];
  }

  lemma Disturb(x: Whole, c: nat) returns (ts: seq<Turn>, w: nat)
    requires InCall(x, c) && CanBeDisturbed(x, c)
    ensures Takes(x, ts) && (forall t | t in ts :: t.act.Plain?) && Disturbance(x, EndOf(x, ts), c, w)
  {
    hide InCall, Takes, EndOf, Disturbance, QueueOf, TwoCanRun;
    if d :| d in x.machine.places && d != c && x.machine.places[d].Idle? {
      ts, w := ElsewhereAdds(x, c, d);
    } else {
      ts, w := TimerAdds(x);
    }
  }

  // ---------------------------------------------------------------- a lost thread

  /** An object off the queue may be new or written to. */
  lemma StrangerKeepsResting(x: Whole, t: nat, r: Rec)
    requires Resting(x) && t !in x.machine.order && t != 0
    ensures Resting(x.(machine := WithRec(x.machine, t, r)))
  {
    RestingMemory(x);
    ChainedElsewhere(x.machine.objects, x.machine.order, After(x.machine.log).tasks, 0, t, r);
    hide Chained, Points, Trace, After, HalfAdded, HalfScheduled;
  }

  /** c's thread is in its call for object t, not yet linked. */
  ghost predicate Unlinked(x: Whole, c: nat, st: Stage, t: nat) {
    && InCall(x, c) && x.calls == map[Running(x.machine, c) := st]
    && (st.At? ==> IsAdding(st.p)) && Object(st) == t && t != 0
    && t in x.machine.objects && t !in x.machine.order && x.machine.objects[t].next == 0
  }

  lemma UnlinkedCanFinish(x: Whole, c: nat, st: Stage, t: nat)
    requires Unlinked(x, c, st, t) && (st.TailRead? ==> st.tail in x.machine.objects)
    ensures CanFinish(x, c)
  {
    TailIsAnObject(x.machine);
    RestingMemory(x);
  }

  /** Steps of a call before it links its object, the counter and the head being as they are. */
  ghost predicate Quiet(s: State, st: Stage) {
    st.At? && match st.p
              case Made(_, _) => true
              case PidRead(_, _, pid) => s.curPid == pid + 1
              case PidBumped(_, _, _) => true
              case Named(_, _) => s.order != []
              case HeadSet(_, _) => true
              case _ => false
  }

  lemma QuietStep(x: Whole, c: nat, st: Stage, t: nat)
    requires Unlinked(x, c, st, t) && Quiet(x.machine, st)
    ensures Able(x, c, Stray)
    ensures var x' := Do(x, c, Stray);
            && Unlinked(x', c, Then(x.machine, st), t) && x'.masked == x.masked
            && x'.machine == if st.p.PidBumped? then WithRec(x.machine, t, x.machine.objects[t].(pid := st.p.p))
                             else x.machine
  {
    UnlinkedCanFinish(x, c, st, t);
    CallStep(x, c);
    QuietEffect(x, st, t);
    if st.p.PidBumped? {
      StrangerKeepsResting(x, t, x.machine.objects[t].(pid := st.p.p));
    }
    hide Inv, Resting, Able, CanFinish, Effect;
    var x' := Do(x, c, Stray);
    assert x'.calls.Keys == {Running(x'.machine, c)};
  }

  lemma QuietEffect(x: Whole, st: Stage, t: nat)
    requires Resting(x) && Quiet(x.machine, st) && Ready(x.machine, st) && Object(st) == t
    ensures CanGoOn(x.machine, st)
    ensures Effect(x.machine, st) ==
              if st.p.PidBumped? then WithRec(x.machine, t, x.machine.objects[t].(pid := st.p.p)) else x.machine
  {
    ReadyGoesOn(x.machine, st);
    RestingMemory(x);
    if st.p.Named? {
      assert x.machine.order[0] in x.machine.order;
    }
  }

  lemma SameDisturbance(x: Whole, x': Whole, c: nat)
    requires Resting(x) && Resting(x') && CanBeDisturbed(x, c) && x'.masked == x.masked
    requires x'.machine.places == x.machine.places && x'.machine.log == x.machine.log
    ensures CanBeDisturbed(x', c)
  {
  }

  /** After an addition by another thread the call is where it was. */
  lemma StillUnlinked(x: Whole, x': Whole, c: nat, st: Stage, t: nat, w: nat)
    requires Unlinked(x, c, st, t) && Disturbance(x, x', c, w)
    ensures Unlinked(x', c, st, t) && x'.machine.objects[t] == x.machine.objects[t]
    ensures CanBeDisturbed(x', c)
  {
    hide Inv, Resting;
  }

  /** The chain from head leaves w out: it goes from u, before w, to t, after w, and ends.
      The threads are all counted, and u and t have one pid. */
  ghost predicate Lost(s: State, u: nat, w: nat, t: nat) {
    var n := |s.order|;
    && 3 <= n && s.order[n - 3] == u && s.order[n - 2] == w && s.order[n - 1] == t && 0 in s.queues
    && (forall i, j | 0 <= i < j < n :: s.order[i] != s.order[j]) && (forall o | o in s.order :: o in s.objects)
    && s.queues[0].head == s.order[0] && s.queues[0].tail == t && s.queues[0].count == n
    && (forall i | 0 <= i < n - 3 :: s.objects[s.order[i]].next == s.order[i + 1])
    && s.objects[u].next == t && s.objects[t].next == 0
    && s.objects[u].pid == s.objects[t].pid
  }

  lemma LostIsNotSequential(x: Whole, u: nat, w: nat, t: nat)
    requires Lost(x.machine, u, w, t) && x.calls == map[] && x.machine.lock == 0
    ensures !Sequential(x)
  {
    if Sequential(x) {
      LinkOf(x.machine.objects, x.machine.order, After(x.machine.log).tasks, |x.machine.order| - 3);
    }
  }

  /** t's call has read the tail u, and since then w has been added behind it. */
  ghost predicate Overtaken(x: Whole, c: nat, op: Op, u: nat, w: nat, t: nat) {
    var s := x.machine;
    && Unlinked(x, c, TailRead(op, t, u), t) && op.Adding?
    && |s.order| >= 2 && s.order[|s.order| - 2] == u && s.order[|s.order| - 1] == w
    && u in s.objects && s.objects[u].pid == s.objects[t].pid
  }

  lemma OvertakenLinks(x: Whole, c: nat, op: Op, u: nat, w: nat, t: nat)
    requires Overtaken(x, c, op, u, w, t)
    ensures var s := x.machine; var n := |s.order|;
            && (forall i, j | 0 <= i < j < n :: s.order[i] != s.order[j]) && (forall o | o in s.order :: o in s.objects)
            && 0 in s.queues && s.queues[0].head == s.order[0] && s.queues[0].count == n
            && (forall i | 0 <= i < n - 1 :: s.objects[s.order[i]].next == s.order[i + 1])
  {
    RestingMemory(x);
    var s := x.machine;
    forall i | 0 <= i < |s.order|
      ensures s.order[i] in s.objects && s.objects[s.order[i]].next == Link(s.order, i + 1, 0)
    {
      LinkOf(s.objects, s.order, After(s.log).tasks, i);
    }
  }

  /** What the rest of the call makes of it. */
  lemma RestLoses(x: Whole, c: nat, op: Op, u: nat, w: nat, t: nat, s1: State)
    requires Overtaken(x, c, op, u, w, t)
    requires var s := x.machine; var q := s.queues[0];
             && s1.objects == s.objects[u := s.objects[u].(next := t)] && 0 in s1.queues
             && s1.queues[0] == q.(tail := t, count := q.count + 1) && s1.order == s.order + [t]
    ensures Lost(s1, u, w, t)
  {
    OvertakenLinks(x, c, op, u, w, t);
    hide InCall, Resting;
    var s := x.machine;
    assert s1.order[|s1.order| - 3] == u && s1.order[|s1.order| - 2] == w;
  }

  lemma RestEffects(x: Whole, x1: Whole, x2: Whole, x3: Whole, x4: Whole, c: nat, op: Op, u: nat, t: nat)
    requires Unlinked(x, c, TailRead(op, t, u), t) && u in x.machine.objects && u != 0 && op.Adding?
               && 0 in x.machine.queues
    requires CanGoOn(x.machine, TailRead(op, t, u)) && x1.machine == Effect(x.machine, TailRead(op, t, u))
    requires 0 in x1.machine.queues && CanGoOn(x1.machine, At(LinkSet(op, t)))
    requires x2.machine == Effect(x1.machine, At(LinkSet(op, t)))
    requires 0 in x2.machine.queues && CanGoOn(x2.machine, At(TailSet(op, t)))
    requires x3.machine == Effect(x2.machine, At(TailSet(op, t)))
    requires 0 in x3.machine.queues && CanGoOn(x3.machine, At(Leaving(op, t)))
    requires x4.machine == Effect(x3.machine, At(Leaving(op, t)))
    ensures var s, s4 := x.machine, x4.machine; var q := s.queues[0];
            && s4.objects == s.objects[u := s.objects[u].(next := t)] && 0 in s4.queues
            && s4.queues[0] == q.(tail := t, count := q.count + 1) && s4.order == s.order + [t]
  {
    hide Unlinked, CanGoOn;
  }

  lemma RestOfCall(x: Whole, c: nat, op: Op, u: nat, w: nat, t: nat) returns (ts: seq<Turn>)
    requires Overtaken(x, c, op, u, w, t)
    ensures Takes(x, ts) && (forall t | t in ts :: t == Turn(c, Stray))
    ensures var x' := EndOf(x, ts); x'.calls == map[] && x'.machine.lock == 0 && Lost(x'.machine, u, w, t)
  {
    hide Able, Do, CanFinish, Effect, CanGoOn, Ready, InCall, Resting, Lost;
    UnlinkedCanFinish(x, c, TailRead(op, t, u), t);
    FinishQueues(x, c);
    CallStep(x, c);
    var x1 := Do(x, c, Stray);
    CallStep(x1, c);
    var x2 := Do(x1, c, Stray);
    CallStep(x2, c);
    var x3 := Do(x2, c, Stray);
    CallStep(x3, c);
    var x4 := Do(x3, c, Stray);
    FinishQueues(x1, c);
    FinishQueues(x2, c);
    FinishQueues(x3, c);
    OvertakenTail(x, c, op, u, w, t);
    RestEffects(x, x1, x2, x3, x4, c, op, u, t);
    RestLoses(x, c, op, u, w, t, x4.machine);
    ts := FourSteps(x, x1, x2, x3, x4, c);
  }

  lemma FourSteps(x: Whole, x1: Whole, x2: Whole, x3: Whole, x4: Whole, c: nat) returns (ts: seq<Turn>)
    requires Able(x, c, Stray) && x1 == Do(x, c, Stray) && Able(x1, c, Stray) && x2 == Do(x1, c, Stray)
    requires Able(x2, c, Stray) && x3 == Do(x2, c, Stray) && Able(x3, c, Stray) && x4 == Do(x3, c, Stray)
    ensures Takes(x, ts) && EndOf(x, ts) == x4 && forall t | t in ts :: t == Turn(c, Stray)
  {
    hide Able, Do, Takes, EndOf;
    TakesOne(x, c, Stray);
    TakesOne(x1, c, Stray);
    TakesOne(x2, c, Stray);
    TakesOne(x3, c, Stray);
    var y := [Turn(c, Stray)];
    TakesBoth(x2, y, y);
    TakesBoth(x1, y, y + y);
    TakesBoth(x, y, y + (y + y));
    ts := y + (y + (y + y));
  }

  lemma OvertakenTail(x: Whole, c: nat, op: Op, u: nat, w: nat, t: nat)
    requires Overtaken(x, c, op, u, w, t)
    ensures u != 0 && 0 in x.machine.queues
  {
    RestingMemory(x);
  }

  /** The calls in ts are c's. */
  ghost predicate OnlyCaller(ts: seq<Turn>, c: nat) {
    forall t | t in ts && !t.act.Plain? :: t.who == c
  }

  /** c's thread calls, and reads the pid counter. */
  lemma CallReadsPid(x: Whole, c: nat) returns (ts: seq<Turn>, op: Op, t: nat)
    requires Resting(x) && x.calls == map[] && c in x.machine.places && x.machine.places[c].Idle?
               && CanBeDisturbed(x, c)
    ensures Takes(x, ts) && OnlyCaller(ts, c) && op.Adding?
    ensures var x' := EndOf(x, ts);
            Unlinked(x', c, At(PidRead(op, t, x'.machine.curPid)), t) && CanBeDisturbed(x', c)
  {
    var x1, call := CallCanBegin(x, c);
    op, t := Adding(call.ctxt, call.rootTable), call.t;
    NewIsStranger(x, t);
    StrangerKeepsResting(x, t, Rec(call.ctxt, call.rootTable, 0, true, 0));
    assert Unlinked(x1, c, At(Made(op, t)), t) by { FinishQueues(x1, c); }
    SameDisturbance(x, x1, c);
    QuietStep(x1, c, At(Made(op, t)), t);
    var x2 := Do(x1, c, Stray);
    hide Inv, Resting, Able, Do, CanFinish, CanBeDisturbed;
    TakesOne(x, c, call);
    TakesOne(x1, c, Stray);
    TakesBoth(x, [Turn(c, call)], [Turn(c, Stray)]);
    ts := [Turn(c, call)] + [Turn(c, Stray)];
    UnlinkedRests(x1, c, At(Made(op, t)), t);
    UnlinkedRests(x2, c, Then(x1.machine, At(Made(op, t))), t);
    SameDisturbance(x1, x2, c);
  }

  lemma UnlinkedRests(x: Whole, c: nat, st: Stage, t: nat)
    requires Unlinked(x, c, st, t)
    ensures Resting(x)
  {
  }

  lemma NewIsStranger(x: Whole, t: nat)
    requires Resting(x) && t !in x.machine.objects
    ensures t !in x.machine.order
  {
    RestingMemory(x);
    assert forall i | 0 <= i < |x.machine.order| :: x.machine.order[i] in x.machine.objects;
  }

  /** The counter written back, the pid, the head as it is, and tail read. */
  lemma CallReadsTail(x: Whole, c: nat, op: Op, t: nat, pid: int, u: nat) returns (ts: seq<Turn>)
    requires Unlinked(x, c, At(PidRead(op, t, pid)), t) && CanBeDisturbed(x, c)
    requires x.machine.curPid == pid + 1 && x.machine.order != [] && x.machine.order[|x.machine.order| - 1] == u
    ensures Takes(x, ts) && OnlyCaller(ts, c)
    ensures var x' := EndOf(x, ts);
            && Unlinked(x', c, TailRead(op, t, u), t) && CanBeDisturbed(x', c) && x'.machine.order == x.machine.order
            && x'.machine.objects[t].pid == pid
            && (forall o | o in x.machine.objects && o != t ::
                  o in x'.machine.objects && x'.machine.objects[o] == x.machine.objects[o])
  {
    hide Inv, Resting, InCall, Able, Do, CanBeDisturbed;
    QuietStep(x, c, At(PidRead(op, t, pid)), t);
    var x1 := Do(x, c, Stray);
    QuietStep(x1, c, At(PidBumped(op, t, pid)), t);
    var x2 := Do(x1, c, Stray);
    QuietStep(x2, c, At(Named(op, t)), t);
    var x3 := Do(x2, c, Stray);
    TailIsLastOf(x3, c, At(HeadSet(op, t)), t);
    QuietStep(x3, c, At(HeadSet(op, t)), t);
    var x4 := Do(x3, c, Stray);
    ts := FourSteps(x, x1, x2, x3, x4, c);
    UnlinkedRests(x, c, At(PidRead(op, t, pid)), t);
    UnlinkedRests(x4, c, TailRead(op, t, u), t);
    SameDisturbance(x, x4, c);
  }

  lemma TailIsLastOf(x: Whole, c: nat, st: Stage, t: nat)
    requires Unlinked(x, c, st, t) && x.machine.order != []
    ensures 0 in x.machine.queues && x.machine.queues[0].tail == x.machine.order[|x.machine.order| - 1]
  {
    RestingMemory(x);
  }

  /** From every state with nobody inside, in which c's thread can be disturbed, a call of
      that thread can lose another, although the lock is free when the call opens it: one
      addition falls between its reading and its writing of the pid counter, and one
      between its reading of tail and its writing to what it read. */
  lemma AThreadIsLost(x: Whole, c: nat) returns (ts: seq<Turn>, u: nat, w: nat, t: nat)
    requires Resting(x) && x.calls == map[] && c in x.machine.places && x.machine.places[c].Idle?
               && CanBeDisturbed(x, c)
    ensures Takes(x, ts) && OnlyCaller(ts, c)
    ensures var z := EndOf(x, ts); z.calls == map[] && z.machine.lock == 0 && Lost(z.machine, u, w, t)
  {
    hide Inv, Resting, Takes, EndOf, CanBeDisturbed, Lost;
    var op, us;
    ts, op, t := CallReadsPid(x, c);
    var x2 := EndOf(x, ts);
    var pid := x2.machine.curPid;
    us, u := Disturb(x2, c);
    var x3 := EndOf(x2, us);
    StillUnlinked(x2, x3, c, At(PidRead(op, t, pid)), t, u);
    TakesBoth(x, ts, us);
    ts := ts + us;
    us := CallReadsTail(x3, c, op, t, pid, u);
    var x7 := EndOf(x3, us);
    TakesBoth(x, ts, us);
    ts := ts + us;
    us, w := Disturb(x7, c);
    var x8 := EndOf(x7, us);
    StillUnlinked(x7, x8, c, TailRead(op, t, u), t, w);
    TakesBoth(x, ts, us);
    ts := ts + us;
    us := RestOfCall(x8, c, op, u, w, t);
    TakesBoth(x, ts, us);
    ts := ts + us;
  }

  /** On one processor: two threads are added and the timer starts one of them or another. */
  lemma TimerStarts(x: Whole) returns (ts: seq<Turn>)
    requires TimerRuns(x) && x.calls == map[]
    ensures Takes(x, ts) && (forall t | t in ts :: t.act.Plain?)
    ensures var z := EndOf(x, ts);
            Resting(z) && z.calls == map[] && 0 in z.machine.places && z.machine.places[0].Idle? && CanBeDisturbed(z, 0)
  {
    RestingMemory(x);
    hide Inv, Resting, Takes, EndOf, Untouched, QueueOf, After;
    var a, b, us;
    ts, a := Adds(x, 0);
    var x1 := EndOf(x, ts);
    us, b := Adds(x1, 0);
    var x2 := EndOf(x1, us);
    TakesBoth(x, ts, us);
    ts := ts + us;
    TwoAdded(QueueOf(x), QueueOf(x1), QueueOf(x2)) by { QueueIsSound(x2); }
    us := Tick(x2);
    var x3 := EndOf(x2, us);
    TakesBoth(x, ts, us);
    ts := ts + us;
    OneRuns(QueueOf(x2), QueueOf(x3)) by { LaterFlags(x2, x3); }
    LaterFlags(x2, x3);
  }

  lemma QueueIsSound(x: Whole)
    requires Resting(x)
    ensures Sound(QueueOf(x))
  {
  }

  lemma TwoAdded(q: Queue, q1: Queue, q2: Queue)
    requires q1 == Add(q, InitialContext(0, false), 0) && q2 == Add(q1, InitialContext(0, false), 0) && Sound(q2)
    ensures q2.tasks != [] && CanDispatch(q2) && |q2.tasks| >= 2
    ensures q2.tasks[|q2.tasks| - 1].canRun && q2.tasks[|q2.tasks| - 2].canRun
  {
    assert Flags(q2)[|q2.tasks| - 1];
  }

  lemma OneRuns(q: Queue, q': Queue)
    requires |q.tasks| >= 2 && q.tasks[|q.tasks| - 1].canRun && q.tasks[|q.tasks| - 2].canRun
    requires SearchFrom(q) < |q.tasks| && SomeRunnable(Flags(q)) && q'.current == Some(Next(Flags(q), SearchFrom(q)))
    requires Flags(q') == Flags(q) && |q'.tasks| == |q.tasks|
    ensures TwoCanRun(q')
  {
    var n, i := |q.tasks|, q'.current.value;
    assert Flags(q)[n - 1] && Flags(q)[n - 2] && Flags(q)[i];
    assert Flags(q')[n - 1] && Flags(q')[n - 2] && Flags(q')[i];
    var j := if i == n - 1 then n - 2 else n - 1;
    assert q'.tasks[j].canRun;
  }

  // ---------------------------------------------------------------- when it is safe

  /** Whatever is done around the calls of c's threads, it comes out as it should. */
  ghost predicate AlwaysSequential(s: State, c: nat, masked: bool) {
    forall ts | Takes(Whole(s, map[], masked), ts) && OnlyCaller(ts, c) ::
        Sequential(EndOf(Whole(s, map[], masked), ts))
  }

  lemma AloneIsSafe(s: State, c: nat)
    requires Inv(s) && s.places.Keys == {c}
    ensures AlwaysSequential(s, c, true)
  {
    hide Inv, Sequential;
    forall ts | Takes(Whole(s, map[], true), ts) && OnlyCaller(ts, c)
      ensures Sequential(EndOf(Whole(s, map[], true), ts))
    {
      AloneIsUndisturbed(Whole(s, map[], true), c, ts);
      UndisturbedCallsAreSequential(s, true, ts);
    }
  }

  lemma SecondProcessorIsUnsafe(s: State, c: nat, d: nat, masked: bool)
    requires Inv(s) && c in s.places && s.places[c].Idle? && d in s.places && d != c
    ensures !AlwaysSequential(s, c, masked)
  {
    hide Inv, Sequential;
    var ts, h := SomebodyGetsIn(s, masked, c, d);
    var x := EndOf(Whole(s, map[], masked), ts);
    var us := TheCallerGetsIn(x.machine, masked, c, h);
    assert Whole(x.machine, map[], masked) == x;
    TakesBoth(Whole(s, map[], masked), ts, us);
    assert OnlyCaller(ts + us, c);
  }

  /** One processor with interrupts on: from every state in which nobody is inside, as at
      boot, there are turns of it alone after which a thread is lost. */
  lemma TheTimerLosesAThread(s: State) returns (ts: seq<Turn>, u: nat, w: nat, t: nat)
    requires Inv(s) && 0 in s.places && s.places[0].Idle? && s.holder == None
    ensures Takes(Whole(s, map[], false), ts) && OnlyCaller(ts, 0)
    ensures var z := EndOf(Whole(s, map[], false), ts);
            z.calls == map[] && z.machine.lock == 0 && Lost(z.machine, u, w, t)
  {
    hide Inv, Takes, EndOf, Resting, Lost, CanBeDisturbed;
    var x := Whole(s, map[], false);
    InvRests(s, false);
    var us := TimerStarts(x);
    var y := EndOf(x, us);
    var vs;
    vs, u, w, t := AThreadIsLost(y, 0);
    TakesBoth(x, us, vs);
    ts := us + vs;
  }

  /** Two processors just booted, with interrupts off or on. */
  lemma BootedProcessorsLoseAThread(s: State, masked: bool, c: nat, d: nat)
    returns (ts: seq<Turn>, u: nat, w: nat, t: nat)
    requires Initial(s) && c in s.places && d in s.places && c != d
    ensures Takes(Whole(s, map[], masked), ts) && OnlyCaller(ts, c)
    ensures var z := EndOf(Whole(s, map[], masked), ts);
            z.calls == map[] && z.machine.lock == 0 && Lost(z.machine, u, w, t)
  {
    EveryRunKeepsInv([s], [], [], 0);
    InvRests(s, masked);
    hide Inv, Takes, EndOf, Resting, Lost;
    ts, u, w, t := AThreadIsLost(Whole(s, map[], masked), c);
  }

  lemma TimerIsUnsafe(s: State)
    requires Inv(s) && 0 in s.places && s.places[0].Idle? && s.holder == None
    ensures !AlwaysSequential(s, 0, false)
  {
    hide Inv, Sequential, Takes, EndOf, Lost;
    var ts, u, w, t := TheTimerLosesAThread(s);
    LostIsNotSequential(EndOf(Whole(s, map[], false), ts), u, w, t);
  }

  lemma InvRests(s: State, masked: bool)
    requires Inv(s) && s.holder == None
    ensures Resting(Whole(s, map[], masked))
  {
    InvTraces(s);
  }

  lemma SoleIsZero(s: State, c: nat)
    requires Inv(s) && c in s.places && s.places[c].Idle? && s.places.Keys == {c}
    ensures c == 0 && s.holder == None
  {
    assert 0 in s.places.Keys;
    if s.holder.Some? {
      HeldIsLocked(s);
    }
  }

  /** AddThread(Thread*) without the lock is safe under every schedule exactly when nothing
      else can take a turn: on a machine of one processor, with interrupts off during the
      call.  With a second processor every state in which c is about to call leads to two
      processors in the critical section; with the timer on, to a lost thread. */
  lemma StrayCallIsSafeIff(s: State, c: nat, masked: bool)
    requires Inv(s) && c in s.places && s.places[c].Idle?
    ensures AlwaysSequential(s, c, masked) <==> s.places.Keys == {c} && masked
  {
    hide Inv, AlwaysSequential;
    if s.places.Keys != {c} {
      var d :| d in s.places && d != c;
      SecondProcessorIsUnsafe(s, c, d, masked);
    } else if masked {
      AloneIsSafe(s, c);
    } else {
      SoleIsZero(s, c);
      TimerIsUnsafe(s);
    }
  }
}
