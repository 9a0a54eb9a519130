/** The run queue of src/sched/scheduler.cpp as a value, what each entry point does to it,
    and which register context a dispatch loads. */
module SchedulerModel {
  import opened Machine
  import opened RoundRobin

  /** SavedRegs of src/include/cpu/idt.h */
  datatype Regs = Regs(r15: nat, r14: nat, r13: nat, r12: nat, r11: nat, r10: nat, r9: nat, r8: nat,
                       rbp: nat, rdi: nat, rsi: nat, rdx: nat, rcx: nat, rbx: nat, rax: nat,
                       intNo: nat, errorCode: nat,
                       rip: nat, cs: nat, rflags: nat, rsp: nat, ss: nat)

  /** The context the Thread constructor builds. */
  function InitialContext(entry: nat, isUser: bool): Regs {
    Regs(0, 0, 0, 0, 0, 0, 0, 0, 0, 0, 0, 0, 0, 0, 0, 0, 0,
         entry, if isUser then 0x1B else 0x08, 0x202, 0xffff_a000_0000_0000 + 65536, if isUser then 0x23 else 0x10)
  }

  /** What a new thread starts with: its entry, the selectors of its ring (user code 3 and
      data 4 at privilege 3, kernel code 1 and data 2 at privilege 0), interrupts on, the top
      of its 16 stack pages, and nothing in any other register. */
  ghost predicate StartsAs(c: Regs, entry: nat, isUser: bool) {
    && c.rip == entry && c.cs % 8 == c.ss % 8 == (if isUser then 3 else 0)
    && c.cs / 8 == (if isUser then 3 else 1) && c.ss / 8 == (if isUser then 4 else 2)
    && c.rflags / 0x200 % 2 == 1 && c.rflags % 0x200 == 2 && c.rflags / 0x400 == 0
    && c.rsp == 0xffff_a000_0001_0000
    && c.r15 == c.r14 == c.r13 == c.r12 == c.r11 == c.r10 == c.r9 == c.r8 == c.rbp == c.rdi == c.rsi == c.rdx == 0
    && c.rcx == c.rbx == c.rax == c.intNo == c.errorCode == 0
  }

  lemma InitialContextStarts(entry: nat, isUser: bool)
    ensures StartsAs(InitialContext(entry, isUser), entry, isUser)
  {
  }

  datatype Task = Task(ctxt: Regs, rootTable: nat, pid: int, canRun: bool)

  /** Threads in queue order; current is the position dispatched last. */
  datatype Queue = Queue(tasks: seq<Task>, current: Option<nat>, nextPid: int)

  ghost predicate Sound(q: Queue) {
    && (q.current.Some? ==> q.current.value < |q.tasks|)
    && (forall i | 0 <= i < |q.tasks| :: q.tasks[i].pid < q.nextPid)
    && (forall i, j | 0 <= i < j < |q.tasks| :: q.tasks[i].pid < q.tasks[j].pid)
  }

  function Flags(q: Queue): seq<bool> {
    seq(|q.tasks|, i requires 0 <= i < |q.tasks| => q.tasks[i].canRun)
  }

  function Add(q: Queue, ctxt: Regs, rootTable: nat): Queue {
    q.(tasks := q.tasks + [Task(ctxt, rootTable, q.nextPid, true)], nextPid := q.nextPid + 1)
  }

  /** The interrupted context goes to the current thread, if there is one. */
  function Save(q: Queue, regs: Regs): Queue
    requires q.current.Some? ==> q.current.value < |q.tasks|
  {
    match q.current
    case None => q
    case Some(c) => q.(tasks := q.tasks[c := q.tasks[c].(ctxt := regs)])
  }

  /** A queue whose current is null is searched from its head, which is passed over first. */
  function SearchFrom(q: Queue): nat { q.current.GetOr(0) }

  ghost predicate CanDispatch(q: Queue) {
    q.tasks == [] || (SearchFrom(q) < |q.tasks| && SomeRunnable(Flags(q)))
  }

  function Dispatch(q: Queue): Queue
    requires CanDispatch(q)
  {
    if q.tasks == [] then q else q.(current := Some(Next(Flags(q), SearchFrom(q))))
  }

  // ---------------------------------------------------------------- events

  datatype Event =
    | AddThread(ctxt: Regs, rootTable: nat)
    | Schedule(regs: Regs)
    | DeleteCurThread

  ghost predicate Possible(q: Queue, e: Event) {
    match e
    case AddThread(_, _) => true
    case Schedule(_) => CanDispatch(q)
    case DeleteCurThread => q.current.Some?
  }

  ghost function Step(q: Queue, e: Event): Queue
    requires Sound(q) && Possible(q, e)
  {
    match e
    case AddThread(ctxt, rootTable) => Add(q, ctxt, rootTable)
    case Schedule(regs) => SaveKeepsFlags(q, regs); Dispatch(Save(q, regs))
    case DeleteCurThread =>
      var c := q.current.value;
      q.(tasks := q.tasks[c := q.tasks[c].(canRun := false)])
  }

  lemma SaveKeepsFlags(q: Queue, regs: Regs)
    requires Sound(q)
    ensures Flags(Save(q, regs)) == Flags(q) && Save(q, regs).current == q.current && Sound(Save(q, regs))
    ensures |Save(q, regs).tasks| == |q.tasks|
  {
    assert Flags(Save(q, regs)) == Flags(q);
  }

  lemma StepKeepsSound(q: Queue, e: Event)
    requires Sound(q) && Possible(q, e)
    ensures Sound(Step(q, e)) && |Step(q, e).tasks| >= |q.tasks|
  {
    if e.Schedule? {
      SaveKeepsFlags(q, e.regs);
    }
  }

  lemma NothingToDispatch(q: Queue)
    requires CanDispatch(q)
    ensures q.tasks == [] ==> Dispatch(q) == q
    ensures q.tasks != [] ==> SearchFrom(q) < |q.tasks|
  {
  }

  /** One turn of GetNextThread: the cursor moves one link on, or to the head. */
  function Advance(q: Queue): Queue
    requires SearchFrom(q) < |q.tasks|
  {
    q.(current := Some(RoundRobin.Successor(|q.tasks|, SearchFrom(q))))
  }

  /** Either the new position is the answer, or dispatching from there gives it. */
  lemma DispatchByTurns(q: Queue)
    requires Sound(q) && CanDispatch(q) && q.tasks != []
    ensures var a := Advance(q);
            && Sound(a) && CanDispatch(a)
            && (if a.tasks[a.current.value].canRun then Dispatch(q) == a
                else Dispatch(q) == Dispatch(a)
                     && Turns(Flags(a), SearchFrom(a)) < Turns(Flags(q), SearchFrom(q)))
  {
    var cur := SearchFrom(q);
    NextStep(Flags(q), cur);
    assert Flags(Advance(q)) == Flags(q);
    if !Advance(q).tasks[RoundRobin.Successor(|q.tasks|, cur)].canRun {
      TurnsShrink(Flags(q), cur);
    }
  }

  /** The positions that k calls in a row dispatch while the queue does not change. */
  ghost function Round(q: Queue, k: nat): seq<nat>
    requires Sound(q) && CanDispatch(q) && q.tasks != []
    decreases k
  {
    if k == 0 then []
    else
      var d := Dispatch(q);
      assert Flags(d) == Flags(q);
      [d.current.value] + Round(d, k - 1)
  }

  lemma {:induction false} RoundIsDispatches(q: Queue, k: nat)
    requires Sound(q) && CanDispatch(q) && q.tasks != []
    ensures Round(q, k) == Dispatches(Flags(q), SearchFrom(q), k)
    decreases k
  {
    if k > 0 {
      assert Flags(Dispatch(q)) == Flags(q);
      RoundIsDispatches(Dispatch(q), k - 1);
    }
  }

  /** With r threads that can run, r calls in a row dispatch each of them exactly once, in
      queue order from the current one round to it. */
  lemma EveryRoundIsFair(q: Queue)
    requires Sound(q) && CanDispatch(q) && q.tasks != []
    ensures var ring := Ring(Flags(q), SearchFrom(q), 1); var round := Round(q, |ring|);
            && round == ring
            && (forall c: nat :: c in round <==> c < |q.tasks| && q.tasks[c].canRun)
            && (forall x, y | 0 <= x < y < |round| :: round[x] != round[y])
  {
    var r := |Ring(Flags(q), SearchFrom(q), 1)|;
    RoundIsDispatches(q, r);
    RoundRobinIsFair(Flags(q), SearchFrom(q));
  }

  /** The first dispatch of all passes the head over if the thread behind it can run. */
  lemma HeadIsPassedOver(q: Queue)
    requires Sound(q) && q.current.None? && |q.tasks| >= 2 && q.tasks[1].canRun
    ensures CanDispatch(q) && Dispatch(q).current == Some(1)
  {
    assert Flags(q)[1];
    NextStep(Flags(q), 0);
  }

  const EMPTY: Queue := Queue([], None, 0)

  /** es happened in this order from the empty queue. */
  ghost predicate Trace(es: seq<Event>)
    decreases |es|, 0
  {
    es == [] || (Trace(es[..|es| - 1]) && Possible(After(es[..|es| - 1]), es[|es| - 1]))
  }

  ghost function After(es: seq<Event>): (q: Queue)
    requires Trace(es)
    ensures Sound(q)
    decreases |es|, 1
  {
    if es == [] then EMPTY
    else
      var before := After(es[..|es| - 1]);
      StepKeepsSound(before, es[|es| - 1]);
      Step(before, es[|es| - 1])
  }

  // ---------------------------------------------------------------- contexts

  /** The context thread i was added with. */
  ghost function Constructed(es: seq<Event>, i: nat): Option<Regs>
    requires Trace(es)
    decreases |es|
  {
    if es == [] then None
    else
      var before, e := es[..|es| - 1], es[|es| - 1];
      if e.AddThread? && |After(before).tasks| == i then Some(e.ctxt) else Constructed(before, i)
  }

  /** The registers thread i was interrupted with when it was last preempted, that is, at
      the first Schedule after its last dispatch. */
  ghost function LastPreempted(es: seq<Event>, i: nat): Option<Regs>
    requires Trace(es)
    decreases |es|
  {
    if es == [] then None
    else
      var before, e := es[..|es| - 1], es[|es| - 1];
      if e.Schedule? && After(before).current == Some(i) then Some(e.regs) else LastPreempted(before, i)
  }

  /** In every reachable state each thread's context is the one it was last preempted with,
      or its constructor's if it never was. */
  lemma {:induction false} ContextsSurvive(es: seq<Event>, i: nat)
    requires Trace(es) && i < |After(es).tasks|
    ensures Constructed(es, i).Some?
    ensures After(es).tasks[i].ctxt == LastPreempted(es, i).GetOr(Constructed(es, i).value)
    decreases |es|
  {
    var before, e := es[..|es| - 1], es[|es| - 1];
    var q := After(before);
    if i < |q.tasks| {
      ContextsSurvive(before, i);
    } else {
      NeverPreempted(before, i);
    }
  }

  lemma {:induction false} NeverPreempted(es: seq<Event>, i: nat)
    requires Trace(es) && i >= |After(es).tasks|
    ensures LastPreempted(es, i).None?
    decreases |es|
  {
    if es != [] {
      var before, e := es[..|es| - 1], es[|es| - 1];
      StepKeepsSound(After(before), e);
      NeverPreempted(before, i);
    }
  }

  /** The table root thread i was added with. */
  ghost function AddedRoot(es: seq<Event>, i: nat): Option<nat>
    requires Trace(es)
    decreases |es|
  {
    if es == [] then None
    else
      var before, e := es[..|es| - 1], es[|es| - 1];
      if e.AddThread? && |After(before).tasks| == i then Some(e.rootTable) else AddedRoot(before, i)
  }

  /** Thread i has called DeleteCurThread. */
  ghost predicate DeletedItself(es: seq<Event>, i: nat)
    requires Trace(es)
    decreases |es|
  {
    es != [] && (DeletedItself(es[..|es| - 1], i)
                 || (es[|es| - 1].DeleteCurThread? && After(es[..|es| - 1]).current == Some(i)))
  }

  /** In every reachable state the threads have the pids 0, 1, 2 and so on, each the table
      root it was added with, and all can run but those that deleted themselves. */
  lemma {:induction false} ThreadsStay(es: seq<Event>, i: nat)
    requires Trace(es) && i < |After(es).tasks|
    ensures After(es).nextPid == |After(es).tasks| && After(es).tasks[i].pid == i
    ensures AddedRoot(es, i) == Some(After(es).tasks[i].rootTable)
    ensures After(es).tasks[i].canRun <==> !DeletedItself(es, i)
    decreases |es|
  {
    hide SomeRunnable, Flags;
    var before, e := es[..|es| - 1], es[|es| - 1];
    NextPidCounts(before);
    if i < |After(before).tasks| {
      ThreadsStay(before, i);
    } else {
      NobodyDeletesTheUnborn(before, i);
    }
  }

  lemma {:induction false} NextPidCounts(es: seq<Event>)
    requires Trace(es)
    ensures After(es).nextPid == |After(es).tasks|
    decreases |es|
  {
    if es != [] {
      NextPidCounts(es[..|es| - 1]);
    }
  }

  lemma {:induction false} NobodyDeletesTheUnborn(es: seq<Event>, i: nat)
    requires Trace(es) && i >= |After(es).tasks|
    ensures !DeletedItself(es, i)
    decreases |es|
  {
    if es != [] {
      var before, e := es[..|es| - 1], es[|es| - 1];
      StepKeepsSound(After(before), e);
      NobodyDeletesTheUnborn(before, i);
    }
  }

  /** What a Schedule loads: the context and table root of the thread it dispatches. */
  ghost function Loaded(es: seq<Event>): Option<Task>
    requires Trace(es) && es != [] && es[|es| - 1].Schedule?
  {
    var q := After(es);
    if q.tasks == [] then None else Some(q.tasks[q.current.value])
  }

  /** Over any run, the context a Schedule loads for a thread is the one saved when that
      thread was last preempted, or its constructor's, and the table root is the one the
      thread was added with. */
  lemma EveryLoadIsTheLastSave(es: seq<Event>)
    requires Trace(es) && es != [] && es[|es| - 1].Schedule? && After(es).tasks != []
    ensures After(es).current.Some?
    ensures var i := After(es).current.value;
            && Constructed(es, i).Some?
            && Loaded(es).Some? && Loaded(es).value.ctxt == LastPreempted(es, i).GetOr(Constructed(es, i).value)
            && AddedRoot(es, i) == Some(Loaded(es).value.rootTable)
            && Loaded(es).value.canRun
  {
    var before, e := es[..|es| - 1], es[|es| - 1];
    var q := After(before);
    SaveKeepsFlags(q, e.regs);
    var s := Save(q, e.regs);
    assert After(es).current == Some(Next(Flags(s), SearchFrom(s)));
    ContextsSurvive(es, After(es).current.value);
    ThreadsStay(es, After(es).current.value);
  }

  /** The position dispatched last, the head before any was. */
  ghost function LastDispatched(es: seq<Event>): nat
    requires Trace(es)
    decreases |es|
  {
    if es == [] then 0
    else if es[|es| - 1].Schedule? && After(es).current.Some? then After(es).current.value
    else LastDispatched(es[..|es| - 1])
  }

  lemma {:induction false} SearchedFromTheLast(es: seq<Event>)
    requires Trace(es)
    ensures SearchFrom(After(es)) == LastDispatched(es)
    ensures After(es).tasks != [] ==> LastDispatched(es) < |After(es).tasks|
    decreases |es|
  {
    if es != [] {
      SearchedFromTheLast(es[..|es| - 1]);
      StepKeepsSound(After(es[..|es| - 1]), es[|es| - 1]);
    }
  }

  /** Over any run, a Schedule dispatches the first thread that can run in the queue behind
      the one dispatched before it, whatever was added or deleted in between: nobody that
      stands between the two, round the end of the queue if need be, can run. */
  lemma NextInLine(es: seq<Event>)
    requires Trace(es) && es != [] && es[|es| - 1].Schedule? && After(es).tasks != []
    ensures After(es).current.Some?
    ensures var c, i := LastDispatched(es[..|es| - 1]), After(es).current.value;
            && c < |After(es).tasks| && i < |After(es).tasks| && After(es).tasks[i].canRun
            && forall x | 0 <= x < |After(es).tasks| && (if c < i then c < x < i else x < i || c < x) ::
                 !After(es).tasks[x].canRun
  {
    var before, e := es[..|es| - 1], es[|es| - 1];
    var q := After(before);
    SearchedFromTheLast(before);
    SaveKeepsFlags(q, e.regs);
    var s := Save(q, e.regs);
    NextIsNearest(Flags(s), SearchFrom(s));
    assert forall x | 0 <= x < |s.tasks| :: Flags(s)[x] == s.tasks[x].canRun;
  }

  // ---------------------------------------------------------------- deletion

  lemma DeadStaysDead(q: Queue, e: Event, i: nat)
    requires Sound(q) && Possible(q, e) && i < |q.tasks| && !q.tasks[i].canRun
    ensures i < |Step(q, e).tasks| && !Step(q, e).tasks[i].canRun
    ensures e.Schedule? ==> Step(q, e).current != Some(i)
  {
    if e.Schedule? {
      SaveKeepsFlags(q, e.regs);
      assert !Flags(q)[i];
    }
  }

  /** A thread that deleted itself is never dispatched again. */
  lemma {:induction false} DeletedIsNeverDispatched(es: seq<Event>, n: nat, i: nat)
    requires Trace(es) && n <= |es| && Trace(es[..n])
    requires i < |After(es[..n]).tasks| && !After(es[..n]).tasks[i].canRun
    ensures i < |After(es).tasks| && !After(es).tasks[i].canRun
    ensures n < |es| && es[|es| - 1].Schedule? ==> After(es).current != Some(i)
    decreases |es|
  {
    if n == |es| {
      assert es[..n] == es;
    } else {
      var before := es[..|es| - 1];
      assert before[..n] == es[..n];
      DeletedIsNeverDispatched(before, n, i);
      DeadStaysDead(After(before), es[|es| - 1], i);
    }
  }
}
