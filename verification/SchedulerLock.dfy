/** AddThread(entry, is_user) and the locked part of Schedule on any number of processors,
    as interleaved reads and writes under the spin lock of src/include/cpu/spinlock.h. */
module SchedulerLock {
  import opened Machine
  import opened RoundRobin
  import opened SchedulerModel

  /** A thread object; next is an object number, 0 for null. */
  datatype Rec = Rec(ctxt: Regs, rootTable: nat, pid: int, canRun: bool, next: nat)

  /** struct TaskQueue of one processor */
  datatype TaskQueue = TaskQueue(head: nat, tail: nat, current: nat, count: int)

  datatype Op = Adding(ctxt: Regs, rootTable: nat) | Scheduling(regs: Regs)

  /** Where a processor stands.  Everything after Enter and up to Leaving is inside the
      critical section. */
  datatype Place =
    | Idle | Spin(op: Op) | Enter(op: Op)
    | Made(op: Op, t: nat) | PidRead(op: Op, t: nat, p: int) | PidBumped(op: Op, t: nat, p: int) | Named(op: Op, t: nat)
    | HeadSet(op: Op, t: nat) | LinkSet(op: Op, t: nat) | TailSet(op: Op, t: nat)
    | Saved(op: Op) | NonEmpty(op: Op) | AtCurrent(op: Op) | Moved(op: Op)
    | Leaving(op: Op, t: nat)

  /** holder, order and log are history: who holds the lock, the objects on processor 0's
      queue, and the operations completed on it, in the order of their unlocks. */
  datatype State = State(lock: int, objects: map<nat, Rec>, queues: map<nat, TaskQueue>, curPid: int,
                         places: map<nat, Place>, holder: Option<nat>, order: seq<nat>, log: seq<Event>)

  predicate InCritical(p: Place) { !p.Idle? && !p.Spin? }

  /** What a processor does next: Begin an operation, try the compare-and-swap (which may
      fail for no reason), allocate a thread object at address t, do the next read or
      write, or delete its current thread. */
  datatype Choice = Begin(op: Op) | Swap(spurious: bool) | Allocate(t: nat) | Go | Delete

  // ---------------------------------------------------------------- transitions

  ghost predicate Enabled(s: State, c: nat, ch: Choice) {
    && c in s.places && c in s.queues && 0 in s.queues
    && match s.places[c]
       case Idle => ch.Begin? || (ch.Delete? && s.queues[c].current in s.objects)
       case Spin(_) => ch.Swap?
       case Enter(op) =>
         if op.Adding? then ch.Allocate? && ch.t != 0 && ch.t !in s.objects
         else ch.Go? && (s.queues[c].current != 0 ==> s.queues[c].current in s.objects)
       case Made(_, _) => ch.Go?
       case PidRead(_, _, _) => ch.Go?
       case PidBumped(_, t, _) => ch.Go? && t in s.objects
       case Named(_, _) => ch.Go?
       case HeadSet(_, _) => ch.Go? && (s.queues[0].tail != 0 ==> s.queues[0].tail in s.objects)
       case LinkSet(_, _) => ch.Go?
       case TailSet(_, _) => ch.Go?
       case Saved(_) => ch.Go?
       case NonEmpty(_) => ch.Go?
       case AtCurrent(_) => ch.Go? && s.queues[c].current in s.objects
       case Moved(_) => ch.Go? && s.queues[c].current in s.objects
       case Leaving(_, _) => ch.Go?
  }

  function AtPlace(s: State, c: nat, p: Place): State {
    s.(places := s.places[c := p])
  }

  function WithQueue(s: State, c: nat, q: TaskQueue): State {
    s.(queues := s.queues[c := q])
  }

  function WithRec(s: State, t: nat, r: Rec): State {
    s.(objects := s.objects[t := r])
  }

  /** The event an operation leaves in the log when it completes; only processor 0's queue
      ever holds threads. */
  function Completed(c: nat, op: Op): seq<Event> {
    match op
    case Adding(ctxt, rootTable) => [Event.AddThread(ctxt, rootTable)]
    case Scheduling(regs) => if c == 0 then [Event.Schedule(regs)] else []
  }

  ghost function Apply(s: State, c: nat, ch: Choice): State
    requires Enabled(s, c, ch)
  {
    var q, q0 := s.queues[c], s.queues[0];
    match s.places[c]
    case Idle =>
      if ch.Begin? then AtPlace(s, c, Spin(ch.op))
      else
        var d := WithRec(s, q.current, s.objects[q.current].(canRun := false));
        if c == 0 then d.(log := s.log + [Event.DeleteCurThread]) else d
    case Spin(op) =>
      if s.lock == 0 && !ch.spurious then AtPlace(s, c, Enter(op)).(lock := 1, holder := Some(c)) else s
    case Enter(op) =>
      (match op
       case Adding(ctxt, rootTable) => AtPlace(WithRec(s, ch.t, Rec(ctxt, rootTable, 0, true, 0)), c, Made(op, ch.t))
       case Scheduling(regs) =>
         var saved := if q.current != 0 then WithRec(s, q.current, s.objects[q.current].(ctxt := regs)) else s;
         AtPlace(saved, c, Saved(op)))
    case Made(op, t) => AtPlace(s, c, PidRead(op, t, s.curPid))
    case PidRead(op, t, p) => AtPlace(s, c, PidBumped(op, t, p)).(curPid := p + 1)
    case PidBumped(op, t, p) => AtPlace(WithRec(s, t, s.objects[t].(pid := p)), c, Named(op, t))
    case Named(op, t) => AtPlace(if q0.head == 0 then WithQueue(s, 0, q0.(head := t)) else s, c, HeadSet(op, t))
    case HeadSet(op, t) =>
      AtPlace(if q0.tail != 0 then WithRec(s, q0.tail, s.objects[q0.tail].(next := t)) else s, c, LinkSet(op, t))
    case LinkSet(op, t) => AtPlace(WithQueue(s, 0, q0.(tail := t)), c, TailSet(op, t))
    case TailSet(op, t) => AtPlace(WithQueue(s, 0, q0.(count := q0.count + 1)), c, Leaving(op, t))
    case Saved(op) => AtPlace(s, c, if q.count == 0 then Leaving(op, 0) else NonEmpty(op))
    case NonEmpty(op) => AtPlace(if q.current == 0 then WithQueue(s, c, q.(current := q.head)) else s, c, AtCurrent(op))
    case AtCurrent(op) =>
      var next := s.objects[q.current].next;
      AtPlace(WithQueue(s, c, q.(current := if next != 0 then next else q.head)), c, Moved(op))
    case Moved(op) => AtPlace(s, c, if s.objects[q.current].canRun then Leaving(op, 0) else Saved(op))
    case Leaving(op, t) =>
      AtPlace(s, c, Idle).(lock := 0, holder := None, log := s.log + Completed(c, op),
                           order := if op.Adding? then s.order + [t] else s.order)
  }

  // ---------------------------------------------------------------- the queue in memory

  function Nth(order: seq<nat>, i: int): nat {
    if 0 <= i < |order| then order[i] else 0
  }

  function Link(order: seq<nat>, i: nat, end: nat): nat {
    if i < |order| then order[i] else end
  }

  function AsRec(t: Task, next: nat): Rec {
    Rec(t.ctxt, t.rootTable, t.pid, t.canRun, next)
  }

  /** The objects of order are the tasks of q, chained by next; the last one's next is end. */
  ghost predicate Chained(objects: map<nat, Rec>, order: seq<nat>, tasks: seq<Task>, end: nat) {
    && |order| == |tasks| && 0 !in order
    && (forall i, j | 0 <= i < j < |order| :: order[i] != order[j])
    && (forall i {:trigger order[i] in objects} {:trigger objects[order[i]]} | 0 <= i < |order| ::
          order[i] in objects && objects[order[i]] == AsRec(tasks[i], Link(order, i + 1, end)))
  }

  lemma ChainedElsewhere(objects: map<nat, Rec>, order: seq<nat>, tasks: seq<Task>, end: nat, t: nat, r: Rec)
    requires Chained(objects, order, tasks, end) && t !in order
    ensures Chained(objects[t := r], order, tasks, end)
  {
  }

  lemma ChainedRelink(objects: map<nat, Rec>, order: seq<nat>, tasks: seq<Task>, t: nat)
    requires Chained(objects, order, tasks, 0) && order != []
    ensures var l := order[|order| - 1];
            l in objects && Chained(objects[l := objects[l].(next := t)], order, tasks, t)
  {
  }

  lemma ChainedExtend(objects: map<nat, Rec>, order: seq<nat>, tasks: seq<Task>, t: nat, k: Task)
    requires Chained(objects, order, tasks, t) && t != 0 && t !in order && t in objects && objects[t] == AsRec(k, 0)
    ensures Chained(objects, order + [t], tasks + [k], 0)
  {
  }

  lemma ChainedUpdate(objects: map<nat, Rec>, order: seq<nat>, tasks: seq<Task>, end: nat, i: nat, k: Task)
    requires Chained(objects, order, tasks, end) && i < |order|
    ensures order[i] in objects
    ensures Chained(objects[order[i] := AsRec(k, objects[order[i]].next)], order, tasks[i := k], end)
  {
  }

  /** current names the task the queue is at. */
  ghost predicate Points(order: seq<nat>, q: Queue, current: nat) {
    match q.current
    case None => current == 0
    case Some(c) => c < |order| && current == order[c]
  }

  const NO_QUEUE: TaskQueue := TaskQueue(0, 0, 0, 0)

  /** Processor 0's queue in memory is q, complete. */
  ghost predicate InMemory(objects: map<nat, Rec>, t: TaskQueue, curPid: int, order: seq<nat>, q: Queue) {
    && Chained(objects, order, q.tasks, 0) && Points(order, q, t.current)
    && t.head == Nth(order, 0) && t.tail == Nth(order, |order| - 1) && t.count == |order| && curPid == q.nextPid
  }

  /** Places of an AddThread that has its object. */
  predicate IsAdding(p: Place) {
    p.Made? || p.PidRead? || p.PidBumped? || p.Named? || p.HeadSet? || p.LinkSet? || p.TailSet? || p.Leaving?
  }

  /** Places of a Schedule that has saved its context. */
  predicate IsScheduling(p: Place) {
    p.Saved? || p.NonEmpty? || p.AtCurrent? || p.Moved? || p.Leaving?
  }

  /** Half way through an AddThread of t: what has been written so far. */
  ghost predicate HalfAdded(s: State, q: Queue, p: Place)
    requires 0 in s.queues && IsAdding(p)
  {
    var t0 := s.queues[0];
    var linked := p.LinkSet? || p.TailSet? || p.Leaving?;
    && p.op.Adding? && p.t != 0 && p.t !in s.order && p.t in s.objects
    && (var r := s.objects[p.t];
        && r.ctxt == p.op.ctxt && r.rootTable == p.op.rootTable && r.canRun && r.next == 0
        && (p.Named? || p.HeadSet? || linked ==> r.pid == q.nextPid))
    && Chained(s.objects, s.order, q.tasks, if linked then p.t else 0)
    && Points(s.order, q, t0.current)
    && t0.head == (if p.HeadSet? || linked then Nth(s.order + [p.t], 0) else Nth(s.order, 0))
    && t0.tail == (if p.TailSet? || p.Leaving? then p.t else Nth(s.order, |s.order| - 1))
    && t0.count == (if p.Leaving? then |s.order| + 1 else |s.order|)
    && s.curPid == (if p.Made? || p.PidRead? then q.nextPid else q.nextPid + 1)
    && (p.PidRead? || p.PidBumped? ==> p.p == q.nextPid)
  }

  /** Half way through a Schedule on processor 0: the context is saved and the search has
      come to the queue state a, from which it finds what it would have found from q. */
  ghost predicate HalfScheduled(s: State, q: Queue, p: Place)
    requires 0 in s.queues && Sound(q) && IsScheduling(p)
  {
    var t0 := s.queues[0];
    && p.op.Scheduling?
    && t0.head == Nth(s.order, 0) && t0.tail == Nth(s.order, |s.order| - 1) && t0.count == |s.order|
    && s.curPid == q.nextPid
    && exists a: Queue :: Searching(s, Save(q, p.op.regs), a, p)
  }

  ghost predicate Searching(s: State, q1: Queue, a: Queue, p: Place)
    requires 0 in s.queues
  {
    var current := s.queues[0].current;
    && a == q1.(current := a.current) && Sound(a) && Sound(q1)
    && Chained(s.objects, s.order, a.tasks, 0)
    && (p.NonEmpty? || p.AtCurrent? || p.Moved? ==> s.order != [])
    && (if p.AtCurrent? then SearchFrom(a) < |s.order| && current == s.order[SearchFrom(a)]
        else Points(s.order, a, current))
    && (p.Moved? ==> a.current.Some?)
    && (CanDispatch(q1) ==>
          if p.Leaving? || (p.Moved? && a.tasks[a.current.value].canRun) then Dispatch(q1) == a
          else CanDispatch(a) && Dispatch(a) == Dispatch(q1))
    && (p.Leaving? ==> CanDispatch(q1))
  }

  // ---------------------------------------------------------------- the invariant

  /** At most one processor is in the critical section, and the lock says whether one is. */
  ghost predicate Exclusive(s: State) {
    && s.lock == (if s.holder.None? then 0 else 1)
    && (s.holder.Some? ==> s.holder.value in s.places)
    && forall c | c in s.places :: InCritical(s.places[c]) <==> s.holder == Some(c)
  }

  /** The shared data while c holds the lock and stands at p. */
  ghost predicate HeldBy(s: State, q: Queue, c: nat, p: Place)
    requires 0 in s.queues && Sound(q)
  {
    match p
    case Idle => false
    case Spin(_) => false
    case Enter(_) => InMemory(s.objects, s.queues[0], s.curPid, s.order, q)
    case Made(_, _) => HalfAdded(s, q, p)
    case PidRead(_, _, _) => HalfAdded(s, q, p)
    case PidBumped(_, _, _) => HalfAdded(s, q, p)
    case Named(_, _) => HalfAdded(s, q, p)
    case HeadSet(_, _) => HalfAdded(s, q, p)
    case LinkSet(_, _) => HalfAdded(s, q, p)
    case TailSet(_, _) => HalfAdded(s, q, p)
    case Leaving(op, _) =>
      if op.Adding? then HalfAdded(s, q, p)
      else if c == 0 then HalfScheduled(s, q, p)
      else InMemory(s.objects, s.queues[0], s.curPid, s.order, q)
    case Saved(op) =>
      if c == 0 then HalfScheduled(s, q, p)
      else op.Scheduling? && InMemory(s.objects, s.queues[0], s.curPid, s.order, q)
    case NonEmpty(_) => c == 0 && HalfScheduled(s, q, p)
    case AtCurrent(_) => c == 0 && HalfScheduled(s, q, p)
    case Moved(_) => c == 0 && HalfScheduled(s, q, p)
  }

  /** The log is a possible run of the queue; when the lock is free, memory holds exactly
      the queue that run leads to, and otherwise that queue with the holder's work half done. */
  ghost predicate Consistent(s: State)
    requires 0 in s.queues
  {
    && Trace(s.log)
    && if s.holder.None? then InMemory(s.objects, s.queues[0], s.curPid, s.order, After(s.log))
       else s.holder.value in s.places && HeldBy(s, After(s.log), s.holder.value, s.places[s.holder.value])
  }

  ghost predicate Inv(s: State) {
    && 0 in s.places && s.places.Keys == s.queues.Keys && 0 !in s.objects
    && (forall c | c in s.queues && c != 0 :: s.queues[c] == NO_QUEUE)
    && Exclusive(s) && Consistent(s)
  }

  // ---------------------------------------------------------------- the lock

  lemma StepKeepsExclusive(s: State, c: nat, ch: Choice)
    requires Enabled(s, c, ch) && Exclusive(s)
    ensures Exclusive(Apply(s, c, ch))
  {
  }

  // ---------------------------------------------------------------- adding

  lemma AppendEvent(log: seq<Event>, e: Event)
    requires Trace(log) && Possible(After(log), e)
    ensures Trace(log + [e]) && After(log + [e]) == Step(After(log), e)
  {
    assert (log + [e])[..|log + [e]| - 1] == log;
  }

  lemma MadeIsHalfAdded(s: State, q: Queue, c: nat, t: nat)
    requires 0 in s.queues && c in s.places && c in s.queues && t != 0 && t !in s.objects
    requires s.places[c].Enter? && s.places[c].op.Adding?
    requires InMemory(s.objects, s.queues[0], s.curPid, s.order, q)
    ensures Enabled(s, c, Allocate(t))
    ensures var s' := Apply(s, c, Allocate(t)); HalfAdded(s', q, s'.places[c])
  {
    var op := s.places[c].op;
    assert t !in s.order by { assert forall i | 0 <= i < |s.order| :: s.order[i] in s.objects; }
    ChainedElsewhere(s.objects, s.order, q.tasks, 0, t, Rec(op.ctxt, op.rootTable, 0, true, 0));
  }

  predicate IsAddStep(p: Place) { IsAdding(p) && !p.Leaving? }

  /** Each write of AddThread finds what it writes to and takes the half-added queue one step
      further. */
  lemma AddStep(s: State, q: Queue, c: nat)
    requires 0 in s.queues && c in s.places && c in s.queues && IsAddStep(s.places[c])
    requires HalfAdded(s, q, s.places[c])
    ensures Enabled(s, c, Go)
    ensures var s' := Apply(s, c, Go); 0 in s'.queues && IsAdding(s'.places[c]) && HalfAdded(s', q, s'.places[c])
  {
    hide Chained, Points;
    TailIsThere(s, q, s.places[c]);
    var p := s.places[c];
    if p.PidBumped? {
      ChainedElsewhere(s.objects, s.order, q.tasks, 0, p.t, s.objects[p.t].(pid := p.p));
    } else if p.Named? {
      HeadIsNull(s.objects, s.order, q.tasks);
    } else if p.HeadSet? {
      LinkStep(s.objects, s.order, q.tasks, p.t);
    }
  }

  lemma HeadIsNull(objects: map<nat, Rec>, order: seq<nat>, tasks: seq<Task>)
    requires Chained(objects, order, tasks, 0)
    ensures Nth(order, 0) == 0 <==> order == []
  {
  }

  lemma LinkStep(objects: map<nat, Rec>, order: seq<nat>, tasks: seq<Task>, t: nat)
    requires Chained(objects, order, tasks, 0)
    ensures order == [] ==> Chained(objects, order, tasks, t) && Nth(order, |order| - 1) == 0
    ensures order != [] ==> var l := Nth(order, |order| - 1);
              l != 0 && l in order && l in objects && Chained(objects[l := objects[l].(next := t)], order, tasks, t)
  {
    if order != [] {
      ChainedRelink(objects, order, tasks, t);
    }
  }

  lemma AddCompletes(s: State, q: Queue, c: nat)
    requires 0 in s.queues && c in s.places && c in s.queues && s.places[c].Leaving? && s.places[c].op.Adding?
    requires HalfAdded(s, q, s.places[c])
    ensures Enabled(s, c, Go)
    ensures var s' := Apply(s, c, Go); var op := s.places[c].op;
            0 in s'.queues && InMemory(s'.objects, s'.queues[0], s'.curPid, s'.order, Add(q, op.ctxt, op.rootTable))
  {
    hide Chained;
    var p := s.places[c];
    ChainedExtend(s.objects, s.order, q.tasks, p.t, Task(p.op.ctxt, p.op.rootTable, q.nextPid, true));
    PointsLonger(s.order, q, Add(q, p.op.ctxt, p.op.rootTable), s.queues[0].current, p.t);
  }

  lemma PointsLonger(order: seq<nat>, q: Queue, q': Queue, current: nat, t: nat)
    requires Points(order, q, current) && q'.current == q.current
    ensures Points(order + [t], q', current)
  {
  }

  // ---------------------------------------------------------------- scheduling

  lemma SchedulingStarts(s: State, q: Queue)
    requires 0 in s.queues && 0 in s.places && Sound(q) && 0 !in s.objects
    requires s.places[0].Enter? && s.places[0].op.Scheduling?
    requires InMemory(s.objects, s.queues[0], s.curPid, s.order, q)
    ensures Enabled(s, 0, Go)
    ensures var s' := Apply(s, 0, Go); IsScheduling(s'.places[0]) && HalfScheduled(s', q, s'.places[0])
  {
    var regs := s.places[0].op.regs;
    var q1 := Save(q, regs);
    SaveKeepsFlags(q, regs);
    if q.current.Some? {
      var i := q.current.value;
      ChainedUpdate(s.objects, s.order, q.tasks, 0, i, q.tasks[i].(ctxt := regs));
      assert s.order[i] in s.order;
    }
    assert Enabled(s, 0, Go);
    var s' := Apply(s, 0, Go);
    assert Searching(s', q1, q1, s'.places[0]);
  }

  predicate IsSearchStep(p: Place) { p.Saved? || p.NonEmpty? || p.AtCurrent? || p.Moved? }

  /** What one read or write of GetNextThread does to the queue state a it has come to. */
  ghost function Searched(a: Queue, p: Place): Queue {
    if p.AtCurrent? && SearchFrom(a) < |a.tasks| then Advance(a) else a
  }

  lemma SearchStep(s: State, q1: Queue, a: Queue)
    requires 0 in s.queues && 0 in s.places && IsSearchStep(s.places[0])
    requires Searching(s, q1, a, s.places[0])
    requires s.queues[0].head == Nth(s.order, 0) && s.queues[0].count == |s.order|
    ensures Enabled(s, 0, Go)
    ensures var s' := Apply(s, 0, Go); 0 in s'.queues && Searching(s', q1, Searched(a, s.places[0]), s'.places[0])
  {
    var p := s.places[0];
    match p
    case Saved(_) =>
    case NonEmpty(_) =>
    case AtCurrent(_) => TurnStep(s, q1, a);
    case Moved(_) => AnswerStep(s, q1, a);
  }

  lemma LinkOf(objects: map<nat, Rec>, order: seq<nat>, tasks: seq<Task>, i: nat)
    requires Chained(objects, order, tasks, 0) && i < |order|
    ensures order[i] in objects && objects[order[i]].next == Link(order, i + 1, 0) && |tasks| == |order|
    ensures order[i] != 0 && (i + 1 < |order| ==> order[i + 1] != 0)
  {
  }

  lemma OneTurn(q1: Queue, a: Queue)
    requires Sound(a) && SearchFrom(a) < |a.tasks|
    requires CanDispatch(q1) ==> CanDispatch(a) && Dispatch(a) == Dispatch(q1)
    ensures Sound(Advance(a)) && Advance(a).current.Some?
    ensures var n := Advance(a);
            CanDispatch(q1) ==>
              if n.tasks[n.current.value].canRun then Dispatch(q1) == n
              else CanDispatch(n) && Dispatch(n) == Dispatch(q1)
  {
    hide Dispatch, Flags;
    if CanDispatch(q1) {
      DispatchByTurns(a);
    }
  }

  /** current = current->next, or the head. */
  lemma TurnPoints(s: State, a: Queue)
    requires 0 in s.queues && 0 in s.places && s.places[0].AtCurrent? && s.queues[0].head == Nth(s.order, 0)
    requires Chained(s.objects, s.order, a.tasks, 0)
    requires SearchFrom(a) < |a.tasks| && s.queues[0].current == s.order[SearchFrom(a)]
    ensures Enabled(s, 0, Go)
    ensures Points(s.order, Advance(a), Apply(s, 0, Go).queues[0].current)
  {
    LinkOf(s.objects, s.order, a.tasks, SearchFrom(a));
    hide Chained;
  }

  lemma TurnStep(s: State, q1: Queue, a: Queue)
    requires 0 in s.queues && 0 in s.places && s.places[0].AtCurrent? && s.queues[0].head == Nth(s.order, 0)
    requires Searching(s, q1, a, s.places[0])
    ensures SearchFrom(a) < |a.tasks| && Enabled(s, 0, Go)
    ensures var s' := Apply(s, 0, Go); Searching(s', q1, Advance(a), s'.places[0])
  {
    hide Chained, Sound, Dispatch, CanDispatch, Points;
    ChainedLength(s.objects, s.order, a.tasks);
    TurnPoints(s, a);
    OneTurn(q1, a);
  }

  lemma ChainedLength(objects: map<nat, Rec>, order: seq<nat>, tasks: seq<Task>)
    requires Chained(objects, order, tasks, 0)
    ensures |order| == |tasks|
  {
  }

  lemma AnswerStep(s: State, q1: Queue, a: Queue)
    requires 0 in s.queues && 0 in s.places && s.places[0].Moved?
    requires Searching(s, q1, a, s.places[0])
    ensures Enabled(s, 0, Go)
    ensures var s' := Apply(s, 0, Go); Searching(s', q1, a, s'.places[0])
  {
    var c := a.current.value;
    assert s.objects[s.order[c]].canRun == a.tasks[c].canRun;
    if a.tasks[c].canRun {
      assert Flags(q1)[c];
    }
  }

  /** The search writes nothing but current. */
  lemma SearchFrame(s: State)
    requires 0 in s.queues && 0 in s.places && IsSearchStep(s.places[0]) && Enabled(s, 0, Go)
    ensures var s' := Apply(s, 0, Go);
            && 0 in s'.queues && 0 in s'.places && IsScheduling(s'.places[0]) && s'.places[0].op == s.places[0].op
            && s'.queues[0] == s.queues[0].(current := s'.queues[0].current)
            && s'.order == s.order && s'.curPid == s.curPid && s'.objects == s.objects
            && s'.holder == s.holder && s'.log == s.log && s'.queues.Keys == s.queues.Keys
            && s'.places.Keys == s.places.Keys
            && (forall d | d in s.queues && d != 0 :: s'.queues[d] == s.queues[d])
  {
  }

  lemma HalfScheduledStep(s: State, q: Queue)
    requires 0 in s.queues && 0 in s.places && Sound(q) && IsSearchStep(s.places[0])
    requires HalfScheduled(s, q, s.places[0])
    ensures Enabled(s, 0, Go)
    ensures var s' := Apply(s, 0, Go);
            && 0 in s'.queues && 0 in s'.places && IsScheduling(s'.places[0]) && s'.places[0].op.Scheduling?
            && HalfScheduled(s', q, s'.places[0])
  {
    hide Searching, Apply, Enabled, Searched;
    var p := s.places[0];
    var q1 := Save(q, p.op.regs);
    var a: Queue :| Searching(s, q1, a, p);
    SearchStep(s, q1, a);
    SearchFrame(s);
    var s' := Apply(s, 0, Go);
    assert Searching(s', q1, Searched(a, p), s'.places[0]);
  }

  lemma ScheduleCompletes(s: State, q: Queue)
    requires 0 in s.queues && 0 in s.places && Sound(q) && s.places[0].Leaving? && s.places[0].op.Scheduling?
    requires HalfScheduled(s, q, s.places[0])
    ensures Possible(q, Event.Schedule(s.places[0].op.regs))
    ensures InMemory(s.objects, s.queues[0], s.curPid, s.order, Step(q, Event.Schedule(s.places[0].op.regs)))
  {
    var regs := s.places[0].op.regs;
    SaveKeepsFlags(q, regs);
    var a: Queue :| Searching(s, Save(q, regs), a, s.places[0]);
  }

  // ---------------------------------------------------------------- deleting

  function Deleted(q: Queue): Queue
    requires q.current.Some? && q.current.value < |q.tasks|
  {
    q.(tasks := q.tasks[q.current.value := q.tasks[q.current.value].(canRun := false)])
  }

  /** The running thread marks itself, whatever another processor has half added. */
  lemma DeleteInChain(objects: map<nat, Rec>, order: seq<nat>, q: Queue, end: nat, current: nat)
    requires Chained(objects, order, q.tasks, end) && Points(order, q, current) && current in objects && 0 !in objects
    ensures q.current.Some? && q.current.value < |q.tasks| && current in order
    ensures Chained(objects[current := objects[current].(canRun := false)], order, Deleted(q).tasks, end)
  {
    var i := q.current.value;
    ChainedUpdate(objects, order, q.tasks, end, i, q.tasks[i].(canRun := false));
  }

  lemma DeleteKeepsMemory(s: State, q: Queue)
    requires 0 in s.places && s.places[0].Idle? && Enabled(s, 0, Delete) && 0 !in s.objects
    requires InMemory(s.objects, s.queues[0], s.curPid, s.order, q)
    ensures q.current.Some? && q.current.value < |q.tasks|
    ensures var s' := Apply(s, 0, Delete); InMemory(s'.objects, s'.queues[0], s'.curPid, s'.order, Deleted(q))
  {
    hide Chained;
    DeleteInChain(s.objects, s.order, q, 0, s.queues[0].current);
  }

  lemma DeleteKeepsHalfAdded(s: State, q: Queue, p: Place)
    requires 0 in s.places && s.places[0].Idle? && Enabled(s, 0, Delete) && 0 !in s.objects
    requires IsAdding(p) && HalfAdded(s, q, p)
    ensures q.current.Some? && q.current.value < |q.tasks|
    ensures HalfAdded(Apply(s, 0, Delete), Deleted(q), p)
  {
    hide Chained;
    var end := if p.LinkSet? || p.TailSet? || p.Leaving? then p.t else 0;
    DeleteInChain(s.objects, s.order, q, end, s.queues[0].current);
  }

  // ---------------------------------------------------------------- every step

  /** A step outside the critical section that touches no shared data. */
  lemma OutsideStep(s: State, c: nat, ch: Choice)
    requires Inv(s) && Enabled(s, c, ch) && (ch.Begin? || (ch.Swap? && Apply(s, c, ch) == s))
    ensures Inv(Apply(s, c, ch))
  {
    StepKeepsExclusive(s, c, ch);
    var s' := Apply(s, c, ch);
    if s.holder.Some? {
      HeldByPlaces(s, s', After(s.log), s.holder.value, s.places[s.holder.value]);
    }
  }

  /** What the holder has done depends only on the shared data. */
  lemma HeldByPlaces(s: State, s': State, q: Queue, c: nat, p: Place)
    requires 0 in s.queues && Sound(q) && HeldBy(s, q, c, p)
    requires s'.queues == s.queues && s'.objects == s.objects && s'.curPid == s.curPid && s'.order == s.order
    ensures HeldBy(s', q, c, p)
  {
    if IsScheduling(p) && c == 0 && p.op.Scheduling? {
      var a: Queue :| Searching(s, Save(q, p.op.regs), a, p);
      assert Searching(s', Save(q, p.op.regs), a, p);
    }
  }

  lemma AcquireStep(s: State, c: nat)
    requires Inv(s) && Enabled(s, c, Swap(false)) && s.lock == 0
    ensures Inv(Apply(s, c, Swap(false)))
  {
    StepKeepsExclusive(s, c, Swap(false));
  }

  lemma OthersAreNotCritical(s: State, c: nat)
    requires Exclusive(s) && c in s.places && InCritical(s.places[c])
    ensures s.holder == Some(c) && s.lock == 1
  {
  }

  lemma DeleteStep(s: State, c: nat)
    requires Inv(s) && Enabled(s, c, Delete)
    ensures Inv(Apply(s, c, Delete))
  {
    StepKeepsExclusive(s, c, Delete);
    hide Exclusive, InMemory, HalfAdded, HalfScheduled, Trace, After;
    assert c == 0;
    var q := After(s.log);
    if s.holder.None? {
      DeleteKeepsMemory(s, q);
    } else {
      var p := s.places[s.holder.value];
      assert s.holder != Some(0) by { IdleIsNotHolder(s, 0); }
      if IsAdding(p) && p.op.Adding? {
        DeleteKeepsHalfAdded(s, q, p);
      } else {
        DeleteKeepsMemory(s, q);
      }
    }
    AppendEvent(s.log, Event.DeleteCurThread);
  }

  lemma IdleIsNotHolder(s: State, c: nat)
    requires Exclusive(s) && c in s.places && !InCritical(s.places[c])
    ensures s.holder != Some(c)
  {
  }

  lemma EnterStep(s: State, c: nat, ch: Choice)
    requires Inv(s) && Enabled(s, c, ch) && s.places[c].Enter?
    ensures Inv(Apply(s, c, ch))
  {
    hide Inv, Apply;
    if s.places[c].op.Adding? {
      EnterAdd(s, c, ch);
    } else {
      EnterSchedule(s, c);
    }
  }

  lemma EnterAdd(s: State, c: nat, ch: Choice)
    requires Inv(s) && Enabled(s, c, ch) && s.places[c].Enter? && s.places[c].op.Adding?
    ensures Inv(Apply(s, c, ch))
  {
    StepKeepsExclusive(s, c, ch);
    OthersAreNotCritical(s, c);
    hide Exclusive, InMemory, HalfAdded, HalfScheduled, Trace, After;
    MadeIsHalfAdded(s, After(s.log), c, ch.t);
  }

  lemma EnterSchedule(s: State, c: nat)
    requires Inv(s) && Enabled(s, c, Go) && s.places[c].Enter? && s.places[c].op.Scheduling?
    ensures Inv(Apply(s, c, Go))
  {
    StepKeepsExclusive(s, c, Go);
    OthersAreNotCritical(s, c);
    hide Exclusive, InMemory, HalfAdded, HalfScheduled, Trace, After;
    if c == 0 {
      SchedulingStarts(s, After(s.log));
    }
  }

  lemma InsideAdd(s: State, c: nat)
    requires Inv(s) && Enabled(s, c, Go) && IsAddStep(s.places[c])
    ensures Inv(Apply(s, c, Go))
  {
    StepKeepsExclusive(s, c, Go);
    AddingFacts(s, c);
    hide Inv, Exclusive, HalfAdded, Trace, After, Apply, Enabled;
    AddFrame(s, c);
    AddStep(s, After(s.log), c);
    AddingInv(s, Apply(s, c, Go), c);
  }

  lemma AddingFacts(s: State, c: nat)
    requires Inv(s) && c in s.places && IsAddStep(s.places[c])
    ensures Exclusive(s) && Trace(s.log) && 0 in s.queues && 0 in s.places && 0 !in s.objects && s.holder == Some(c)
    ensures HalfAdded(s, After(s.log), s.places[c]) && s.places[c].op.Adding? && s.places[c].t != 0
  {
    OthersAreNotCritical(s, c);
    hide Exclusive, InMemory, HalfScheduled, Trace, After, Chained, Points;
  }

  /** AddThread writes to no queue but processor 0's. */
  lemma AddFrame(s: State, c: nat)
    requires 0 in s.queues && 0 in s.places && c in s.places && IsAddStep(s.places[c]) && Enabled(s, c, Go)
    ensures var s' := Apply(s, c, Go);
            && 0 in s'.queues && 0 in s'.places && c in s'.places && s'.places[c].op == s.places[c].op
            && IsAdding(s'.places[c])
            && s'.holder == s.holder && s'.log == s.log && s'.queues.Keys == s.queues.Keys
            && s'.places.Keys == s.places.Keys
            && (forall d | d in s.queues && d != 0 :: s'.queues[d] == s.queues[d])
            && (0 !in s.objects && s.places[c].t != 0 ==> 0 !in s'.objects)
  {
  }

  lemma AddingInv(s: State, s': State, c: nat)
    requires Inv(s) && s.holder == Some(c)
    requires 0 in s'.queues && 0 in s'.places && c in s'.places && s'.holder == s.holder && s'.log == s.log
               && 0 !in s'.objects
    requires s'.queues.Keys == s.queues.Keys && forall d | d in s.queues && d != 0 :: s'.queues[d] == s.queues[d]
    requires s'.places.Keys == s.places.Keys
    requires Exclusive(s') && Trace(s.log) && IsAdding(s'.places[c]) && s'.places[c].op.Adding?
    requires HalfAdded(s', After(s'.log), s'.places[c])
    ensures Inv(s')
  {
    hide HalfScheduled, HalfAdded, InMemory, Trace, After, Exclusive;
  }

  lemma SearchingFacts(s: State)
    requires Inv(s) && IsSearchStep(s.places[0])
    ensures s.holder == Some(0) && Trace(s.log) && HalfScheduled(s, After(s.log), s.places[0])
  {
    hide HalfScheduled, HalfAdded, InMemory, Trace, After;
  }

  lemma SearchingInv(s: State, s': State)
    requires Inv(s) && s.holder == Some(0)
    requires 0 in s'.queues && 0 in s'.places && s'.holder == s.holder && s'.log == s.log && s'.objects == s.objects
    requires s'.queues.Keys == s.queues.Keys && forall d | d in s.queues && d != 0 :: s'.queues[d] == s.queues[d]
    requires s'.places.Keys == s.places.Keys
    requires Exclusive(s') && Trace(s.log) && IsScheduling(s'.places[0]) && s'.places[0].op.Scheduling?
    requires HalfScheduled(s', After(s'.log), s'.places[0])
    ensures Inv(s')
  {
    hide HalfScheduled, HalfAdded, InMemory, Trace, After, Exclusive;
  }

  lemma InsideSchedule(s: State)
    requires Inv(s) && Enabled(s, 0, Go) && IsSearchStep(s.places[0])
    ensures Inv(Apply(s, 0, Go))
  {
    SearchingFacts(s);
    assert Exclusive(s);
    hide Inv, Exclusive, HalfScheduled, Trace, After, Apply, Enabled;
    StepKeepsExclusive(s, 0, Go);
    SearchFrame(s);
    HalfScheduledStep(s, After(s.log));
    SearchingInv(s, Apply(s, 0, Go));
  }

  /** Another processor's queue is empty: its Schedule finds nothing and leaves. */
  lemma InsideIdleSchedule(s: State, c: nat)
    requires Inv(s) && Enabled(s, c, Go) && IsSearchStep(s.places[c]) && c != 0
    ensures Inv(Apply(s, c, Go))
  {
    StepKeepsExclusive(s, c, Go);
    OthersAreNotCritical(s, c);
    hide Exclusive, HalfAdded, HalfScheduled, Trace, After, InMemory;
  }

  /** The unlock: the operation takes its place in the log. */
  lemma LeavingStep(s: State, c: nat)
    requires Inv(s) && Enabled(s, c, Go) && s.places[c].Leaving?
    ensures Inv(Apply(s, c, Go))
  {
    StepKeepsExclusive(s, c, Go);
    OthersAreNotCritical(s, c);
    hide Exclusive, InMemory, HalfAdded, HalfScheduled, Trace, After;
    var q, p := After(s.log), s.places[c];
    if p.op.Adding? {
      AddCompletes(s, q, c);
      AppendEvent(s.log, Event.AddThread(p.op.ctxt, p.op.rootTable));
    } else if c == 0 {
      ScheduleCompletes(s, q);
      AppendEvent(s.log, Event.Schedule(p.op.regs));
    } else {
      assert s.log + [] == s.log;
    }
  }

  lemma EveryStepKeepsInv(s: State, c: nat, ch: Choice)
    requires Inv(s) && Enabled(s, c, ch)
    ensures Inv(Apply(s, c, ch))
  {
    hide Inv, Consistent;
    match s.places[c]
    case Idle => if ch.Begin? { OutsideStep(s, c, ch); } else { DeleteStep(s, c); }
    case Spin(_) => if s.lock == 0 && !ch.spurious { AcquireStep(s, c); } else { OutsideStep(s, c, ch); }
    case Leaving(_, _) => LeavingStep(s, c);
    case Enter(_) => EnterStep(s, c, ch);
    case _ =>
      if IsAddStep(s.places[c]) {
        InsideAdd(s, c);
      } else if c == 0 {
        InsideSchedule(s);
      } else {
        InsideIdleSchedule(s, c);
      }
  }

  // ---------------------------------------------------------------- progress

  /** Some address is free for a new object. */
  lemma {:induction false} FreshAddress(objects: set<nat>, below: nat) returns (t: nat)
    requires forall a | a in objects :: a < below
    ensures t != 0 && t !in objects
  {
    t := below + 1;
  }

  lemma {:induction false} Bounded(objects: set<nat>) returns (below: nat)
    ensures forall a | a in objects :: a < below
    decreases objects
  {
    below := 0;
    if objects != {} {
      var a :| a in objects;
      var b := Bounded(objects - {a});
      below := if a < b then b else a + 1;
      assert forall x | x in objects :: x == a || x in objects - {a};
    }
  }

  /** Whatever a thread object or a tail is needed for, it is there. */
  lemma AddStepIsEnabled(s: State, c: nat)
    requires Inv(s) && c in s.places && IsAddStep(s.places[c])
    ensures Enabled(s, c, Go)
  {
    AddingFacts(s, c);
    hide Inv, HalfAdded, Enabled, After;
    AddStep(s, After(s.log), c);
  }

  lemma TailIsThere(s: State, q: Queue, p: Place)
    requires 0 in s.queues && IsAdding(p) && HalfAdded(s, q, p)
    ensures p.t in s.objects && (s.queues[0].tail != 0 ==> s.queues[0].tail in s.objects)
  {
    LastIsThere(s.objects, s.order, q.tasks, if p.LinkSet? || p.TailSet? || p.Leaving? then p.t else 0);
    hide Chained, Points;
  }

  lemma LastIsThere(objects: map<nat, Rec>, order: seq<nat>, tasks: seq<Task>, end: nat)
    requires Chained(objects, order, tasks, end)
    ensures Nth(order, |order| - 1) != 0 ==> Nth(order, |order| - 1) in objects
  {
    if order != [] {
      assert order[|order| - 1] in objects;
    }
  }

  lemma CurrentIsThere(objects: map<nat, Rec>, order: seq<nat>, tasks: seq<Task>, q: Queue, current: nat)
    requires Chained(objects, order, tasks, 0) && Points(order, q, current)
    ensures current != 0 ==> current in objects
  {
    if q.current.Some? {
      assert order[q.current.value] in objects;
    }
  }

  lemma SearchStepIsEnabled(s: State, c: nat)
    requires Inv(s) && c in s.places && IsSearchStep(s.places[c])
    ensures Enabled(s, c, Go)
  {
    OthersAreNotCritical(s, c);
    hide Exclusive, HalfAdded, HalfScheduled, Trace, After, InMemory;
    if c == 0 {
      HalfScheduledStep(s, After(s.log));
    }
  }

  lemma EnterIsEnabled(s: State, c: nat) returns (ch: Choice)
    requires Inv(s) && c in s.places && s.places[c].Enter?
    ensures Enabled(s, c, ch)
  {
    OthersAreNotCritical(s, c);
    hide Exclusive, HalfAdded, HalfScheduled, Trace, After, Chained, Points;
    if s.places[c].op.Adding? {
      var below := Bounded(s.objects.Keys);
      var t := FreshAddress(s.objects.Keys, below);
      ch := Allocate(t);
    } else {
      var q := After(s.log);
      CurrentIsThere(s.objects, s.order, q.tasks, q, s.queues[0].current);
      ch := Go;
    }
  }

  /** No processor is ever stuck before a null or dangling pointer: in every reachable state
      each of them has a next step. */
  lemma EveryProcessorCanStep(s: State, c: nat)
    requires Inv(s) && c in s.places
    ensures exists ch :: Enabled(s, c, ch)
  {
    hide Inv, Enabled;
    var p := s.places[c];
    if IsAddStep(p) {
      AddStepIsEnabled(s, c);
    } else if IsSearchStep(p) {
      SearchStepIsEnabled(s, c);
    } else if p.Enter? {
      var ch := EnterIsEnabled(s, c);
    } else {
      OtherwiseIsEnabled(s, c);
      assert p.Idle? ==> Enabled(s, c, Begin(Adding(InitialContext(0, false), 0)));
    }
  }

  lemma OtherwiseIsEnabled(s: State, c: nat)
    requires Inv(s) && c in s.places
    ensures s.places[c].Idle? ==> forall op :: Enabled(s, c, Begin(op))
    ensures s.places[c].Spin? ==> Enabled(s, c, Swap(true))
    ensures s.places[c].Leaving? ==> Enabled(s, c, Go)
  {
    hide Exclusive, Consistent;
  }

  // ---------------------------------------------------------------- runs

  ghost predicate Initial(s: State) {
    && 0 in s.places && s.places.Keys == s.queues.Keys && s.lock == 0 && s.holder == None
    && s.objects == map[] && s.curPid == 0 && s.order == [] && s.log == []
    && (forall c | c in s.queues :: s.queues[c] == NO_QUEUE)
    && (forall c | c in s.places :: s.places[c] == Idle)
  }

  /** Any processors, each taking any of its enabled steps, in any order. */
  ghost predicate Run(ss: seq<State>, who: seq<nat>, what: seq<Choice>) {
    && |ss| == |who| + 1 == |what| + 1 && Initial(ss[0])
    && forall i | 0 <= i < |who| :: Enabled(ss[i], who[i], what[i]) && ss[i + 1] == Apply(ss[i], who[i], what[i])
  }

  lemma {:induction false} EveryRunKeepsInv(ss: seq<State>, who: seq<nat>, what: seq<Choice>, n: nat)
    requires Run(ss, who, what) && n < |ss|
    ensures Inv(ss[n])
    decreases n
  {
    if n > 0 {
      hide Inv;
      EveryRunKeepsInv(ss, who, what, n - 1);
      EveryStepKeepsInv(ss[n - 1], who[n - 1], what[n - 1]);
    }
  }

  /** In every state of every run at most one processor is in the critical section; and
      whenever the lock is free, memory holds exactly the queue that the completed
      operations, one after the other in lock order, lead to, with distinct rising pids. */
  lemma LockedSchedulerIsSequential(ss: seq<State>, who: seq<nat>, what: seq<Choice>, n: nat)
    requires Run(ss, who, what) && n < |ss|
    ensures var s := ss[n];
            && (forall c, d | c in s.places && d in s.places && InCritical(s.places[c]) && InCritical(s.places[d]) ::
                c == d)
            && (s.lock == 0 ==>
                  && 0 in s.queues && Trace(s.log) && Sound(After(s.log))
                  && InMemory(s.objects, s.queues[0], s.curPid, s.order, After(s.log)))
  {
    EveryRunKeepsInv(ss, who, what, n);
  }
}
