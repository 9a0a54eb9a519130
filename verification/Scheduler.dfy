/** src/sched/scheduler.cpp on its linked run queue: Thread objects chained by next, with
    head, tail and current, proved to compute the functions of SchedulerModel.  Schedule
    answers the context and table root it would load. */
module Scheduler {
  import opened Machine
  import opened RoundRobin
  import opened SchedulerModel

  class Thread {
    var ctxt: Regs
    var rootTable: nat
    var pid: int
    var canRun: bool
    var next: Thread?

    /** rootTable is the address space the constructor built. */
    constructor (entry: nat, isUser: bool, root: nat)
      ensures ctxt == InitialContext(entry, isUser) && StartsAs(ctxt, entry, isUser)
      ensures rootTable == root && canRun && next == null
    {
      ctxt := InitialContext(entry, isUser);
      rootTable, pid, canRun, next := root, 0, true, null;
    }

    ghost function Value(): Task
      reads this
    {
      Task(ctxt, rootTable, pid, canRun)
    }
  }

  class RunQueue {
    var head: Thread?
    var tail: Thread?
    var current: Thread?
    var numThreads: int
    var curPid: int
    ghost var threads: seq<Thread>
    ghost var position: Option<nat>  // of current

    ghost function TaskValues(): seq<Task>
      reads this, threads
    {
      seq(|threads|, i requires 0 <= i < |threads| reads this, threads => threads[i].Value())
    }

    ghost function Nth(i: int): Thread?
      reads this
    {
      if 0 <= i < |threads| then threads[i] else null
    }

    ghost predicate Linked()
      reads this, threads
    {
      && (forall i, j | 0 <= i < j < |threads| :: threads[i] != threads[j])
      && (forall i {:trigger threads[i].next} | 0 <= i < |threads| :: threads[i].next == Nth(i + 1))
      && head == Nth(0)
      && tail == Nth(|threads| - 1)
      && (if current == null then position == None
          else position.Some? && position.value < |threads| && threads[position.value] == current)
      && numThreads == |threads|
    }

    ghost function View(): Queue
      reads this, threads
      requires Linked()
    {
      Queue(TaskValues(), position, curPid)
    }

    ghost predicate Valid()
      reads this, threads
    {
      Linked() && Sound(View())
    }

    constructor ()
      ensures Valid() && View() == EMPTY && threads == []
    {
      head, tail, current, numThreads, curPid := null, null, null, 0, 0;
      threads, position := [], None;
    }

    /** The part the two AddThread functions share; t is not on the queue yet. */
    method Enqueue(t: Thread)
      requires Valid() && t !in threads && t.next == null && t.canRun
      modifies this`head, this`tail, this`numThreads, this`curPid, this`threads, threads, t
      ensures Valid() && threads == old(threads) + [t]
      ensures View() == Add(old(View()), old(t.ctxt), old(t.rootTable))
    {
      hide Sound, Flags;
      ghost var before := View();
      StepKeepsSound(before, Event.AddThread(t.ctxt, t.rootTable));
      t.pid := curPid;
      curPid := curPid + 1;
      Append(t);
      assert TaskValues() == Add(before, t.ctxt, t.rootTable).tasks;
    }

    method Append(t: Thread)
      requires Linked() && t !in threads && t.next == null
      modifies this`head, this`tail, this`numThreads, this`threads, threads`next
      ensures Linked() && threads == old(threads) + [t]
    {
      if head == null {
        head := t;
      }
      if tail != null {
        tail.next := t;
      }
      tail := t;
      numThreads := numThreads + 1;
      threads := threads + [t];
    }

    method AddThread(entry: nat, isUser: bool, root: nat) returns (t: Thread)
      requires Valid()
      modifies this, threads
      ensures Valid() && fresh(t) && threads == old(threads) + [t]
      ensures View() == Add(old(View()), InitialContext(entry, isUser), root)
    {
      t := new Thread(entry, isUser, root);
      Enqueue(t);
    }

    /** current = current->next, or the head where there is no next; a null current first
        becomes the head, which is thereby passed over. */
    method Step()
      requires Linked() && threads != []
      modifies this`current, this`position
      ensures Linked() && position == Some(RoundRobin.Successor(|threads|, old(position).GetOr(0)))
      ensures current != null && current == threads[position.value]
    {
      ghost var cur := position.GetOr(0);
      if current == null {
        current := head;
      }
      assert current == threads[cur];
      if current.next != null {
        current := current.next;
      } else {
        current := head;
      }
      position := Some(RoundRobin.Successor(|threads|, cur));
    }

    /** One or more turns round the queue, until a thread that can run. */
    method GetNextThread() returns (t: Thread?)
      requires Valid() && CanDispatch(View())
      modifies this`current, this`position
      ensures Valid() && View() == Dispatch(old(View()))
      ensures t == (if threads == [] then null else current) && (threads != [] ==> current != null)
      decreases if threads == [] then 0 else Turns(Flags(View()), SearchFrom(View()))
    {
      hide Sound, Flags, CanDispatch, Dispatch;
      NothingToDispatch(View());
      if numThreads == 0 {
        return null;
      }
      ghost var q := View();
      DispatchByTurns(q);
      Step();
      assert View() == Advance(q);
      t := current;
      if !t.canRun {
        t := GetNextThread();
      }
    }

    /** The context and table root to load, or nothing to switch to. */
    method Schedule(regs: Regs) returns (loaded: Option<(Regs, nat)>)
      requires Valid() && CanDispatch(View())
      modifies this`current, this`position, threads
      ensures Valid() && threads == old(threads)
      ensures View() == SchedulerModel.Step(old(View()), Event.Schedule(regs))
      ensures if threads == [] then loaded == None
              else current != null && loaded == Some((current.ctxt, current.rootTable))
    {
      hide Sound, Flags, Dispatch;
      ghost var q := View();
      SaveKeepsFlags(q, regs);
      if current != null {
        current.ctxt := regs;
      }
      assert TaskValues() == Save(q, regs).tasks;
      assert View() == Save(q, regs);
      var next := GetNextThread();
      if next == null {
        return None;
      }
      loaded := Some((next.ctxt, next.rootTable));
    }

    method DeleteCurThread()
      requires Valid() && current != null
      modifies threads
      ensures Valid() && threads == old(threads)
      ensures View() == SchedulerModel.Step(old(View()), Event.DeleteCurThread)
    {
      ghost var q := View();
      current.canRun := false;
      assert TaskValues() == SchedulerModel.Step(q, Event.DeleteCurThread).tasks;
    }
  }
}
