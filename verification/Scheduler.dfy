/** The round-robin scheduler: a doubly linked list of threads, relinked in place. */
module Scheduler {
  import opened Sequences
  import opened ReadyQueue

  class Thread {
    const threadId: int
    var timeQuantums: int
    var state: Mode
    var next: Thread?
    var prev: Thread?

    constructor (threadId: int)
      ensures this.threadId == threadId && timeQuantums == 0 && state == Ready && next == null && prev == null
    {
      this.threadId, timeQuantums, state, next, prev := threadId, 0, Ready, null, null;
    }
  }

  // ---- doubly linked lists -------------------------------------------------------------------

  ghost function At(ns: seq<Thread>, i: int): Thread? {
    if 0 <= i < |ns| then ns[i] else null
  }

  ghost predicate Among(ns: seq<Thread>, repr: set<Thread>) {
    forall i :: 0 <= i < |ns| ==> ns[i] in repr
  }

  ghost predicate LinkedAt(ns: seq<Thread>, i: nat)
    reads ns
  {
    i < |ns| ==> ns[i].next == At(ns, i + 1) && ns[i].prev == At(ns, i - 1)
  }

  /** The threads are linked in this order both ways, none of them twice. */
  ghost predicate Linked(ns: seq<Thread>)
    reads ns
  {
    Distinct(ns) && forall i {:trigger LinkedAt(ns, i)} :: 0 <= i < |ns| ==> LinkedAt(ns, i)
  }

  ghost function EntryOf(t: Thread): Entry
    reads t
  {
    Entry(t.threadId, t.state, t.timeQuantums)
  }

  ghost function Entries(ns: seq<Thread>): (es: seq<Entry>)
    reads ns
    ensures |es| == |ns|
  {
    if ns == [] then [] else [EntryOf(ns[0])] + Entries(ns[1..])
  }

  lemma {:induction false} EntriesAre(ns: seq<Thread>)
    ensures forall i :: 0 <= i < |ns| ==> Entries(ns)[i] == EntryOf(ns[i])
    decreases |ns|
  {
    if ns != [] {
      EntriesAre(ns[1..]);
    }
  }

  lemma {:induction false} DistinctWithout(ns: seq<Thread>, k: nat)
    requires Distinct(ns) && k < |ns|
    ensures Distinct(Without(ns, k)) && Distinct(ToTail(ns, k))
  {
    var ms := ToTail(ns, k);
    forall i, j | 0 <= i < j < |ns|
      ensures Differ(ms, i, j) && Differ(Without(ns, k), i, j)
    {
      Apart(ns, if i < k then i else i + 1, if j == |ns| - 1 then k else if j < k then j else j + 1);
    }
  }

  class Scheduler {
    var maxTimeOnCpu: int
    var threadsQueue: Thread?
    var tailThreadsQueue: Thread?
    var runningThread: Thread?
    ghost var nodes: seq<Thread>
    /** All threads there have been, so that operations may relink them. */
    ghost var repr: set<Thread>

    /** The queue pointers fit the list. */
    ghost predicate Shape()
      reads this, repr, nodes
    {
      Among(nodes, repr) && Linked(nodes) && threadsQueue == At(nodes, 0) && tailThreadsQueue == At(nodes, |nodes| - 1)
    }

    ghost function List(): seq<Entry>
      reads this, nodes
    {
      Entries(nodes)
    }

    ghost predicate Valid()
      reads this, repr, nodes
    {
      && Shape()
      && Inv(List(), maxTimeOnCpu)
      && runningThread == At(nodes, FirstIn(List(), Running))
    }

    /** scheduler_setup on the empty queue. */
    constructor (timeslice: int)
      ensures Valid() && maxTimeOnCpu == timeslice && nodes == []
    {
      maxTimeOnCpu := timeslice;
      threadsQueue, tailThreadsQueue, runningThread := null, null, null;
      nodes, repr := [], {};
    }

    // ---- linking ---------------------------------------------------------------------------

    /** The stores that take the thread `th` at place `k` out between its neighbours. */
    method Detach(th: Thread, ghost k: nat)
      requires Shape() && k < |nodes| && th == nodes[k]
      modifies `threadsQueue, `tailThreadsQueue, `nodes, repr`next, repr`prev
      ensures Shape() && nodes == Without(old(nodes), k)
    {
      ghost var ns := nodes;
      assert LinkedAt(ns, k) && LinkedAt(ns, k + 1) && (k > 0 ==> LinkedAt(ns, k - 1));
      assert 0 < k < |ns| - 1 ==> Differ(ns, k - 1, k + 1);
      var prev := th.prev;
      var next := th.next;
      if prev == null {
        threadsQueue := next;
      } else {
        prev.next := next;
      }
      if next != null {
        next.prev := prev;
      } else {
        tailThreadsQueue := prev;
      }
      nodes := Without(ns, k);
      DistinctWithout(ns, k);
      forall i | 0 <= i < |nodes|
        ensures LinkedAt(nodes, i)
      {
        ghost var j := if i < k then i else i + 1;
        assert old(LinkedAt(ns, j));
        assert j != k - 1 && k > 0 ==> ns[j] != ns[k - 1] by {
          if j != k - 1 && k > 0 {
            Apart(ns, j, k - 1);
          }
        }
        assert j != k + 1 && k + 1 < |ns| ==> ns[j] != ns[k + 1] by {
          if j != k + 1 && k + 1 < |ns| {
            Apart(ns, j, k + 1);
          }
        }
      }
    }

    /** The thread `th` at place `k` is taken out. */
    method Remove(th: Thread, ghost k: nat)
      requires Shape() && k < |nodes| && th == nodes[k]
      modifies `threadsQueue, `tailThreadsQueue, `nodes, repr`next, repr`prev
      ensures Shape() && nodes == Without(old(nodes), k) && List() == Without(old(List()), k)
    {
      EntriesAre(nodes);
      Detach(th, k);
      EntriesAre(nodes);
    }

    /** The thread `th` is linked behind the last one. */
    method LinkLast(th: Thread)
      requires Shape() && nodes != [] && th !in nodes && th in repr
      modifies `tailThreadsQueue, `nodes, repr`next, repr`prev
      ensures Shape() && nodes == old(nodes) + [th] && List() == old(List()) + [old(EntryOf(th))]
    {
      ghost var ns := nodes;
      EntriesAre(ns);
      assert LinkedAt(ns, |ns| - 1);
      assert ns[|ns| - 1] in ns;
      tailThreadsQueue.next := th;
      th.next := null;
      th.prev := tailThreadsQueue;
      tailThreadsQueue := th;
      nodes := ns + [th];
      forall i, j | 0 <= i < j < |nodes|
        ensures Differ(nodes, i, j)
      {
        if j < |ns| {
          Apart(ns, i, j);
        } else {
          assert ns[i] in ns;
        }
      }
      forall i | 0 <= i < |nodes|
        ensures LinkedAt(nodes, i)
      {
        if i < |ns| {
          assert old(LinkedAt(ns, i)) && ns[i] in ns;
          if i < |ns| - 1 {
            Apart(ns, i, |ns| - 1);
          }
        }
      }
      EntriesAre(nodes);
    }

    /** push_thread_to_tail; there may be no thread to push when there is none at all. */
    method PushThreadToTail(th: Thread?, ghost k: nat)
      requires Shape() && if th == null then nodes == [] else k < |nodes| && th == nodes[k]
      modifies `threadsQueue, `tailThreadsQueue, `nodes, repr`next, repr`prev
      ensures Shape() && nodes == if th == null then [] else ToTail(old(nodes), k)
      ensures th != null ==> List() == ToTail(old(List()), k)
    {
      ghost var ns := nodes;
      assert k < |ns| ==> EntryOf(ns[k]) == Entries(ns)[k] by {
        EntriesAre(ns);
      }
      if th == tailThreadsQueue {
        if th != null && k < |ns| - 1 {
          Apart(ns, k, |ns| - 1);
        }
        assert th != null ==> ToTail(ns, k) == ns && ToTail(List(), k) == List();
        return;
      }
      Remove(th, k);
      assert th !in nodes by {
        forall i | 0 <= i < |nodes|
          ensures nodes[i] != th
        {
          Apart(ns, k, if i < k then i else i + 1);
        }
      }
      assert forall i :: 0 <= i < |nodes| ==> nodes[i] in ns;
      LinkLast(th);
    }

    // ---- choosing --------------------------------------------------------------------------

    /** The state of one thread is set. */
    method SetState(th: Thread, ghost k: nat, m: Mode)
      requires Shape() && k < |nodes| && th == nodes[k]
      modifies repr`state
      ensures Shape() && List() == WithMode(old(List()), k, m)
    {
      EntriesAre(nodes);
      th.state := m;
      forall i | 0 <= i < |nodes| && i != k
        ensures nodes[i] != th
      {
        Apart(nodes, i, k);
      }
      forall i | 0 <= i < |nodes|
        ensures LinkedAt(nodes, i)
      {
        assert old(LinkedAt(nodes, i));
      }
      EntriesAre(nodes);
    }

    /** The search of choose_ready_thread. */
    method FindReady() returns (found: Thread?)
      requires Shape()
      ensures found == At(nodes, FirstIn(List(), Ready))
    {
      EntriesAre(nodes);
      found := null;
      var current := threadsQueue;
      ghost var i: nat := 0;
      while current != null
        invariant i <= |nodes| && current == At(nodes, i) && found == null
        invariant forall j :: 0 <= j < i ==> List()[j].mode != Ready
        decreases |nodes| - i
      {
        assert LinkedAt(nodes, i);
        if current.state == Ready {
          FirstInIs(List(), Ready, i);
          found := current;
          break;
        }
        current := current.next;
        i := i + 1;
      }
    }

    /** choose_ready_thread */
    method ChooseReadyThread()
      requires Shape() && NoneRunning(List())
      modifies `runningThread, repr`state
      ensures Shape() && List() == Choose(old(List()))
      ensures runningThread == At(nodes, FirstIn(old(List()), Ready))
    {
      ghost var es := List();
      runningThread := FindReady();
      if runningThread != null {
        SetState(runningThread, FirstIn(es, Ready), Running);
      }
    }

    // ---- the operations --------------------------------------------------------------------

    /** A new thread is linked in as the last one. */
    method LinkNew(th: Thread)
      requires Shape() && th !in nodes && th in repr && th.next == null && th.prev == null
      modifies `threadsQueue, `tailThreadsQueue, `nodes, repr`next, repr`prev
      ensures Shape() && nodes == old(nodes) + [th]
      ensures List() == old(List()) + [old(EntryOf(th))]
    {
      if threadsQueue == null {
        threadsQueue := th;
        tailThreadsQueue := th;
        nodes := [th];
      } else {
        LinkLast(th);
      }
    }

    /** new_thread */
    method NewThread(threadId: int)
      requires Valid()
      modifies `threadsQueue, `tailThreadsQueue, `runningThread, `nodes, `repr, repr`next, repr`prev, repr`state
      ensures Valid() && List() == New(old(List()), threadId) && fresh(repr - old(repr))
      ensures |nodes| == |old(nodes)| + 1 && nodes[..|old(nodes)|] == old(nodes) && fresh(nodes[|old(nodes)|])
    {
      StepKeeps(List(), maxTimeOnCpu, DoNew(threadId));
      NewRuns(List(), threadId);
      var newThread := new Thread(threadId);
      repr := repr + {newThread};
      Enter(newThread);
    }

    /** A new thread is linked in and runs if no other does. */
    method Enter(th: Thread)
      requires Shape() && th !in nodes && th in repr && th.next == null && th.prev == null
      requires EntryOf(th) == Entry(th.threadId, Ready, 0) && runningThread == At(nodes, FirstIn(List(), Running))
      modifies `threadsQueue, `tailThreadsQueue, `runningThread, `nodes, repr`next, repr`prev, repr`state
      ensures Shape() && nodes == old(nodes) + [th] && List() == New(old(List()), th.threadId)
      ensures runningThread == At(nodes, FirstIn(old(List()), Running))
    {
      LinkNew(th);
      if runningThread == null {
        runningThread := th;
        SetState(th, |nodes| - 1, Running);
      }
    }

    /** exit_thread */
    method ExitThread()
      requires Valid()
      modifies `threadsQueue, `tailThreadsQueue, `runningThread, `nodes, repr`next, repr`prev, repr`state
      ensures Valid() && List() == Exit(old(List()))
    {
      ghost var es, r := List(), FirstIn(List(), Running);
      if runningThread == null {
        return;
      }
      StepKeeps(es, maxTimeOnCpu, DoExit);
      RunnerGone(es, maxTimeOnCpu, r, Entry(0, Ready, 0));
      ChosenRuns(Without(es, r));
      Remove(runningThread, r);
      ChooseReadyThread();
    }

    /** block_thread */
    method BlockThread()
      requires Valid()
      modifies `runningThread, repr`state, repr`timeQuantums
      ensures Valid() && List() == Block(old(List())) && nodes == old(nodes)
    {
      ghost var es, r := List(), FirstIn(List(), Running);
      if runningThread == null {
        return;
      }
      ghost var e := Entry(es[r].id, Blocked, 0);
      StepKeeps(es, maxTimeOnCpu, DoBlock);
      RunnerGone(es, maxTimeOnCpu, r, e);
      ChosenRuns(es[r := e]);
      StopRunner(r, Blocked);
      ChooseReadyThread();
    }

    /** The running thread is put into another state, with no quanta used. */
    method StopRunner(ghost r: nat, m: Mode)
      requires Shape() && r < |nodes| && runningThread == nodes[r]
      modifies repr`state, repr`timeQuantums
      ensures Shape() && List() == old(List())[r := Entry(old(List())[r].id, m, 0)]
    {
      SetState(runningThread, r, m);
      SetQuantums(runningThread, r, 0);
    }

    /** The quanta of one thread are set. */
    method SetQuantums(th: Thread, ghost k: nat, q: int)
      requires Shape() && k < |nodes| && th == nodes[k]
      modifies repr`timeQuantums
      ensures Shape() && List() == old(List())[k := old(List())[k].(quanta := q)] && th.timeQuantums == q
    {
      EntriesAre(nodes);
      th.timeQuantums := q;
      forall i | 0 <= i < |nodes| && i != k
        ensures nodes[i] != th
      {
        Apart(nodes, i, k);
      }
      forall i | 0 <= i < |nodes|
        ensures LinkedAt(nodes, i)
      {
        assert old(LinkedAt(nodes, i));
      }
      EntriesAre(nodes);
    }

    /** The search of wake_thread. */
    method FindBlocked(threadId: int) returns (current: Thread?)
      requires Shape()
      ensures current == At(nodes, FirstBlocked(List(), threadId))
    {
      EntriesAre(nodes);
      current := threadsQueue;
      ghost var i: nat := 0;
      while current != null
        invariant i <= |nodes| && current == At(nodes, i)
        invariant forall j :: 0 <= j < i ==> !(List()[j].mode.Blocked? && List()[j].id == threadId)
        decreases |nodes| - i
      {
        assert LinkedAt(nodes, i);
        if current.state == Blocked && current.threadId == threadId {
          FirstBlockedIs(List(), threadId, i);
          break;
        }
        current := current.next;
        i := i + 1;
      }
    }

    /** A woken thread becomes ready and the last one. */
    method Requeue(th: Thread, ghost k: nat)
      requires Shape() && k < |nodes| && th == nodes[k]
      modifies `threadsQueue, `tailThreadsQueue, `nodes, repr`next, repr`prev, repr`state
      ensures Shape() && nodes == ToTail(old(nodes), k)
      ensures List() == Woken(old(List()), k)
    {
      SetState(th, k, Ready);
      PushThreadToTail(th, k);
    }

    /** wake_thread when it has found the thread. */
    method WakeFound(current: Thread, ghost k: nat)
      requires Valid() && k < |nodes| && k == FirstBlocked(List(), current.threadId) && current == nodes[k]
      modifies `threadsQueue, `tailThreadsQueue, `runningThread, `nodes, repr`next, repr`prev, repr`state
      ensures Shape() && List() == Wake(old(List()), current.threadId)
      ensures runningThread == At(nodes, FirstIn(List(), Running))
    {
      if runningThread == null {
        WokenToRun(List(), maxTimeOnCpu, current.threadId);
      } else {
        RunnerStays(List(), maxTimeOnCpu, k);
      }
      Requeue(current, k);
      if runningThread == null {
        ChooseReadyThread();
      }
    }

    /** wake_thread */
    method WakeThread(threadId: int)
      requires Valid() && MayWake(List(), threadId)
      modifies `threadsQueue, `tailThreadsQueue, `runningThread, `nodes, repr`next, repr`prev, repr`state
      ensures Valid() && List() == Wake(old(List()), threadId)
    {
      StepKeeps(List(), maxTimeOnCpu, DoWake(threadId));
      var current := FindBlocked(threadId);
      if current != null {
        EntriesAre(nodes);
        WakeFound(current, FirstBlocked(List(), threadId));
      } else {
        PushThreadToTail(current, 0);
        if runningThread == null {
          ChooseReadyThread();
        }
      }
    }

    /** The running thread, its share used up, becomes ready again and the last one, and the
        next ready thread runs. */
    method PutOffRunner(ghost r: nat)
      requires Shape() && r < |nodes| && runningThread == nodes[r] && NoneRunning(PutLast(List(), r))
      modifies `threadsQueue, `tailThreadsQueue, `runningThread, `nodes
      modifies repr`next, repr`prev, repr`state, repr`timeQuantums
      ensures Shape() && List() == Choose(PutLast(old(List()), r))
      ensures runningThread == At(nodes, FirstIn(PutLast(old(List()), r), Ready))
    {
      StopRunner(r, Ready);
      PushThreadToTail(runningThread, r);
      ChooseReadyThread();
    }

    /** One more quantum of the running thread. */
    method CountTick(ghost r: nat)
      requires Shape() && r < |nodes| && runningThread == nodes[r]
      modifies repr`timeQuantums
      ensures Shape() && List() == Counted(old(List()), r)
      ensures runningThread.timeQuantums == Counted(old(List()), r)[r].quanta
    {
      assert EntryOf(runningThread) == List()[r] by {
        EntriesAre(nodes);
      }
      SetQuantums(runningThread, r, runningThread.timeQuantums + 1);
    }

    /** The rest of timer_tick, with the tick counted in the list `es`. */
    method PutOffIfDone(ghost r: nat, ghost es: seq<Entry>)
      requires Shape() && Inv(es, maxTimeOnCpu) && r < |es| && r == FirstIn(es, Running)
      requires List() == Counted(es, r) && runningThread == nodes[r]
      requires runningThread.timeQuantums == Counted(es, r)[r].quanta
      modifies `threadsQueue, `tailThreadsQueue, `runningThread, `nodes
      modifies repr`next, repr`prev, repr`state, repr`timeQuantums
      ensures Shape() && List() == Tick(es, maxTimeOnCpu)
      ensures runningThread == At(nodes, FirstIn(List(), Running))
    {
      if runningThread.timeQuantums >= maxTimeOnCpu {
        ShareUsed(es, maxTimeOnCpu, r);
        PutOffRunner(r);
      } else {
        ShareNotUsed(es, maxTimeOnCpu, r);
      }
    }

    /** timer_tick */
    method TimerTick()
      requires Valid()
      modifies `threadsQueue, `tailThreadsQueue, `runningThread, `nodes
      modifies repr`next, repr`prev, repr`state, repr`timeQuantums
      ensures Valid() && List() == Tick(old(List()), maxTimeOnCpu)
    {
      ghost var es, r := List(), FirstIn(List(), Running);
      if runningThread == null {
        return;
      }
      StepKeeps(es, maxTimeOnCpu, DoTick);
      CountTick(r);
      PutOffIfDone(r, es);
    }
  }
}
