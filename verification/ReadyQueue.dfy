/** The round-robin scheduler by value: its list of threads, and the first-in first-out queue
    that the list stands for. */
module ReadyQueue {
  import opened Common
  import opened Sequences

  datatype Mode = Running | Ready | Blocked

  datatype Entry = Entry(id: int, mode: Mode, quanta: int)

  // ---- the list, operation by operation ------------------------------------------------------

  /** The first place of `es` in mode `m`, or the length. */
  function FirstIn(es: seq<Entry>, m: Mode): (k: nat)
    ensures k <= |es|
    ensures k < |es| ==> es[k].mode == m
  {
    if es == [] then 0 else if es[0].mode == m then 0 else 1 + FirstIn(es[1..], m)
  }

  lemma {:induction false} FirstInBefore(es: seq<Entry>, m: Mode)
    ensures forall i :: 0 <= i < FirstIn(es, m) ==> es[i].mode != m
    decreases |es|
  {
    if es != [] && es[0].mode != m {
      FirstInBefore(es[1..], m);
      assert forall i :: 1 <= i < |es| ==> es[i] == es[1..][i - 1];
    }
  }

  lemma {:induction false} FirstInIs(es: seq<Entry>, m: Mode, k: nat)
    requires k < |es| && es[k].mode == m && forall i :: 0 <= i < k ==> es[i].mode != m
    ensures FirstIn(es, m) == k
    decreases |es|
  {
    if k > 0 {
      assert es[0].mode != m;
      FirstInIs(es[1..], m, k - 1);
    }
  }

  /** The first blocked thread with this id, or the length. */
  function FirstBlocked(es: seq<Entry>, id: int): (k: nat)
    ensures k <= |es|
    ensures k < |es| ==> es[k].mode.Blocked? && es[k].id == id
  {
    if es == [] then 0 else if es[0].mode.Blocked? && es[0].id == id then 0 else 1 + FirstBlocked(es[1..], id)
  }

  predicate Idle(es: seq<Entry>) {
    FirstIn(es, Running) == |es|
  }

  function WithMode(es: seq<Entry>, k: nat, m: Mode): seq<Entry>
    requires k < |es|
  {
    es[k := es[k].(mode := m)]
  }

  function ToTail<T>(s: seq<T>, k: nat): (r: seq<T>)
    requires k < |s|
    ensures |r| == |s| && r[|s| - 1] == s[k]
    ensures forall i :: 0 <= i < |s| - 1 ==> r[i] == s[if i < k then i else i + 1]
  {
    Without(s, k) + [s[k]]
  }

  /** choose_ready_thread */
  function Choose(es: seq<Entry>): seq<Entry> {
    var k := FirstIn(es, Ready);
    if k < |es| then WithMode(es, k, Running) else es
  }

  /** new_thread */
  function New(es: seq<Entry>, id: int): seq<Entry> {
    es + [Entry(id, if Idle(es) then Running else Ready, 0)]
  }

  /** exit_thread */
  function Exit(es: seq<Entry>): seq<Entry> {
    var r := FirstIn(es, Running);
    if r < |es| then Choose(Without(es, r)) else es
  }

  /** block_thread */
  function Block(es: seq<Entry>): seq<Entry> {
    var r := FirstIn(es, Running);
    if r < |es| then Choose(es[r := Entry(es[r].id, Blocked, 0)]) else es
  }

  /** wake_thread is only called for a blocked thread, or when there is no thread at all. */
  predicate MayWake(es: seq<Entry>, id: int) {
    es == [] || FirstBlocked(es, id) < |es|
  }

  /** wake_thread */
  function Wake(es: seq<Entry>, id: int): seq<Entry> {
    var k := FirstBlocked(es, id);
    if k == |es| then es
    else
      var woken := ToTail(WithMode(es, k, Ready), k);
      if Idle(es) then Choose(woken) else woken
  }

  /** timer_tick */
  function Tick(es: seq<Entry>, slice: int): seq<Entry> {
    var r := FirstIn(es, Running);
    if r == |es| then es
    else if es[r].quanta + 1 >= slice then Choose(ToTail(es[r := Entry(es[r].id, Ready, 0)], r))
    else es[r := es[r].(quanta := es[r].quanta + 1)]
  }

  // ---- what every operation keeps ------------------------------------------------------------

  /** Ticks that a thread may run before it is put off, at least one. */
  function Share(slice: int): nat {
    if slice < 1 then 1 else slice
  }

  /** The thread at place `i` has used no quanta, unless it is the running one, which has not
      used up its share. */
  ghost predicate Fits(es: seq<Entry>, slice: int, i: nat)
    requires i < |es|
  {
    if i == FirstIn(es, Running) then 0 <= es[i].quanta < Share(slice)
    else !es[i].mode.Running? && es[i].quanta == 0
  }

  /** At most one thread is running; the others have used no quanta, and the running one has
      not used up its share. */
  ghost predicate OneRunning(es: seq<Entry>, slice: int) {
    forall i {:trigger Fits(es, slice, i)} :: 0 <= i < |es| ==> Fits(es, slice, i)
  }

  ghost predicate BlockedAt(es: seq<Entry>, i: nat)
    requires i < |es|
  {
    es[i].mode.Blocked?
  }

  /** The processor is idle only when every thread is blocked. */
  ghost predicate BusyIfReady(es: seq<Entry>) {
    Idle(es) ==> forall i {:trigger BlockedAt(es, i)} :: 0 <= i < |es| ==> BlockedAt(es, i)
  }

  ghost predicate Inv(es: seq<Entry>, slice: int) {
    OneRunning(es, slice) && BusyIfReady(es)
  }

  /** What the invariant says of each thread. */
  lemma {:induction false} InvMeans(es: seq<Entry>, slice: int)
    requires Inv(es, slice)
    ensures forall i :: 0 <= i < |es| ==>
      if i == FirstIn(es, Running) then 0 <= es[i].quanta < Share(slice)
      else !es[i].mode.Running? && es[i].quanta == 0
    ensures Idle(es) ==> forall i :: 0 <= i < |es| ==> es[i].mode.Blocked?
  {
    forall i | 0 <= i < |es|
      ensures if i == FirstIn(es, Running) then 0 <= es[i].quanta < Share(slice)
              else !es[i].mode.Running? && es[i].quanta == 0
    {
      assert Fits(es, slice, i);
    }
    forall i | 0 <= i < |es| && Idle(es)
      ensures es[i].mode.Blocked?
    {
      assert BlockedAt(es, i);
    }
  }

  ghost predicate QuietAt(es: seq<Entry>, i: nat)
    requires i < |es|
  {
    !es[i].mode.Running? && es[i].quanta == 0
  }

  ghost predicate NoneRunning(es: seq<Entry>) {
    forall i {:trigger QuietAt(es, i)} :: 0 <= i < |es| ==> QuietAt(es, i)
  }

  lemma {:induction false} NoneRunningMeans(es: seq<Entry>)
    requires NoneRunning(es)
    ensures forall i :: 0 <= i < |es| ==> !es[i].mode.Running? && es[i].quanta == 0
  {
    forall i | 0 <= i < |es|
      ensures !es[i].mode.Running? && es[i].quanta == 0
    {
      assert QuietAt(es, i);
    }
  }

  lemma {:induction false} ChooseKeeps(es: seq<Entry>, slice: int)
    requires NoneRunning(es)
    ensures Inv(Choose(es), slice)
  {
    NoneRunningMeans(es);
    FirstInBefore(es, Ready);
    var k := FirstIn(es, Ready);
    if k < |es| {
      FirstInIs(Choose(es), Running, k);
    }
  }

  /** The chosen thread is the one that runs afterwards. */
  lemma {:induction false} ChosenRuns(es: seq<Entry>)
    requires NoneRunning(es)
    ensures FirstIn(Choose(es), Running) == FirstIn(es, Ready)
  {
    NoneRunningMeans(es);
    var k := FirstIn(es, Ready);
    if k < |es| {
      FirstInIs(Choose(es), Running, k);
    }
  }

  /** A new thread runs if nobody does. */
  lemma {:induction false} NewRuns(es: seq<Entry>, id: int)
    ensures FirstIn(New(es, id), Running) == FirstIn(es, Running)
  {
    FirstInBefore(es, Running);
    FirstInIs(New(es, id), Running, FirstIn(es, Running));
  }

  lemma {:induction false} FirstBlockedIs(es: seq<Entry>, id: int, k: nat)
    requires k < |es| && es[k].mode.Blocked? && es[k].id == id
    requires forall i :: 0 <= i < k ==> !(es[i].mode.Blocked? && es[i].id == id)
    ensures FirstBlocked(es, id) == k
    decreases |es|
  {
    if k > 0 {
      assert !(es[0].mode.Blocked? && es[0].id == id);
      FirstBlockedIs(es[1..], id, k - 1);
    }
  }

  /** Waking thread `k` leaves the running thread running, perhaps one place further up. */
  lemma {:induction false} RunnerStays(es: seq<Entry>, slice: int, k: nat)
    requires Inv(es, slice) && k < |es| && es[k].mode.Blocked? && !Idle(es)
    ensures
      var r := FirstIn(es, Running);
      FirstIn(ToTail(WithMode(es, k, Ready), k), Running) == if r < k then r else r - 1
  {
    InvMeans(es, slice);
    var r := FirstIn(es, Running);
    FirstInIs(ToTail(WithMode(es, k, Ready), k), Running, if r < k then r else r - 1);
  }

  datatype Op = DoNew(id: int) | DoExit | DoBlock | DoWake(id: int) | DoTick

  function Step(es: seq<Entry>, slice: int, op: Op): seq<Entry> {
    match op
    case DoNew(id) => New(es, id)
    case DoExit => Exit(es)
    case DoBlock => Block(es)
    case DoWake(id) => Wake(es, id)
    case DoTick => Tick(es, slice)
  }

  lemma {:induction false} StepKeeps(es: seq<Entry>, slice: int, op: Op)
    requires Inv(es, slice)
    ensures Inv(Step(es, slice, op), slice)
  {
    InvMeans(es, slice);
    var r := FirstIn(es, Running);
    match op
    case DoNew(id) =>
      var es' := New(es, id);
      FirstInIs(es', Running, r);
    case DoExit =>
      if r < |es| {
        ChooseKeeps(Without(es, r), slice);
      }
    case DoBlock =>
      if r < |es| {
        ChooseKeeps(es[r := Entry(es[r].id, Blocked, 0)], slice);
      }
    case DoWake(id) =>
      WakeKeeps(es, slice, id);
    case DoTick =>
      if r < |es| {
        if es[r].quanta + 1 >= slice {
          ChooseKeeps(ToTail(es[r := Entry(es[r].id, Ready, 0)], r), slice);
        } else {
          FirstInIs(Tick(es, slice), Running, r);
        }
      }
  }

  lemma {:induction false} WakeKeeps(es: seq<Entry>, slice: int, id: int)
    requires Inv(es, slice)
    ensures Inv(Wake(es, id), slice)
  {
    var k := FirstBlocked(es, id);
    if k < |es| {
      if Idle(es) {
        WokenNoneRunning(es, slice, k);
        ChooseKeeps(ToTail(WithMode(es, k, Ready), k), slice);
      } else {
        WokenFits(es, slice, k);
      }
    }
  }

  lemma {:induction false} WokenNoneRunning(es: seq<Entry>, slice: int, k: nat)
    requires Inv(es, slice) && Idle(es) && k < |es|
    ensures NoneRunning(ToTail(WithMode(es, k, Ready), k))
  {
    InvMeans(es, slice);
    assert NoneRunning(WithMode(es, k, Ready));
    NoneRunningToTail(WithMode(es, k, Ready), k);
  }

  lemma {:induction false} WokenFits(es: seq<Entry>, slice: int, k: nat)
    requires Inv(es, slice) && !Idle(es) && k < |es| && es[k].mode.Blocked?
    ensures Inv(ToTail(WithMode(es, k, Ready), k), slice)
  {
    var woken := ToTail(WithMode(es, k, Ready), k);
    RunnerStays(es, slice, k);
    forall i | 0 <= i < |woken|
      ensures Fits(woken, slice, i)
    {
      var j := if i == |es| - 1 then k else if i < k then i else i + 1;
      assert Fits(es, slice, j) && Fits(es, slice, k);
      assert woken[i] == WithMode(es, k, Ready)[j];
    }
  }

  // ---- the queue that the list stands for ----------------------------------------------------

  datatype Turn = Turn(id: int, quanta: int)

  /** Who runs and for how long so far, who waits for the processor in which order, and who is
      blocked. */
  datatype Queue = Queue(running: Option<Turn>, ready: seq<int>, blocked: multiset<int>)

  function IdsIn(es: seq<Entry>, m: Mode): seq<int> {
    if es == [] then [] else (if es[0].mode == m then [es[0].id] else []) + IdsIn(es[1..], m)
  }

  ghost function QueueOf(es: seq<Entry>): Queue {
    var r := FirstIn(es, Running);
    Queue(if r < |es| then Some(Turn(es[r].id, es[r].quanta)) else None,
          IdsIn(es, Ready),
          multiset(IdsIn(es, Blocked)))
  }

  /** The one who has waited longest runs. */
  function Next(q: Queue): Queue {
    if q.ready == [] then q.(running := None)
    else q.(running := Some(Turn(q.ready[0], 0)), ready := q.ready[1..])
  }

  function Arrive(q: Queue, id: int): Queue {
    if q.running.None? then q.(running := Some(Turn(id, 0))) else q.(ready := q.ready + [id])
  }

  function QueueWake(q: Queue, id: int): Queue {
    if id !in q.blocked then q else Arrive(q.(blocked := q.blocked - multiset{id}), id)
  }

  function QueueStep(q: Queue, slice: int, op: Op): Queue {
    match op
    case DoNew(id) => Arrive(q, id)
    case DoExit => if q.running.None? then q else Next(q)
    case DoBlock =>
      if q.running.None? then q else Next(q.(blocked := q.blocked + multiset{q.running.value.id}))
    case DoWake(id) => QueueWake(q, id)
    case DoTick =>
      if q.running.None? then q
      else if q.running.value.quanta + 1 >= slice then Next(q.(ready := q.ready + [q.running.value.id]))
      else q.(running := Some(Turn(q.running.value.id, q.running.value.quanta + 1)))
  }

  // ---- the list refines the queue ------------------------------------------------------------

  lemma {:induction false} IdsInSplit(a: seq<Entry>, b: seq<Entry>, m: Mode)
    ensures IdsIn(a + b, m) == IdsIn(a, m) + IdsIn(b, m)
    decreases |a|
  {
    if a == [] {
      assert a + b == b;
    } else {
      assert (a + b)[1..] == a[1..] + b;
      IdsInSplit(a[1..], b, m);
    }
  }

  lemma {:induction false} NoIds(es: seq<Entry>, m: Mode)
    requires forall i :: 0 <= i < |es| ==> es[i].mode != m
    ensures IdsIn(es, m) == []
    decreases |es|
  {
    if es != [] {
      NoIds(es[1..], m);
    }
  }

  /** The ids in a mode before place `k`, at it and after it. */
  lemma {:induction false} IdsAround(es: seq<Entry>, k: nat, m: Mode)
    requires k < |es|
    ensures IdsIn(es, m) == IdsIn(es[..k], m) + (if es[k].mode == m then [es[k].id] else []) + IdsIn(es[k + 1..], m)
    ensures IdsIn(Without(es, k), m) == IdsIn(es[..k], m) + IdsIn(es[k + 1..], m)
  {
    assert es == es[..k] + ([es[k]] + es[k + 1..]);
    IdsInSplit(es[..k], [es[k]] + es[k + 1..], m);
    IdsInSplit([es[k]], es[k + 1..], m);
    assert IdsIn([es[k]], m) == if es[k].mode == m then [es[k].id] else [];
    IdsInSplit(es[..k], es[k + 1..], m);
  }

  /** Rewriting one entry changes only what that entry contributes. */
  lemma {:induction false} IdsUpdated(es: seq<Entry>, k: nat, e: Entry, m: Mode)
    requires k < |es|
    ensures IdsIn(es[k := e], m) == IdsIn(es[..k], m) + (if e.mode == m then [e.id] else []) + IdsIn(es[k + 1..], m)
  {
    IdsAround(es[k := e], k, m);
    assert es[k := e][..k] == es[..k] && es[k := e][k + 1..] == es[k + 1..];
  }

  lemma {:induction false} ChooseRefines(es: seq<Entry>)
    requires NoneRunning(es)
    ensures QueueOf(Choose(es)) == Next(QueueOf(es))
  {
    NoneRunningMeans(es);
    var k := FirstIn(es, Ready);
    FirstInBefore(es, Ready);
    if k < |es| {
      FirstInIs(Choose(es), Running, k);
      NoIds(es[..k], Ready);
      IdsAround(es, k, Ready);
      IdsUpdated(es, k, es[k].(mode := Running), Ready);
      IdsAround(es, k, Blocked);
      IdsUpdated(es, k, es[k].(mode := Running), Blocked);
    } else {
      NoIds(es, Ready);
    }
  }

  /** When the running thread `r` leaves or is rewritten, nobody runs. */
  lemma {:induction false} RunnerGone(es: seq<Entry>, slice: int, r: nat, e: Entry)
    requires Inv(es, slice) && r < |es| && r == FirstIn(es, Running) && !e.mode.Running? && e.quanta == 0
    ensures NoneRunning(Without(es, r)) && NoneRunning(es[r := e])
  {
    InvMeans(es, slice);
  }

  lemma {:induction false} IdsWithoutRunner(es: seq<Entry>, r: nat, m: Mode)
    requires r < |es| && es[r].mode.Running? && !m.Running?
    ensures IdsIn(Without(es, r), m) == IdsIn(es, m)
  {
    IdsAround(es, r, m);
  }

  lemma {:induction false} RunnerBlocked(es: seq<Entry>, r: nat)
    requires r < |es| && es[r].mode.Running?
    ensures
      var e := Entry(es[r].id, Blocked, 0);
      && IdsIn(es[r := e], Ready) == IdsIn(es, Ready)
      && multiset(IdsIn(es[r := e], Blocked)) == multiset(IdsIn(es, Blocked)) + multiset{e.id}
  {
    var e := Entry(es[r].id, Blocked, 0);
    IdsAround(es, r, Ready);
    IdsAround(es, r, Blocked);
    IdsUpdated(es, r, e, Ready);
    IdsUpdated(es, r, e, Blocked);
  }

  lemma {:induction false} NewRefines(es: seq<Entry>, slice: int, id: int)
    requires Inv(es, slice)
    ensures QueueOf(New(es, id)) == Arrive(QueueOf(es), id)
  {
    InvMeans(es, slice);
    var e := Entry(id, if Idle(es) then Running else Ready, 0);
    IdsInSplit(es, [e], Ready);
    IdsInSplit(es, [e], Blocked);
    assert IdsIn([e], Ready) == if Idle(es) then [] else [id];
    assert IdsIn([e], Blocked) == [];
    if Idle(es) {
      NoIds(es, Ready);
    }
    FirstInBefore(es, Running);
    FirstInIs(New(es, id), Running, FirstIn(es, Running));
  }

  lemma {:induction false} ExitRefines(es: seq<Entry>, slice: int)
    requires Inv(es, slice) && !Idle(es)
    ensures QueueOf(Exit(es)) == Next(QueueOf(es))
  {
    InvMeans(es, slice);
    var r := FirstIn(es, Running);
    RunnerGone(es, slice, r, Entry(0, Ready, 0));
    IdsWithoutRunner(es, r, Ready);
    IdsWithoutRunner(es, r, Blocked);
    ChooseRefines(Without(es, r));
  }

  lemma {:induction false} BlockRefines(es: seq<Entry>, slice: int)
    requires Inv(es, slice) && !Idle(es)
    ensures
      var q := QueueOf(es);
      QueueOf(Block(es)) == Next(q.(blocked := q.blocked + multiset{es[FirstIn(es, Running)].id}))
  {
    InvMeans(es, slice);
    var r := FirstIn(es, Running);
    var e := Entry(es[r].id, Blocked, 0);
    RunnerGone(es, slice, r, e);
    RunnerBlocked(es, r);
    ChooseRefines(es[r := e]);
  }

  lemma {:induction false} TickRefines(es: seq<Entry>, slice: int)
    requires Inv(es, slice) && !Idle(es)
    ensures QueueOf(Tick(es, slice)) == QueueStep(QueueOf(es), slice, DoTick)
  {
    InvMeans(es, slice);
    if es[FirstIn(es, Running)].quanta + 1 >= slice {
      ShareUsedUp(es, slice);
    } else {
      ShareLeft(es, slice);
    }
  }

  lemma {:induction false} ShareUsedUp(es: seq<Entry>, slice: int)
    requires Inv(es, slice) && !Idle(es) && es[FirstIn(es, Running)].quanta + 1 >= slice
    ensures
      var q := QueueOf(es);
      QueueOf(Tick(es, slice)) == Next(q.(ready := q.ready + [es[FirstIn(es, Running)].id]))
  {
    InvMeans(es, slice);
    var r := FirstIn(es, Running);
    var e := Entry(es[r].id, Ready, 0);
    RunnerGone(es, slice, r, e);
    IdsWithoutRunner(es, r, Ready);
    IdsWithoutRunner(es, r, Blocked);
    PutOff(es[r := e], r);
    assert Without(es[r := e], r) == Without(es, r);
    NoneRunningToTail(es[r := e], r);
    ChooseRefines(ToTail(es[r := e], r));
  }

  lemma {:induction false} NoneRunningToTail(es: seq<Entry>, k: nat)
    requires NoneRunning(es) && k < |es|
    ensures NoneRunning(ToTail(es, k))
  {
    NoneRunningMeans(es);
  }

  lemma {:induction false} ShareLeft(es: seq<Entry>, slice: int)
    requires Inv(es, slice) && !Idle(es) && es[FirstIn(es, Running)].quanta + 1 < slice
    ensures
      var q := QueueOf(es);
      var r := es[FirstIn(es, Running)];
      QueueOf(Tick(es, slice)) == q.(running := Some(Turn(r.id, r.quanta + 1)))
  {
    InvMeans(es, slice);
    var r := FirstIn(es, Running);
    var e := es[r].(quanta := es[r].quanta + 1);
    FirstInIs(es[r := e], Running, r);
    RunnerCounted(es, r, e, Ready);
    RunnerCounted(es, r, e, Blocked);
  }

  lemma {:induction false} RunnerCounted(es: seq<Entry>, r: nat, e: Entry, m: Mode)
    requires r < |es| && es[r].mode.Running? && e.mode.Running? && !m.Running?
    ensures IdsIn(es[r := e], m) == IdsIn(es, m)
  {
    IdsAround(es, r, m);
    IdsUpdated(es, r, e, m);
  }

  /** A ready thread moved to the end waits last. */
  lemma {:induction false} PutOff(es: seq<Entry>, k: nat)
    requires k < |es| && es[k].mode.Ready?
    ensures IdsIn(ToTail(es, k), Ready) == IdsIn(Without(es, k), Ready) + [es[k].id]
    ensures IdsIn(ToTail(es, k), Blocked) == IdsIn(Without(es, k), Blocked)
  {
    IdsInSplit(Without(es, k), [es[k]], Ready);
    IdsInSplit(Without(es, k), [es[k]], Blocked);
    assert IdsIn([es[k]], Ready) == [es[k].id];
    assert IdsIn([es[k]], Blocked) == [];
  }

  lemma {:induction false} BlockedIds(es: seq<Entry>, id: int)
    ensures id in multiset(IdsIn(es, Blocked)) <==> FirstBlocked(es, id) < |es|
    decreases |es|
  {
    if es != [] {
      BlockedIds(es[1..], id);
      assert IdsIn(es, Blocked) == (if es[0].mode == Blocked then [es[0].id] else []) + IdsIn(es[1..], Blocked);
    }
  }

  lemma {:induction false} WokenIds(es: seq<Entry>, id: int)
    requires FirstBlocked(es, id) < |es|
    ensures
      var k := FirstBlocked(es, id);
      var woken := ToTail(WithMode(es, k, Ready), k);
      && IdsIn(woken, Ready) == IdsIn(es, Ready) + [id]
      && multiset(IdsIn(woken, Blocked)) == multiset(IdsIn(es, Blocked)) - multiset{id}
  {
    var k := FirstBlocked(es, id);
    var es1 := WithMode(es, k, Ready);
    PutOff(es1, k);
    assert Without(es1, k) == Without(es, k);
    IdsAround(es, k, Ready);
    IdsAround(es, k, Blocked);
  }

  lemma {:induction false} WakeRefines(es: seq<Entry>, slice: int, id: int)
    requires Inv(es, slice)
    ensures QueueOf(Wake(es, id)) == QueueWake(QueueOf(es), id)
  {
    InvMeans(es, slice);
    BlockedIds(es, id);
    if FirstBlocked(es, id) == |es| {
      assert id !in QueueOf(es).blocked;
    } else {
      assert id in QueueOf(es).blocked;
      if Idle(es) {
        WakeToRun(es, slice, id);
      } else {
        WakeToWait(es, slice, id);
      }
    }
  }

  lemma {:induction false} WakeToRun(es: seq<Entry>, slice: int, id: int)
    requires Inv(es, slice) && FirstBlocked(es, id) < |es| && Idle(es)
    ensures
      var q := QueueOf(es);
      QueueOf(Wake(es, id)) == Arrive(q.(blocked := q.blocked - multiset{id}), id)
  {
    InvMeans(es, slice);
    var k := FirstBlocked(es, id);
    var woken := ToTail(WithMode(es, k, Ready), k);
    WokenIds(es, id);
    NoIds(es, Ready);
    NoneRunningToTail(WithMode(es, k, Ready), k);
    ChooseRefines(woken);
  }

  lemma {:induction false} WakeToWait(es: seq<Entry>, slice: int, id: int)
    requires Inv(es, slice) && FirstBlocked(es, id) < |es| && !Idle(es)
    ensures
      var q := QueueOf(es);
      QueueOf(Wake(es, id)) == Arrive(q.(blocked := q.blocked - multiset{id}), id)
  {
    InvMeans(es, slice);
    var k := FirstBlocked(es, id);
    var r := FirstIn(es, Running);
    WokenIds(es, id);
    FirstInIs(Wake(es, id), Running, if r < k then r else r - 1);
  }

  /** Every operation on the list is the operation on the queue. */
  lemma {:induction false} Refines(es: seq<Entry>, slice: int, op: Op)
    requires Inv(es, slice)
    ensures QueueOf(Step(es, slice, op)) == QueueStep(QueueOf(es), slice, op)
  {
    InvMeans(es, slice);
    match op
    case DoNew(id) => NewRefines(es, slice, id);
    case DoExit => if !Idle(es) { ExitRefines(es, slice); }
    case DoBlock => if !Idle(es) { BlockRefines(es, slice); }
    case DoWake(id) => WakeRefines(es, slice, id);
    case DoTick => if !Idle(es) { TickRefines(es, slice); }
  }

  /** The list when thread `r` is put off: ready and the last one. */
  function PutLast(es: seq<Entry>, r: nat): seq<Entry>
    requires r < |es|
  {
    ToTail(es[r := Entry(es[r].id, Ready, 0)], r)
  }

  /** The list with one more quantum of thread `r`. */
  function Counted(es: seq<Entry>, r: nat): (es': seq<Entry>)
    requires r < |es|
    ensures |es'| == |es|
  {
    es[r := es[r].(quanta := es[r].quanta + 1)]
  }

  /** The share of the running thread `r` is used up. */
  lemma {:induction false} ShareUsed(es: seq<Entry>, slice: int, r: nat)
    requires Inv(es, slice) && r < |es| && r == FirstIn(es, Running) && es[r].quanta + 1 >= slice
    ensures
      var queued := PutLast(Counted(es, r), r);
      && NoneRunning(queued) && Choose(queued) == Tick(es, slice)
      && FirstIn(queued, Ready) == FirstIn(Tick(es, slice), Running)
  {
    InvMeans(es, slice);
    var e := Entry(es[r].id, Ready, 0);
    assert Counted(es, r)[r := e] == es[r := e];
    RunnerGone(es, slice, r, e);
    NoneRunningToTail(es[r := e], r);
    ChosenRuns(ToTail(es[r := e], r));
  }

  /** The list when the blocked thread `k` is woken and queued. */
  function Woken(es: seq<Entry>, k: nat): seq<Entry>
    requires k < |es|
  {
    ToTail(WithMode(es, k, Ready), k)
  }

  lemma {:induction false} WokenToRun(es: seq<Entry>, slice: int, id: int)
    requires Inv(es, slice) && FirstBlocked(es, id) < |es| && Idle(es)
    ensures
      var woken := Woken(es, FirstBlocked(es, id));
      && NoneRunning(woken) && Choose(woken) == Wake(es, id)
      && FirstIn(woken, Ready) == FirstIn(Wake(es, id), Running)
  {
    InvMeans(es, slice);
    var k := FirstBlocked(es, id);
    assert NoneRunning(WithMode(es, k, Ready));
    NoneRunningToTail(WithMode(es, k, Ready), k);
    ChosenRuns(Woken(es, k));
  }

  /** The share of the running thread is not used up yet. */
  lemma {:induction false} ShareNotUsed(es: seq<Entry>, slice: int, r: nat)
    requires Inv(es, slice) && r < |es| && r == FirstIn(es, Running) && es[r].quanta + 1 < slice
    ensures Counted(es, r) == Tick(es, slice) && FirstIn(Counted(es, r), Running) == r
  {
    FirstInBefore(es, Running);
    FirstInIs(Counted(es, r), Running, r);
  }

  // ---- whole runs and bounded waiting --------------------------------------------------------

  function Run(es: seq<Entry>, slice: int, ops: seq<Op>): seq<Entry>
    decreases |ops|
  {
    if ops == [] then es else Run(Step(es, slice, ops[0]), slice, ops[1..])
  }

  function QueueRun(q: Queue, slice: int, ops: seq<Op>): Queue
    decreases |ops|
  {
    if ops == [] then q else QueueRun(QueueStep(q, slice, ops[0]), slice, ops[1..])
  }

  lemma {:induction false} RunRefines(es: seq<Entry>, slice: int, ops: seq<Op>)
    requires Inv(es, slice)
    ensures Inv(Run(es, slice, ops), slice)
    ensures QueueOf(Run(es, slice, ops)) == QueueRun(QueueOf(es), slice, ops)
    decreases |ops|
  {
    InvMeans(es, slice);
    if ops != [] {
      StepKeeps(es, slice, ops[0]);
      Refines(es, slice, ops[0]);
      RunRefines(Step(es, slice, ops[0]), slice, ops[1..]);
    }
  }

  /** What holds of the queue of every reachable list. */
  ghost predicate QueueInv(q: Queue, slice: int) {
    && (q.running.None? ==> q.ready == [])
    && (q.running.Some? ==> 0 <= q.running.value.quanta < Share(slice))
  }

  lemma {:induction false} QueueOfKeeps(es: seq<Entry>, slice: int)
    requires Inv(es, slice)
    ensures QueueInv(QueueOf(es), slice)
  {
    InvMeans(es, slice);
    if Idle(es) {
      NoIds(es, Ready);
    }
  }

  lemma {:induction false} QueueStepKeeps(q: Queue, slice: int, op: Op)
    requires QueueInv(q, slice)
    ensures QueueInv(QueueStep(q, slice, op), slice)
  {
  }

  /** The running thread gives up the processor in this operation. */
  predicate Leaves(q: Queue, slice: int, op: Op) {
    q.running.Some? && (op.DoExit? || op.DoBlock? || (op.DoTick? && q.running.value.quanta + 1 >= slice))
  }

  /** Where the thread that waits with `k` others ahead of it is after an operation; nowhere in
      the queue once it runs. */
  function PlaceAfter(q: Queue, slice: int, k: nat, op: Op): Option<nat> {
    if !Leaves(q, slice, op) then Some(k) else if k == 0 then None else Some(k - 1)
  }

  /** The place really is that thread's: nobody overtakes it. */
  lemma {:induction false} SameThread(q: Queue, slice: int, k: nat, op: Op)
    requires QueueInv(q, slice) && k < |q.ready|
    ensures
      var q' := QueueStep(q, slice, op);
      match PlaceAfter(q, slice, k, op)
      case Some(j) => j < |q'.ready| && q'.ready[j] == q.ready[k]
      case None => q'.running == Some(Turn(q.ready[k], 0))
  {
  }

  /** Ticks that a thread with `k` others ahead of it may have to wait at most. */
  function Wait(q: Queue, slice: int, k: nat): int {
    (if q.running.Some? then Share(slice) - q.running.value.quanta else 0) + k * Share(slice)
  }

  function Ticks(ops: seq<Op>): nat {
    if ops == [] then 0 else (if ops[0].DoTick? then 1 else 0) + Ticks(ops[1..])
  }

  /** The thread is still waiting after all of `ops`. */
  predicate StillWaits(q: Queue, slice: int, k: nat, ops: seq<Op>)
    decreases |ops|
  {
    ops != [] ==>
      match PlaceAfter(q, slice, k, ops[0])
      case Some(j) => StillWaits(QueueStep(q, slice, ops[0]), slice, j, ops[1..])
      case None => false
  }

  lemma {:induction false} WaitGoesDown(q: Queue, slice: int, k: nat, op: Op)
    requires QueueInv(q, slice) && k < |q.ready| && PlaceAfter(q, slice, k, op).Some?
    ensures Wait(QueueStep(q, slice, op), slice, PlaceAfter(q, slice, k, op).value)
         <= Wait(q, slice, k) - if op.DoTick? then 1 else 0
  {
    if Leaves(q, slice, op) {
      assert k * Share(slice) == (k - 1) * Share(slice) + Share(slice);
    }
  }

  /** Bounded waiting: whatever threads are created, woken, blocked or ended in between, a
      thread with `k` ready threads ahead of it is not waiting any more after `k + 1` shares of
      ticks. */
  lemma {:induction false} BoundedWaiting(q: Queue, slice: int, k: nat, ops: seq<Op>)
    requires QueueInv(q, slice) && k < |q.ready| && StillWaits(q, slice, k, ops)
    ensures Ticks(ops) < Wait(q, slice, k) <= (k + 1) * if slice < 1 then 1 else slice
    decreases |ops|
  {
    assert (k + 1) * Share(slice) == k * Share(slice) + Share(slice);
    if ops == [] {
      assert k * Share(slice) >= 0;
    } else {
      var op := ops[0];
      var j := PlaceAfter(q, slice, k, op).value;
      WaitGoesDown(q, slice, k, op);
      SameThread(q, slice, k, op);
      QueueStepKeeps(q, slice, op);
      BoundedWaiting(QueueStep(q, slice, op), slice, j, ops[1..]);
    }
  }

  /** The same for every list that any operations lead to from the empty one. */
  lemma {:induction false} ReadyThreadsRun(before: seq<Op>, slice: int, k: nat, ops: seq<Op>)
    requires k < |QueueOf(Run([], slice, before)).ready|
    requires StillWaits(QueueOf(Run([], slice, before)), slice, k, ops)
    ensures Ticks(ops) < (k + 1) * if slice < 1 then 1 else slice
  {
    RunRefines([], slice, before);
    QueueOfKeeps(Run([], slice, before), slice);
    BoundedWaiting(QueueOf(Run([], slice, before)), slice, k, ops);
  }

  // ---- a whole timeslice -----------------------------------------------------------------------

  function OnlyTicks(n: nat): seq<Op> {
    if n == 0 then [] else [DoTick] + OnlyTicks(n - 1)
  }

  /** Between calls a thread that has just begun to run stays on the processor for as many ticks as
      the timeslice has, less one, or none if the timeslice is below 1, and the tick after them
      puts it off in favour of the next one. */
  lemma {:induction false} WholeTimeslice(q: Queue, slice: int, n: nat)
    requires q.running.Some? && q.running.value.quanta == 0 && q.ready != []
    requires n == if slice < 1 then 0 else slice - 1
    ensures QueueRun(q, slice, OnlyTicks(n)) == q.(running := Some(Turn(q.running.value.id, n)))
    ensures
      QueueStep(QueueRun(q, slice, OnlyTicks(n)), slice, DoTick)
      == q.(running := Some(Turn(q.ready[0], 0)), ready := q.ready[1..] + [q.running.value.id])
  {
    TicksCount(q, slice, n);
    assert (q.ready + [q.running.value.id])[1..] == q.ready[1..] + [q.running.value.id];
  }

  lemma {:induction false} TicksCount(q: Queue, slice: int, n: nat)
    requires q.running.Some? && 0 <= q.running.value.quanta
    requires q.running.value.quanta + n < if slice < 1 then 1 else slice
    ensures
      var t := q.running.value;
      QueueRun(q, slice, OnlyTicks(n)) == q.(running := Some(Turn(t.id, t.quanta + n)))
    decreases n
  {
    if n > 0 {
      assert OnlyTicks(n)[1..] == OnlyTicks(n - 1);
      TicksCount(QueueStep(q, slice, DoTick), slice, n - 1);
    }
  }
}
