/** The sleeping and waking of the wait-die lock: each access to a lock, its guard mutex, its
    inner mutex or its condition is one step, and steps of different contexts interleave in any
    order. When the lock excludes is the subject of `WaitDieExclusion`. */
module WaitDie {
  import opened Common

  /** Where a context is in wdlock_lock (from `LockGuard`) or wdlock_unlock (from
      `FreeLockGuard`): the name says what the next step does. The owner is set at
      `SetOwner` right after the test, and at `SetOwnerWoken` after sleeping. */
  datatype Place =
    | LockGuard | TestOwner | GiveUp
    | LockInner | UnlockGuardToSleep | Wait | Asleep | Wake | UnlockInner | LockGuardAgain
    | SetOwner | SetOwnerWoken | SetNext | UnlockGuardDone
    | FreeLockGuard | FreeLockInner | FreeClear | FreeNotify | FreeUnlockInner | FreeUnlockGuard | FreeNext

  datatype Pc = Idle | At(place: Place, l: nat) | Finish

  /** A context is used by one thread at a time; `saved` is that thread's `next_lock`. `held`
      is history, which no step looks at: the locks that calls of wdlock_lock have returned 1
      for since wdlock_unlock was last called. */
  datatype Ctx = Ctx(timestamp: nat, pc: Pc, locks: Option<nat>, saved: Option<nat>, held: set<nat>)

  datatype Lock = Lock(guard: Option<nat>, inner: Option<nat>, owner: Option<nat>, next: Option<nat>)

  datatype State = State(ctxs: seq<Ctx>, locks: seq<Lock>)

  datatype Move = CallLock(c: nat, l: nat) | CallUnlock(c: nat) | Go(c: nat) | Spurious(c: nat)

  predicate Indexes(x: Option<nat>, n: nat) {
    x.Some? ==> x.value < n
  }

  /** Every pointer leads to a context or a lock. */
  ghost predicate InRange(s: State) {
    && (forall c {:trigger s.ctxs[c]} :: 0 <= c < |s.ctxs| ==> CtxInRange(s.ctxs[c], |s.locks|))
    && (forall l {:trigger s.locks[l]} :: 0 <= l < |s.locks| ==> LockInRange(s.locks[l], |s.ctxs|, |s.locks|))
  }

  predicate CtxInRange(x: Ctx, locks: nat) {
    && (x.pc.At? ==> x.pc.l < locks)
    && Indexes(x.locks, locks) && Indexes(x.saved, locks)
  }

  predicate LockInRange(k: Lock, ctxs: nat, locks: nat) {
    Indexes(k.owner, ctxs) && Indexes(k.next, locks) && Indexes(k.guard, ctxs) && Indexes(k.inner, ctxs)
  }

  // ---- steps ---------------------------------------------------------------------------------

  /** A context at `place` can take its step at a lock in state `k`. */
  predicate CanGo(place: Place, k: Lock) {
    match place
    case LockGuard => k.guard.None?
    case LockGuardAgain => k.guard.None?
    case FreeLockGuard => k.guard.None?
    case LockInner => k.inner.None?
    case FreeLockInner => k.inner.None?
    case Wake => k.inner.None?
    case Asleep => false
    case _ => true
  }

  function Start(l: Option<nat>): Pc {
    match l
    case Some(first) => At(FreeLockGuard, first)
    case None => Finish
  }

  /** What the step does to the context: `later` says that the lock's owner, if it has one, has
      a greater timestamp. */
  function CtxAfter(x: Ctx, k: Lock, later: bool): Ctx
    requires x.pc.At?
  {
    var l := x.pc.l;
    match x.pc.place
    case LockGuard => x.(pc := At(TestOwner, l))
    case TestOwner => x.(pc := At(if k.owner.None? then SetOwner else if later then LockInner else GiveUp, l))
    case GiveUp => x.(pc := Idle)
    case LockInner => x.(pc := At(UnlockGuardToSleep, l))
    case UnlockGuardToSleep => x.(pc := At(Wait, l))
    case Wait => x.(pc := At(Asleep, l))
    case Asleep => x
    case Wake => x.(pc := At(UnlockInner, l))
    case UnlockInner => x.(pc := At(LockGuardAgain, l))
    case LockGuardAgain => x.(pc := At(SetOwnerWoken, l))
    case SetOwner => x.(pc := At(SetNext, l), saved := x.locks, locks := Some(l))
    case SetOwnerWoken => x.(pc := At(SetNext, l), saved := x.locks, locks := Some(l))
    case SetNext => x.(pc := At(UnlockGuardDone, l))
    case UnlockGuardDone => x.(pc := Idle, held := x.held + {l})
    case FreeLockGuard => x.(pc := At(FreeLockInner, l))
    case FreeLockInner => x.(pc := At(FreeClear, l))
    case FreeClear => x.(pc := At(FreeNotify, l))
    case FreeNotify => x.(pc := At(FreeUnlockInner, l))
    case FreeUnlockInner => x.(pc := At(FreeUnlockGuard, l))
    case FreeUnlockGuard => x.(pc := At(FreeNext, l))
    case FreeNext => x.(pc := Start(k.next))
  }

  /** What the step of context `c` does to the lock. */
  function LockAfter(x: Ctx, c: nat, k: Lock): Lock
    requires x.pc.At?
  {
    match x.pc.place
    case LockGuard => k.(guard := Some(c))
    case LockGuardAgain => k.(guard := Some(c))
    case FreeLockGuard => k.(guard := Some(c))
    case LockInner => k.(inner := Some(c))
    case FreeLockInner => k.(inner := Some(c))
    case Wake => k.(inner := Some(c))
    case GiveUp => k.(guard := None)
    case UnlockGuardToSleep => k.(guard := None)
    case UnlockGuardDone => k.(guard := None)
    case FreeUnlockGuard => k.(guard := None)
    case Wait => k.(inner := None)
    case UnlockInner => k.(inner := None)
    case FreeUnlockInner => k.(inner := None)
    case SetOwner => k.(owner := Some(c))
    case SetOwnerWoken => k.(owner := Some(c))
    case SetNext => k.(next := x.saved)
    case FreeClear => k.(owner := None)
    case _ => k
  }

  /** notify_all: everyone asleep on the lock has to take the inner mutex again. */
  function Notified(ctxs: seq<Ctx>, l: nat): (r: seq<Ctx>)
    ensures |r| == |ctxs|
    ensures forall c {:trigger r[c]} :: 0 <= c < |ctxs| ==> r[c] == WokenUp(ctxs[c], l)
  {
    if ctxs == [] then [] else [WokenUp(ctxs[0], l)] + Notified(ctxs[1..], l)
  }

  function WokenUp(x: Ctx, l: nat): Ctx {
    if x.pc == At(Asleep, l) then x.(pc := At(Wake, l)) else x
  }

  /** The owner of the lock, if there is one, came later than context `x`. */
  predicate OwnerLater(s: State, x: Ctx, k: Lock)
    requires Indexes(k.owner, |s.ctxs|)
  {
    k.owner.Some? ==> s.ctxs[k.owner.value].timestamp > x.timestamp
  }

  ghost predicate Can(s: State, m: Move)
    requires InRange(s)
  {
    && m.c < |s.ctxs|
    && var x := s.ctxs[m.c];
       match m
       case CallLock(_, l) => x.pc.Idle? && l < |s.locks|
       case CallUnlock(_) => x.pc.Idle?
       case Go(_) => x.pc.Finish? || (x.pc.At? && CanGo(x.pc.place, s.locks[x.pc.l]))
       case Spurious(_) => x.pc.At? && x.pc.place.Asleep?
  }

  ghost function Step(s: State, m: Move): State
    requires InRange(s) && Can(s, m)
  {
    var c := m.c;
    var x := s.ctxs[c];
    match m
    case CallLock(_, l) => s.(ctxs := s.ctxs[c := x.(pc := At(LockGuard, l))])
    case CallUnlock(_) => s.(ctxs := s.ctxs[c := x.(pc := Start(x.locks), held := {})])
    case Spurious(_) => s.(ctxs := s.ctxs[c := x.(pc := At(Wake, x.pc.l))])
    case Go(_) =>
      if x.pc.Finish? then s.(ctxs := s.ctxs[c := x.(pc := Idle, locks := None)])
      else GoOn(s, c)
  }

  ghost function GoOn(s: State, c: nat): State
    requires InRange(s) && c < |s.ctxs| && s.ctxs[c].pc.At?
  {
    var x := s.ctxs[c];
    var l := x.pc.l;
    var k := s.locks[l];
    var ctxs := if x.pc.place.FreeNotify? then Notified(s.ctxs, l) else s.ctxs;
    State(ctxs[c := CtxAfter(x, k, OwnerLater(s, x, k))], s.locks[l := LockAfter(x, c, k)])
  }

  // ---- the invariant ---------------------------------------------------------------------------

  predicate KeepsGuard(p: Place) {
    match p
    case TestOwner => true
    case GiveUp => true
    case LockInner => true
    case UnlockGuardToSleep => true
    case SetOwner => true
    case SetOwnerWoken => true
    case SetNext => true
    case UnlockGuardDone => true
    case FreeLockInner => true
    case FreeClear => true
    case FreeNotify => true
    case FreeUnlockInner => true
    case FreeUnlockGuard => true
    case _ => false
  }

  predicate KeepsInner(p: Place) {
    match p
    case UnlockGuardToSleep => true
    case Wait => true
    case UnlockInner => true
    case FreeClear => true
    case FreeNotify => true
    case FreeUnlockInner => true
    case _ => false
  }

  /** On the way to sleep: the test has found an owner and nobody can clear it yet. */
  predicate FallingAsleep(p: Place) {
    p.LockInner? || p.UnlockGuardToSleep? || p.Wait?
  }

  /** What context `c` in state `x` and lock `l` in state `k` know of each other. */
  ghost predicate PairFits(x: Ctx, c: nat, k: Lock, l: nat) {
    && (k.guard == Some(c) <==> x.pc.At? && x.pc.l == l && KeepsGuard(x.pc.place))
    && (k.inner == Some(c) <==> x.pc.At? && x.pc.l == l && KeepsInner(x.pc.place))
    && (x.pc.At? && x.pc.l == l && FallingAsleep(x.pc.place) ==> k.owner.Some?)
    && (x.pc == At(SetOwner, l) ==> k.owner.None?)
  }

  /** Whoever sleeps while the lock has no owner is about to be woken: the inner mutex is with
      the context that has cleared the owner and notifies next. */
  ghost predicate SleepFits(s: State, c: nat, l: nat)
    requires InRange(s) && c < |s.ctxs| && l < |s.locks|
  {
    s.ctxs[c].pc == At(Asleep, l) && s.locks[l].owner.None? ==>
      && s.locks[l].inner.Some?
      && s.ctxs[s.locks[l].inner.value].pc == At(FreeNotify, l)
  }

  ghost predicate Fits(s: State, c: nat, l: nat)
    requires InRange(s) && c < |s.ctxs| && l < |s.locks|
  {
    PairFits(s.ctxs[c], c, s.locks[l], l) && SleepFits(s, c, l)
  }

  ghost predicate Inv(s: State) {
    InRange(s) && forall c, l {:trigger Fits(s, c, l)} :: 0 <= c < |s.ctxs| && 0 <= l < |s.locks| ==> Fits(s, c, l)
  }

  // ---- what one step keeps -------------------------------------------------------------------

  lemma {:induction false} RangeKept(s: State, m: Move)
    requires InRange(s) && Can(s, m)
    ensures InRange(Step(s, m))
    ensures |Step(s, m).ctxs| == |s.ctxs| && |Step(s, m).locks| == |s.locks|
  {
    var x := s.ctxs[m.c];
    if m.Go? && x.pc.At? {
      OwnRange(x, m.c, s.locks[x.pc.l], OwnerLater(s, x, s.locks[x.pc.l]), |s.ctxs|, |s.locks|);
    }
  }

  lemma {:induction false} OwnRange(x: Ctx, c: nat, k: Lock, later: bool, ctxs: nat, locks: nat)
    requires x.pc.At? && c < ctxs && CtxInRange(x, locks) && LockInRange(k, ctxs, locks)
    ensures CtxInRange(CtxAfter(x, k, later), locks) && LockInRange(LockAfter(x, c, k), ctxs, locks)
  {
  }

  /** The context that steps and the lock it steps at. */
  lemma {:induction false} OwnPair(x: Ctx, c: nat, k: Lock, later: bool)
    requires x.pc.At? && CanGo(x.pc.place, k) && PairFits(x, c, k, x.pc.l)
    ensures PairFits(CtxAfter(x, k, later), c, LockAfter(x, c, k), x.pc.l)
  {
  }

  /** The context that steps and any other lock. */
  lemma {:induction false} OtherLock(x: Ctx, c: nat, k: Lock, later: bool, k': Lock, l': nat)
    requires x.pc.At? && l' != x.pc.l && PairFits(x, c, k', l')
    ensures PairFits(CtxAfter(x, k, later), c, k', l')
  {
  }

  /** The lock that is stepped at and any other context. */
  lemma {:induction false} OtherCtx(x: Ctx, c: nat, k: Lock, y: Ctx, d: nat)
    requires x.pc.At? && CanGo(x.pc.place, k) && c != d && PairFits(x, c, k, x.pc.l) && PairFits(y, d, k, x.pc.l)
    ensures PairFits(y, d, LockAfter(x, c, k), x.pc.l)
  {
  }

  lemma {:induction false} WokenPair(y: Ctx, d: nat, k: Lock, l: nat, m: nat)
    requires PairFits(y, d, k, l)
    ensures PairFits(WokenUp(y, m), d, k, l)
  {
  }

  lemma {:induction false} PairKept(s: State, c: nat, d: nat, l: nat)
    requires Inv(s) && Can(s, Go(c)) && s.ctxs[c].pc.At? && d < |s.ctxs| && l < |s.locks|
    ensures
      var s' := GoOn(s, c);
      PairFits(s'.ctxs[d], d, s'.locks[l], l)
  {
    var x := s.ctxs[c];
    var m := x.pc.l;
    var k := s.locks[m];
    assert Fits(s, c, m) && Fits(s, c, l) && Fits(s, d, m) && Fits(s, d, l);
    if c == d && l == m {
      OwnPair(x, c, k, OwnerLater(s, x, k));
    } else if c == d {
      OtherLock(x, c, k, OwnerLater(s, x, k), s.locks[l], l);
    } else {
      WokenPair(s.ctxs[d], d, s.locks[l], l, m);
      if l == m {
        OtherCtx(x, c, k, GoOn(s, c).ctxs[d], d);
      }
    }
  }

  lemma {:induction false} SleepKept(s: State, c: nat, d: nat, l: nat)
    requires Inv(s) && Can(s, Go(c)) && s.ctxs[c].pc.At? && d < |s.ctxs| && l < |s.locks|
    requires InRange(GoOn(s, c))
    ensures SleepFits(GoOn(s, c), d, l)
  {
    var s' := GoOn(s, c);
    assert Fits(s, c, l) && Fits(s, d, l) && Fits(s, c, s.ctxs[c].pc.l);
    if s'.ctxs[d].pc == At(Asleep, l) && s'.locks[l].owner.None? {
      if d == c {
        assert false;
      } else if s.locks[l].owner.None? {
        AsleepBefore(s, c, d, l);
        var e := s.locks[l].inner.value;
        assert Fits(s, e, l);
        assert e != c;
      } else {
        assert s.ctxs[c].pc == At(FreeClear, l);
      }
    }
  }

  lemma {:induction false} AsleepBefore(s: State, c: nat, d: nat, l: nat)
    requires InRange(s) && c < |s.ctxs| && s.ctxs[c].pc.At? && d < |s.ctxs| && d != c
    requires GoOn(s, c).ctxs[d].pc == At(Asleep, l)
    ensures s.ctxs[d].pc == At(Asleep, l) && s.ctxs[c].pc != At(FreeNotify, l)
  {
  }

  /** Contexts that do not move at a lock: they begin or end a call, or wake up by themselves. */
  lemma {:induction false} QuietKeeps(s: State, m: Move, d: nat, l: nat)
    requires Inv(s) && Can(s, m) && (m.Go? ==> s.ctxs[m.c].pc.Finish?) && d < |s.ctxs| && l < |s.locks|
    requires InRange(Step(s, m))
    ensures Fits(Step(s, m), d, l)
  {
    assert Fits(s, m.c, l) && Fits(s, d, l);
    if s.locks[l].inner.Some? {
      assert Fits(s, s.locks[l].inner.value, l);
    }
  }

  lemma {:induction false} StepKeeps(s: State, m: Move)
    requires Inv(s) && Can(s, m)
    ensures Inv(Step(s, m))
  {
    RangeKept(s, m);
    var s' := Step(s, m);
    forall d, l | 0 <= d < |s'.ctxs| && 0 <= l < |s'.locks|
      ensures Fits(s', d, l)
    {
      if m.Go? && s.ctxs[m.c].pc.At? {
        PairKept(s, m.c, d, l);
        SleepKept(s, m.c, d, l);
      } else {
        QuietKeeps(s, m, d, l);
      }
    }
  }

  // ---- every reachable state -----------------------------------------------------------------

  /** Initialized locks and contexts that nobody uses yet. */
  ghost predicate Initial(s: State) {
    && (forall c {:trigger s.ctxs[c]} ::
          0 <= c < |s.ctxs| ==> s.ctxs[c] == Ctx(s.ctxs[c].timestamp, Idle, None, None, {}))
    && (forall l {:trigger s.locks[l]} :: 0 <= l < |s.locks| ==> s.locks[l] == Lock(None, None, None, None))
  }

  lemma {:induction false} InitialHolds(s: State)
    requires Initial(s)
    ensures Inv(s)
  {
  }

  /** What callers may keep to: to ask for a lock only while no other one is in the context's
      list, and to ask only when the call will not wait, because no later context owns the lock. */
  datatype Rules = Rules(oneLock: bool, noWait: bool)

  const ANY := Rules(false, false)

  ghost predicate Obeys(s: State, m: Move, r: Rules)
    requires InRange(s) && Can(s, m)
  {
    var x := s.ctxs[m.c];
    && (r.oneLock && m.CallLock? ==> x.locks.None? || x.locks == Some(m.l))
    && (r.noWait && m.Go? && x.pc.At? && x.pc.place.TestOwner? ==>
          s.locks[x.pc.l].owner.None? || s.ctxs[s.locks[x.pc.l].owner.value].timestamp <= x.timestamp)
  }

  /** The moves `ms` lead from `s` to `t` and keep to the rules. */
  ghost predicate Runs(s: State, ms: seq<Move>, t: State, r: Rules)
    decreases |ms|
  {
    if ms == [] then s == t
    else InRange(s) && Can(s, ms[0]) && Obeys(s, ms[0], r) && Runs(Step(s, ms[0]), ms[1..], t, r)
  }

  lemma {:induction false} RunKeeps(s: State, ms: seq<Move>, t: State, r: Rules)
    requires Inv(s) && Runs(s, ms, t, r)
    ensures Inv(t)
    decreases |ms|
  {
    if ms != [] {
      StepKeeps(s, ms[0]);
      RunKeeps(Step(s, ms[0]), ms[1..], t, r);
    }
  }

  lemma {:induction false} SizesKept(s: State, ms: seq<Move>, t: State, r: Rules)
    requires Runs(s, ms, t, r)
    ensures |t.ctxs| == |s.ctxs| && |t.locks| == |s.locks|
    decreases |ms|
  {
    if ms != [] {
      RangeKept(s, ms[0]);
      SizesKept(Step(s, ms[0]), ms[1..], t, r);
    }
  }

  ghost predicate Leads(s: State, t: State, r: Rules) {
    exists ms {:trigger Runs(s, ms, t, r)} :: Runs(s, ms, t, r)
  }

  ghost predicate Reachable(t: State) {
    exists s {:trigger Leads(s, t, ANY)} :: Initial(s) && Leads(s, t, ANY)
  }

  lemma {:induction false} ReachableInv(t: State)
    requires Reachable(t)
    ensures Inv(t)
  {
    var s :| Initial(s) && Leads(s, t, ANY);
    var ms :| Runs(s, ms, t, ANY);
    InitialHolds(s);
    RunKeeps(s, ms, t, ANY);
  }

  predicate Sleeping(p: Place) {
    p.UnlockGuardToSleep? || p.Wait? || p.Asleep?
  }

  /** No wake-up is lost: a context that sleeps on a lock, or holds the inner mutex on its way to
      sleep, sees an owner, unless it is asleep and another context has cleared the owner and
      notifies everybody with its next step. */
  lemma {:induction false} NoLostWakeUp(s: State, c: nat, l: nat)
    requires Reachable(s) && c < |s.ctxs| && s.ctxs[c].pc.At? && s.ctxs[c].pc.l == l && Sleeping(s.ctxs[c].pc.place)
    ensures InRange(s)
    ensures s.locks[l].owner.None? ==>
      && s.ctxs[c].pc.place.Asleep?
      && s.locks[l].inner.Some? && s.ctxs[s.locks[l].inner.value].pc == At(FreeNotify, l)
  {
    ReachableInv(s);
    assert Fits(s, c, l);
  }

  /** The mutexes exclude: no two contexts are between locking and unlocking the same one, and
      whoever unlocks one has locked it. */
  lemma {:induction false} MutexesExclude(s: State, c: nat, d: nat, l: nat)
    requires Reachable(s) && c < |s.ctxs| && d < |s.ctxs| && c != d && l < |s.locks|
    requires s.ctxs[c].pc.At? && s.ctxs[c].pc.l == l && s.ctxs[d].pc.At? && s.ctxs[d].pc.l == l
    ensures !(KeepsGuard(s.ctxs[c].pc.place) && KeepsGuard(s.ctxs[d].pc.place))
    ensures !(KeepsInner(s.ctxs[c].pc.place) && KeepsInner(s.ctxs[d].pc.place))
    ensures KeepsGuard(s.ctxs[c].pc.place) ==> s.locks[l].guard == Some(c)
    ensures KeepsInner(s.ctxs[c].pc.place) ==> s.locks[l].inner == Some(c)
  {
    ReachableInv(s);
    assert Fits(s, c, l) && Fits(s, d, l);
  }

  /** A step that puts a context in the place of another as the owner is the step after waking,
      and that step always does. (An owner can also be cleared by another context's release,
      see `WaitDieExclusion.StaleNext`.) */
  lemma {:induction false} OnlySleepersOverwrite(s: State, c: nat, l: nat)
    requires Reachable(s) && InRange(s) && c < |s.ctxs| && l < |s.locks| && Can(s, Go(c)) && s.locks[l].owner.Some?
    ensures
      var k' := Step(s, Go(c)).locks[l];
      k'.owner != s.locks[l].owner && k'.owner.Some? ==> s.ctxs[c].pc == At(SetOwnerWoken, l)
    ensures s.ctxs[c].pc == At(SetOwnerWoken, l) ==> Step(s, Go(c)).locks[l].owner == Some(c)
    ensures s.ctxs[c].pc != At(SetOwner, l)
  {
    ReachableInv(s);
    assert Fits(s, c, l);
  }

  // ---- earlier contexts wait, later ones give up -----------------------------------------------

  /** Context `c` is on its way to sleep on a lock of a later context, or gives up on a lock of its
      own or of an earlier one. */
  ghost predicate Aged(s: State, c: nat)
    requires InRange(s) && c < |s.ctxs|
  {
    var x := s.ctxs[c];
    x.pc.At? ==>
      var owner := s.locks[x.pc.l].owner;
      && (x.pc.place.LockInner? || x.pc.place.UnlockGuardToSleep? ==>
            owner.Some? && s.ctxs[owner.value].timestamp > x.timestamp)
      && (x.pc.place.GiveUp? ==> owner.Some? && s.ctxs[owner.value].timestamp <= x.timestamp)
  }

  lemma {:induction false} TimestampKept(s: State, m: Move, d: nat)
    requires InRange(s) && Can(s, m) && d < |s.ctxs|
    ensures Step(s, m).ctxs[d].timestamp == s.ctxs[d].timestamp
  {
  }

  /** Who owns a lock does not change while another context holds its guard. */
  lemma {:induction false} OwnerKept(s: State, m: Move, d: nat)
    requires Inv(s) && Can(s, m) && d < |s.ctxs| && d != m.c
    requires s.ctxs[d].pc.At? && KeepsGuard(s.ctxs[d].pc.place)
    ensures Step(s, m).locks[s.ctxs[d].pc.l].owner == s.locks[s.ctxs[d].pc.l].owner
    ensures Step(s, m).ctxs[d] == s.ctxs[d]
  {
    assert Fits(s, d, s.ctxs[d].pc.l) && Fits(s, m.c, s.ctxs[d].pc.l);
  }

  lemma {:induction false} AgedKept(s: State, m: Move, d: nat)
    requires Inv(s) && Can(s, m) && d < |s.ctxs| && Aged(s, d)
    ensures InRange(Step(s, m)) && d < |Step(s, m).ctxs| && Aged(Step(s, m), d)
  {
    RangeKept(s, m);
    var y := Step(s, m).ctxs[d];
    if y.pc.At? && (y.pc.place.LockInner? || y.pc.place.UnlockGuardToSleep? || y.pc.place.GiveUp?) {
      if d == m.c {
        OwnAge(s, m);
      } else {
        OwnerKept(s, m, d);
      }
      var owner := Step(s, m).locks[y.pc.l].owner;
      TimestampKept(s, m, owner.value);
      TimestampKept(s, m, d);
    }
  }

  /** The context that steps does not change the owner on these ways. */
  lemma {:induction false} OwnAge(s: State, m: Move)
    requires Inv(s) && Can(s, m) && Aged(s, m.c)
    ensures
      var x, y := s.ctxs[m.c], Step(s, m).ctxs[m.c];
      y.pc.At? && (y.pc.place.LockInner? || y.pc.place.UnlockGuardToSleep? || y.pc.place.GiveUp?) ==>
        && x.pc.At? && x.pc.l == y.pc.l && Step(s, m).locks[x.pc.l].owner == s.locks[x.pc.l].owner
        && s.locks[x.pc.l].owner.Some?
        && (s.ctxs[s.locks[x.pc.l].owner.value].timestamp > x.timestamp <==> !y.pc.place.GiveUp?)
  {
  }

  lemma {:induction false} AgedRun(s: State, ms: seq<Move>, t: State, c: nat)
    requires Inv(s) && c < |s.ctxs| && Aged(s, c) && Runs(s, ms, t, ANY)
    ensures InRange(t) && c < |t.ctxs| && Aged(t, c)
    decreases |ms|
  {
    if ms != [] {
      AgedKept(s, ms[0], c);
      StepKeeps(s, ms[0]);
      AgedRun(Step(s, ms[0]), ms[1..], t, c);
    }
  }

  /** Wait or die: in every reachable state a context with the guard that is on its way to sleep
      sees an owner that came later, one that gives up sees an owner that came no later, and one
      that takes the lock without sleeping sees none; and whether it will do the one or the
      other is decided by these timestamps. */
  lemma {:induction false} WaitOrDie(s: State, c: nat)
    requires Reachable(s) && c < |s.ctxs| && s.ctxs[c].pc.At?
    ensures InRange(s)
    ensures
      var x := s.ctxs[c];
      var owner := s.locks[x.pc.l].owner;
      && (x.pc.place.LockInner? || x.pc.place.UnlockGuardToSleep? ==>
            owner.Some? && s.ctxs[owner.value].timestamp > x.timestamp)
      && (x.pc.place.GiveUp? ==> owner.Some? && s.ctxs[owner.value].timestamp <= x.timestamp)
      && (x.pc.place.SetOwner? ==> owner.None?)
    ensures
      var x := s.ctxs[c];
      var owner := s.locks[x.pc.l].owner;
      x.pc.place.TestOwner? ==>
        && Can(s, Go(c))
        && Step(s, Go(c)).ctxs[c].pc
           == At(if owner.None? then SetOwner
                 else if s.ctxs[owner.value].timestamp > x.timestamp then LockInner else GiveUp, x.pc.l)
  {
    var s0 :| Initial(s0) && Leads(s0, s, ANY);
    var ms :| Runs(s0, ms, s, ANY);
    InitialHolds(s0);
    RunKeeps(s0, ms, s, ANY);
    SizesKept(s0, ms, s, ANY);
    AgedRun(s0, ms, s, c);
    assert Fits(s, c, s.ctxs[c].pc.l);
  }

  /** A context that gives up leaves the lock as it found it, with the guard free again, and is
      outside with the locks it had. */
  lemma {:induction false} GivesUp(s: State, c: nat)
    requires Reachable(s) && c < |s.ctxs| && s.ctxs[c].pc.At? && s.ctxs[c].pc.place.GiveUp?
    ensures
      var x, l := s.ctxs[c], s.ctxs[c].pc.l;
      && InRange(s) && Can(s, Go(c)) && s.locks[l].guard == Some(c)
      && Step(s, Go(c)) == State(s.ctxs[c := x.(pc := Idle)], s.locks[l := s.locks[l].(guard := None)])
  {
    ReachableInv(s);
    assert Fits(s, c, s.ctxs[c].pc.l);
  }

  // ---- the guard and inner mutexes never deadlock --------------------------------------------

  predicate Settled(x: Ctx) {
    x.pc.Idle? || (x.pc.At? && x.pc.place.Asleep?)
  }

  /** Whoever holds an inner mutex can go on; whoever holds a guard can go on or waits for the
      inner mutex only. */
  lemma {:induction false} SomeoneGoesOn(s: State, c: nat) returns (d: nat)
    requires Inv(s) && c < |s.ctxs| && !Settled(s.ctxs[c])
    ensures d < |s.ctxs| && Can(s, Go(d))
  {
    d := c;
    if !Can(s, Go(d)) {
      var l := s.ctxs[c].pc.l;
      var k := s.locks[l];
      if k.inner.Some? {
        d := k.inner.value;
        assert Fits(s, d, l);
      } else {
        d := k.guard.value;
        assert Fits(s, d, l);
      }
    }
  }

  /** When no call in progress can take a step, every context is outside or asleep on a lock
      that has an owner. */
  lemma {:induction false} OnlyOwnersAwaited(s: State)
    requires Reachable(s) && InRange(s) && forall c {:trigger Go(c)} :: 0 <= c < |s.ctxs| ==> !Can(s, Go(c))
    ensures forall c {:trigger s.ctxs[c]} :: 0 <= c < |s.ctxs| ==>
      s.ctxs[c].pc.Idle? || (s.ctxs[c].pc.At? && s.ctxs[c].pc.place.Asleep? && s.locks[s.ctxs[c].pc.l].owner.Some?)
  {
    ReachableInv(s);
    forall c | 0 <= c < |s.ctxs|
      ensures s.ctxs[c].pc.Idle?
              || (s.ctxs[c].pc.At? && s.ctxs[c].pc.place.Asleep? && s.locks[s.ctxs[c].pc.l].owner.Some?)
    {
      if !Settled(s.ctxs[c]) {
        var d := SomeoneGoesOn(s, c);
        assert false;
      }
      if s.ctxs[c].pc.At? {
        var l := s.ctxs[c].pc.l;
        assert Fits(s, c, l);
        if s.locks[l].owner.None? {
          var e := s.locks[l].inner.value;
          assert Can(s, Go(e));
        }
      }
    }
  }
}
