/** Runs of the wait-die lock from a state on: where a context can be, what the steps of a whole
    call do to the context and to the lock, and two interleavings of such calls. */
module WaitDieRuns {
  import opened Common
  import opened WaitDie

  ghost predicate DistinctTimes(s: State) {
    forall c, d {:trigger s.ctxs[c], s.ctxs[d]} :: 0 <= c < d < |s.ctxs| ==> s.ctxs[c].timestamp != s.ctxs[d].timestamp
  }

  /** In wdlock_unlock. */
  predicate Freeing(p: Place) {
    || p.FreeLockGuard? || p.FreeLockInner? || p.FreeClear?
    || p.FreeNotify? || p.FreeUnlockInner? || p.FreeUnlockGuard? || p.FreeNext?
  }

  /** In the part of wdlock_lock that waits. */
  predicate Waiting(p: Place) {
    || p.LockInner? || p.UnlockGuardToSleep? || p.Wait? || p.Asleep?
    || p.Wake? || p.UnlockInner? || p.LockGuardAgain? || p.SetOwnerWoken?
  }

  /** The owner of the only lock has been cleared, but the lock is still in the list. */
  predicate Cleared(pc: Pc) {
    || pc.Finish?
    || (pc.At? && (|| pc.place.FreeNotify? || pc.place.FreeUnlockInner?
                   || pc.place.FreeUnlockGuard? || pc.place.FreeNext?))
  }

  // ---- runs, one step at a time ----------------------------------------------------------------

  lemma {:induction false} LeadsToItself(s: State, r: Rules)
    ensures Leads(s, s, r)
  {
    assert Runs(s, [], s, r);
  }

  lemma {:induction false} InRangeWith(s: State, c: nat, x: Ctx, l: nat, k: Lock)
    requires InRange(s) && c < |s.ctxs| && l < |s.locks|
    requires CtxInRange(x, |s.locks|) && LockInRange(k, |s.ctxs|, |s.locks|)
    ensures InRange(With(s, c, x, l, k))
  {
  }

  lemma {:induction false} RunsOn(s: State, ms: seq<Move>, t: State, m: Move, r: Rules)
    requires Runs(s, ms, t, r) && InRange(t) && Can(t, m) && Obeys(t, m, r)
    ensures Runs(s, ms + [m], Step(t, m), r)
    decreases |ms|
  {
    if ms == [] {
      assert ms + [m] == [m];
    } else {
      RunsOn(Step(s, ms[0]), ms[1..], t, m, r);
      assert (ms + [m])[1..] == ms[1..] + [m];
    }
  }

  lemma {:induction false} LeadsOn(s0: State, s: State, m: Move, t: State, r: Rules)
    requires Leads(s0, s, r) && InRange(s) && Can(s, m) && Obeys(s, m, r) && t == Step(s, m)
    ensures Leads(s0, t, r)
  {
    var ms :| Runs(s0, ms, s, r);
    RunsOn(s0, ms, s, m, r);
  }

  /** State `s` with one context and one lock in another state. */
  function With(s: State, c: nat, x: Ctx, l: nat, k: Lock): State
    requires c < |s.ctxs| && l < |s.locks|
  {
    State(s.ctxs[c := x], s.locks[l := k])
  }

  /** What the lemmas below share: context `c` at lock `l`, both in range, in a state that the
      rules allow. */
  ghost predicate Stage(s0: State, s: State, c: nat, x: Ctx, l: nat, k: Lock, r: Rules) {
    && InRange(s) && c < |s.ctxs| && l < |s.locks|
    && CtxInRange(x, |s.locks|) && LockInRange(k, |s.ctxs|, |s.locks|)
    && Leads(s0, With(s, c, x, l, k), r)
  }

  /** One step of context `c` at lock `l`, other than a notification. */
  lemma {:induction false} Advance(s0: State, s: State, c: nat, x: Ctx, l: nat, k: Lock, later: bool, r: Rules)
    requires Stage(s0, s, c, x, l, k, r) && x.pc.At? && x.pc.l == l && CanGo(x.pc.place, k) && !x.pc.place.FreeNotify?
    requires x.pc.place.TestOwner? && k.owner.Some? ==>
               && !r.noWait && later
               && k.owner.value != c && s.ctxs[k.owner.value].timestamp > x.timestamp
    ensures Stage(s0, s, c, CtxAfter(x, k, later), l, LockAfter(x, c, k), r)
  {
    var t := With(s, c, x, l, k);
    OwnRange(x, c, k, later, |s.ctxs|, |s.locks|);
    assert CtxAfter(x, k, OwnerLater(t, x, k)) == CtxAfter(x, k, later);
    assert Step(t, Go(c)) == With(s, c, CtxAfter(x, k, later), l, LockAfter(x, c, k));
    LeadsOn(s0, t, Go(c), Step(t, Go(c)), r);
  }

  /** The notification of lock `l` by context `c`. */
  lemma {:induction false} Notify(s0: State, s: State, c: nat, x: Ctx, l: nat, k: Lock, r: Rules)
    requires Stage(s0, s, c, x, l, k, r) && x.pc == At(FreeNotify, l)
    ensures Stage(s0, State(Notified(s.ctxs, l), s.locks), c, x.(pc := At(FreeUnlockInner, l)), l, k, r)
  {
    var t := With(s, c, x, l, k);
    var u := State(Notified(s.ctxs, l), s.locks);
    assert Notified(t.ctxs, l)[c := x.(pc := At(FreeUnlockInner, l))] == u.ctxs[c := x.(pc := At(FreeUnlockInner, l))];
    assert Step(t, Go(c)) == With(u, c, x.(pc := At(FreeUnlockInner, l)), l, k);
    LeadsOn(s0, t, Go(c), Step(t, Go(c)), r);
  }

  /** A state is one of its own stages. */
  lemma {:induction false} Enter(s0: State, s: State, c: nat, l: nat, r: Rules)
    requires Leads(s0, s, r) && InRange(s) && c < |s.ctxs| && l < |s.locks|
    ensures Stage(s0, s, c, s.ctxs[c], l, s.locks[l], r)
  {
    assert With(s, c, s.ctxs[c], l, s.locks[l]) == s;
  }

  /** Context `c` takes lock `l`, which has no owner. */
  lemma {:induction false} Takes(s0: State, s: State, c: nat, x: Ctx, l: nat, k: Lock, r: Rules)
    requires Stage(s0, s, c, x, l, k, r) && x.pc.Idle? && k.guard.None? && k.owner.None?
    requires r.oneLock ==> x.locks.None? || x.locks == Some(l)
    ensures Stage(s0, s, c, x.(saved := x.locks, locks := Some(l), held := x.held + {l}), l,
                  k.(owner := Some(c), next := x.locks), r)
  {
    var t := With(s, c, x, l, k);
    var x1 := x.(pc := At(LockGuard, l));
    assert Step(t, CallLock(c, l)) == With(s, c, x1, l, k);
    LeadsOn(s0, t, CallLock(c, l), With(s, c, x1, l, k), r);
    Advance(s0, s, c, x1, l, k, false, r);
    var k2 := k.(guard := Some(c));
    Advance(s0, s, c, x.(pc := At(TestOwner, l)), l, k2, false, r);
    Advance(s0, s, c, x.(pc := At(SetOwner, l)), l, k2, false, r);
    var x4, k4 := x.(pc := At(SetNext, l), saved := x.locks, locks := Some(l)), k2.(owner := Some(c));
    Advance(s0, s, c, x4, l, k4, false, r);
    Advance(s0, s, c, x4.(pc := At(UnlockGuardDone, l)), l, k4.(next := x.locks), false, r);
  }

  /** Context `c` came before the owner of lock `l` and goes to sleep. */
  lemma {:induction false} Sleeps(s0: State, s: State, c: nat, x: Ctx, l: nat, k: Lock, r: Rules)
    requires Stage(s0, s, c, x, l, k, r) && x.pc.Idle? && !r.noWait
    requires r.oneLock ==> x.locks.None?
    requires k.guard.None? && k.inner.None? && k.owner.Some? && k.owner.value != c
    requires s.ctxs[k.owner.value].timestamp > x.timestamp
    ensures Stage(s0, s, c, x.(pc := At(Asleep, l)), l, k, r)
  {
    var t := With(s, c, x, l, k);
    var x1 := x.(pc := At(LockGuard, l));
    assert Step(t, CallLock(c, l)) == With(s, c, x1, l, k);
    LeadsOn(s0, t, CallLock(c, l), With(s, c, x1, l, k), r);
    Advance(s0, s, c, x1, l, k, true, r);
    var k2 := k.(guard := Some(c));
    Advance(s0, s, c, x.(pc := At(TestOwner, l)), l, k2, true, r);
    Advance(s0, s, c, x.(pc := At(LockInner, l)), l, k2, true, r);
    var k4 := k2.(inner := Some(c));
    Advance(s0, s, c, x.(pc := At(UnlockGuardToSleep, l)), l, k4, true, r);
    Advance(s0, s, c, x.(pc := At(Wait, l)), l, k4.(guard := None), true, r);
  }

  /** Context `c`, woken, takes lock `l` without another look at its owner. */
  lemma {:induction false} WakesAndTakes(s0: State, s: State, c: nat, x: Ctx, l: nat, k: Lock, r: Rules)
    requires Stage(s0, s, c, x, l, k, r) && x.pc == At(Wake, l) && k.guard.None? && k.inner.None?
    ensures Stage(s0, s, c, x.(pc := Idle, saved := x.locks, locks := Some(l), held := x.held + {l}), l,
                  k.(owner := Some(c), next := x.locks), r)
  {
    Advance(s0, s, c, x, l, k, true, r);
    Advance(s0, s, c, x.(pc := At(UnlockInner, l)), l, k.(inner := Some(c)), true, r);
    Advance(s0, s, c, x.(pc := At(LockGuardAgain, l)), l, k, true, r);
    var k3 := k.(guard := Some(c));
    Advance(s0, s, c, x.(pc := At(SetOwnerWoken, l)), l, k3, true, r);
    var x4, k4 := x.(pc := At(SetNext, l), saved := x.locks, locks := Some(l)), k3.(owner := Some(c));
    Advance(s0, s, c, x4, l, k4, true, r);
    Advance(s0, s, c, x4.(pc := At(UnlockGuardDone, l)), l, k4.(next := x.locks), true, r);
  }

  /** Context `c` clears the owner of lock `l`, with both mutexes of the lock in hand. */
  lemma {:induction false} Clears(s0: State, s: State, c: nat, x: Ctx, l: nat, k: Lock, r: Rules)
    requires Stage(s0, s, c, x, l, k, r) && x.pc == At(FreeLockGuard, l) && k.guard.None? && k.inner.None?
    ensures Stage(s0, s, c, x.(pc := At(FreeNotify, l)), l, k.(guard := Some(c), inner := Some(c), owner := None), r)
  {
    Advance(s0, s, c, x, l, k, true, r);
    var k2 := k.(guard := Some(c));
    Advance(s0, s, c, x.(pc := At(FreeLockInner, l)), l, k2, true, r);
    Advance(s0, s, c, x.(pc := At(FreeClear, l)), l, k2.(inner := Some(c)), true, r);
  }

  /** Context `c` releases lock `l` up to the point where it is about to read the next one. */
  lemma {:induction false} FreesOne(s0: State, s: State, c: nat, x: Ctx, l: nat, k: Lock, r: Rules)
    requires Stage(s0, s, c, x, l, k, r) && x.pc == At(FreeLockGuard, l) && k.guard.None? && k.inner.None?
    ensures Stage(s0, State(Notified(s.ctxs, l), s.locks), c, x.(pc := At(FreeNext, l)), l, k.(owner := None), r)
  {
    var k4 := k.(guard := Some(c), inner := Some(c), owner := None);
    Clears(s0, s, c, x, l, k, r);
    Notify(s0, s, c, x.(pc := At(FreeNotify, l)), l, k4, r);
    var u := State(Notified(s.ctxs, l), s.locks);
    Advance(s0, u, c, x.(pc := At(FreeUnlockInner, l)), l, k4, true, r);
    Advance(s0, u, c, x.(pc := At(FreeUnlockGuard, l)), l, k4.(inner := None), true, r);
  }

  /** Context `c` calls wdlock_unlock with lock `l` first in its list. */
  lemma {:induction false} StartsToFree(s0: State, s: State, c: nat, x: Ctx, l: nat, k: Lock, r: Rules)
    requires Stage(s0, s, c, x, l, k, r) && x.pc.Idle? && x.locks == Some(l)
    ensures Stage(s0, s, c, x.(pc := At(FreeLockGuard, l), held := {}), l, k, r)
  {
    var t := With(s, c, x, l, k);
    var y := x.(pc := At(FreeLockGuard, l), held := {});
    assert Step(t, CallUnlock(c)) == With(s, c, y, l, k);
    LeadsOn(s0, t, CallUnlock(c), With(s, c, y, l, k), r);
  }

  /** Context `c` finds no further lock and ends its release. */
  lemma {:induction false} EndsFreeing(s0: State, s: State, c: nat, x: Ctx, l: nat, k: Lock, r: Rules)
    requires Stage(s0, s, c, x, l, k, r) && x.pc == At(FreeNext, l) && k.next.None?
    ensures Stage(s0, s, c, x.(pc := Idle, locks := None), l, k, r)
  {
    Advance(s0, s, c, x, l, k, true, r);
    var y := x.(pc := Finish);
    var t := With(s, c, y, l, k);
    assert Step(t, Go(c)) == With(s, c, x.(pc := Idle, locks := None), l, k);
    LeadsOn(s0, t, Go(c), Step(t, Go(c)), r);
  }
}
