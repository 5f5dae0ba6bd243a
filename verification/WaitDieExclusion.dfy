/** When the wait-die lock excludes: exactly for which contexts, locks and habits of the callers
    no run ever has two contexts that both hold a lock. */
module WaitDieExclusion {
  import opened Common
  import opened WaitDie
  import opened WaitDieRuns

  /** No lock is held by two contexts: two that have been told so and have not called
      wdlock_unlock since. */
  ghost predicate Exclusive(s: State) {
    forall c, d, l: nat {:trigger l in s.ctxs[c].held, l in s.ctxs[d].held} ::
      0 <= c < d < |s.ctxs| && l < |s.locks| ==> !(l in s.ctxs[c].held && l in s.ctxs[d].held)
  }

  ghost predicate Excludes(s: State, r: Rules) {
    forall t {:trigger Leads(s, t, r)} :: Leads(s, t, r) ==> Exclusive(t)
  }

  // ---- callers that keep to both rules ---------------------------------------------------------

  /** A context that never waits and has one lock at most. */
  ghost predicate CtxTidy(x: Ctx) {
    && x.saved.None?
    && (x.pc.At? ==>
          && !Waiting(x.pc.place)
          && (x.locks.None? || x.locks == Some(x.pc.l))
          && (Freeing(x.pc.place) || x.pc.place.SetNext? || x.pc.place.UnlockGuardDone? ==> x.locks.Some?)
          && (Freeing(x.pc.place) ==> x.held == {}))
    && (x.pc.Finish? ==> x.held == {})
  }

  /** A context owns a lock exactly while the lock is in its list and not cleared, and it owns
      what it holds. */
  ghost predicate Owned(x: Ctx, c: nat, k: Lock, l: nat) {
    && (k.owner == Some(c) <==> x.locks == Some(l) && !Cleared(x.pc))
    && (l in x.held ==> k.owner == Some(c))
  }

  ghost predicate OwnedAt(s: State, c: nat, l: nat)
    requires c < |s.ctxs| && l < |s.locks|
  {
    Owned(s.ctxs[c], c, s.locks[l], l)
  }

  ghost predicate Tidy(s: State) {
    && (forall c {:trigger s.ctxs[c]} :: 0 <= c < |s.ctxs| ==> CtxTidy(s.ctxs[c]))
    && (forall l {:trigger s.locks[l]} :: 0 <= l < |s.locks| ==> s.locks[l].next.None?)
    && (forall c, l {:trigger OwnedAt(s, c, l)} :: 0 <= c < |s.ctxs| && 0 <= l < |s.locks| ==> OwnedAt(s, c, l))
  }

  lemma {:induction false} OwnTidy(x: Ctx, c: nat, k: Lock, later: bool)
    requires x.pc.At? && CtxTidy(x) && k.next.None? && Owned(x, c, k, x.pc.l) && PairFits(x, c, k, x.pc.l)
    requires x.pc.place.TestOwner? ==> k.owner.None? || !later
    ensures CtxTidy(CtxAfter(x, k, later)) && LockAfter(x, c, k).next.None?
    ensures Owned(CtxAfter(x, k, later), c, LockAfter(x, c, k), x.pc.l)
  {
  }

  lemma {:induction false} OtherLockTidy(x: Ctx, c: nat, k: Lock, later: bool, k': Lock, l': nat)
    requires x.pc.At? && CtxTidy(x) && Owned(x, c, k, x.pc.l) && PairFits(x, c, k, x.pc.l)
    requires l' != x.pc.l && Owned(x, c, k', l')
    ensures Owned(CtxAfter(x, k, later), c, k', l')
  {
  }

  lemma {:induction false} OtherCtxTidy(x: Ctx, c: nat, k: Lock, y: Ctx, d: nat)
    requires x.pc.At? && CtxTidy(x) && Owned(x, c, k, x.pc.l) && PairFits(x, c, k, x.pc.l)
    requires c != d && Owned(y, d, k, x.pc.l)
    ensures Owned(y, d, LockAfter(x, c, k), x.pc.l)
  {
  }

  /** notify_all finds nobody asleep. */
  lemma {:induction false} NobodyWoken(s: State, l: nat)
    requires Tidy(s)
    ensures Notified(s.ctxs, l) == s.ctxs
  {
    forall c | 0 <= c < |s.ctxs|
      ensures Notified(s.ctxs, l)[c] == s.ctxs[c]
    {
      assert CtxTidy(s.ctxs[c]);
    }
  }

  lemma {:induction false} TidyAt(s: State, c: nat, d: nat, l: nat)
    requires Inv(s) && Tidy(s) && Can(s, Go(c)) && s.ctxs[c].pc.At? && Obeys(s, Go(c), Rules(true, true))
    requires d < |s.ctxs| && l < |s.locks|
    ensures
      var s' := GoOn(s, c);
      CtxTidy(s'.ctxs[d]) && s'.locks[l].next.None? && Owned(s'.ctxs[d], d, s'.locks[l], l)
  {
    var x := s.ctxs[c];
    var k := s.locks[x.pc.l];
    NobodyWoken(s, x.pc.l);
    assert OwnedAt(s, c, x.pc.l) && OwnedAt(s, d, l) && Fits(s, c, x.pc.l) && OwnedAt(s, c, l) && OwnedAt(s, d, x.pc.l);
    OwnTidy(x, c, k, OwnerLater(s, x, k));
    if c == d && l != x.pc.l {
      OtherLockTidy(x, c, k, OwnerLater(s, x, k), s.locks[l], l);
    } else if c != d && l == x.pc.l {
      OtherCtxTidy(x, c, k, s.ctxs[d], d);
    }
  }

  lemma {:induction false} QuietTidy(s: State, m: Move, d: nat, l: nat)
    requires InRange(s) && Tidy(s) && Can(s, m) && Obeys(s, m, Rules(true, true))
    requires (m.Go? ==> s.ctxs[m.c].pc.Finish?) && d < |s.ctxs| && l < |s.locks|
    ensures
      var s' := Step(s, m);
      CtxTidy(s'.ctxs[d]) && s'.locks[l].next.None? && Owned(s'.ctxs[d], d, s'.locks[l], l)
  {
    assert OwnedAt(s, d, l) && CtxTidy(s.ctxs[m.c]);
  }

  lemma {:induction false} TidyKept(s: State, m: Move)
    requires Inv(s) && Tidy(s) && Can(s, m) && Obeys(s, m, Rules(true, true)) && |s.locks| > 0
    ensures Tidy(Step(s, m))
  {
    var s' := Step(s, m);
    RangeKept(s, m);
    forall d, l | 0 <= d < |s'.ctxs| && 0 <= l < |s'.locks|
      ensures CtxTidy(s'.ctxs[d]) && s'.locks[l].next.None? && OwnedAt(s', d, l)
    {
      if m.Go? && s.ctxs[m.c].pc.At? {
        TidyAt(s, m.c, d, l);
      } else {
        QuietTidy(s, m, d, l);
      }
    }
    forall d | 0 <= d < |s'.ctxs|
      ensures CtxTidy(s'.ctxs[d])
    {
      assert OwnedAt(s', d, 0);
    }
    forall l | 0 <= l < |s'.locks|
      ensures s'.locks[l].next.None?
    {
      assert OwnedAt(s', m.c, l);
    }
  }

  /** With a single lock there is no other one to ask for. */
  lemma {:induction false} SingleLock(s: State, m: Move, r: Rules)
    requires InRange(s) && Can(s, m) && Obeys(s, m, r) && r.noWait && (r.oneLock || |s.locks| == 1)
    ensures Obeys(s, m, Rules(true, true))
  {
    assert CtxInRange(s.ctxs[m.c], |s.locks|);
  }

  lemma {:induction false} TidyRun(s: State, ms: seq<Move>, t: State, r: Rules)
    requires Inv(s) && Tidy(s) && Runs(s, ms, t, r) && r.noWait && (r.oneLock || |s.locks| == 1) && |s.locks| > 0
    ensures InRange(t) && Tidy(t)
    decreases |ms|
  {
    if ms != [] {
      SingleLock(s, ms[0], r);
      StepKeeps(s, ms[0]);
      RangeKept(s, ms[0]);
      TidyKept(s, ms[0]);
      TidyRun(Step(s, ms[0]), ms[1..], t, r);
    }
  }

  lemma {:induction false} InitialTidy(s: State)
    requires Initial(s)
    ensures Tidy(s)
  {
  }

  lemma {:induction false} TidyExcludes(t: State)
    requires InRange(t) && Tidy(t)
    ensures Exclusive(t)
  {
    forall c, d, l: nat | 0 <= c < d < |t.ctxs| && l < |t.locks|
      ensures !(l in t.ctxs[c].held && l in t.ctxs[d].held)
    {
      assert OwnedAt(t, c, l) && OwnedAt(t, d, l);
    }
  }

  /** When every context asks for a lock only while it has no other one, and only when the call
      will not wait, then whatever a context has been told it holds it owns, a context whose call
      of wdlock_unlock has come to its end owns no lock at all, and each such call ends behind
      the first lock. */
  lemma {:induction false} CarefulCallers(s: State, t: State, c: nat, l: nat)
    requires Initial(s) && Leads(s, t, Rules(true, true)) && c < |t.ctxs| && l < |t.locks|
    ensures Exclusive(t)
    ensures l in t.ctxs[c].held ==> t.locks[l].owner == Some(c)
    ensures t.ctxs[c].pc.Idle? && t.ctxs[c].locks.None? ==> t.locks[l].owner != Some(c)
    ensures t.locks[l].next.None?
  {
    var r := Rules(true, true);
    var ms :| Runs(s, ms, t, r);
    SizesKept(s, ms, t, r);
    InitialHolds(s);
    InitialTidy(s);
    TidyRun(s, ms, t, r);
    TidyExcludes(t);
    assert OwnedAt(t, c, l);
  }

  // ---- callers that do not ---------------------------------------------------------------------

  /** A run with waiting after which two contexts hold a lock: the owner is not tested again
      after waking. Context `a` gives the lock back, takes it again before the waiting context
      `b` gets on, and `b` takes it as well. Each of them asks with an empty list. */
  lemma {:induction false} BackFromSleep(s: State, a: nat, b: nat, r: Rules) returns (t: State)
    requires Initial(s) && a < |s.ctxs| && b < |s.ctxs| && |s.locks| > 0 && !r.noWait
    requires s.ctxs[a].timestamp > s.ctxs[b].timestamp
    ensures InRange(t) && Leads(s, t, r) && |t.ctxs| == |s.ctxs| && |t.locks| == |s.locks|
    ensures 0 in t.ctxs[a].held && 0 in t.ctxs[b].held
    ensures t.ctxs[a].pc.Idle? && t.ctxs[a].locks == Some(0) && t.ctxs[b].pc.Idle? && t.ctxs[b].locks == Some(0)
    ensures t.locks[0] == Lock(None, None, Some(b), None)
  {
    var x, y, k := s.ctxs[a], s.ctxs[b], s.locks[0];
    var holder, taken := x.(locks := Some(0), held := {0}), k.(owner := Some(a));
    assert x.held + {0} == {0} && y.held + {0} == {0};
    LeadsToItself(s, r);
    Enter(s, s, a, 0, r);
    Takes(s, s, a, x, 0, k, r);
    var s1 := With(s, a, holder, 0, taken);
    InRangeWith(s, a, holder, 0, taken);
    Enter(s, s1, b, 0, r);
    Sleeps(s, s1, b, y, 0, taken, r);
    var s2 := With(s1, b, y.(pc := At(Asleep, 0)), 0, taken);
    InRangeWith(s1, b, y.(pc := At(Asleep, 0)), 0, taken);
    var u := ReleasedAndRetaken(s, s2, a, r);
    var s4 := With(u, a, holder, 0, taken);
    InRangeWith(u, a, holder, 0, taken);
    Enter(s, s4, b, 0, r);
    WakesAndTakes(s, s4, b, y.(pc := At(Wake, 0)), 0, taken, r);
    t := With(s4, b, y.(saved := None, locks := Some(0), held := {0}), 0, taken.(owner := Some(b)));
    InRangeWith(s4, b, y.(saved := None, locks := Some(0), held := {0}), 0, taken.(owner := Some(b)));
  }

  /** Context `a` gives its only lock back, waking who sleeps on it. */
  lemma {:induction false} GivesBack(s0: State, s: State, a: nat, r: Rules) returns (t: State)
    requires InRange(s) && Leads(s0, s, r) && a < |s.ctxs| && |s.locks| > 0
    requires s.ctxs[a].pc.Idle? && s.ctxs[a].locks == Some(0)
    requires s.locks[0].guard.None? && s.locks[0].inner.None? && s.locks[0].next.None?
    ensures InRange(t) && Leads(s0, t, r)
    ensures t.ctxs == Notified(s.ctxs, 0)[a := s.ctxs[a].(locks := None, held := {})]
    ensures t.locks == s.locks[0 := Lock(None, None, None, None)]
  {
    var x, k := s.ctxs[a], s.locks[0];
    Enter(s0, s, a, 0, r);
    StartsToFree(s0, s, a, x, 0, k, r);
    FreesOne(s0, s, a, x.(pc := At(FreeLockGuard, 0), held := {}), 0, k, r);
    var u := State(Notified(s.ctxs, 0), s.locks);
    EndsFreeing(s0, u, a, x.(pc := At(FreeNext, 0), held := {}), 0, k.(owner := None), r);
    t := With(u, a, x.(locks := None, held := {}), 0, k.(owner := None));
    InRangeWith(u, a, x.(locks := None, held := {}), 0, k.(owner := None));
  }

  /** Context `a` gives its only lock back and takes it again. */
  lemma {:induction false} ReleasedAndRetaken(s0: State, s: State, a: nat, r: Rules) returns (u: State)
    requires InRange(s) && Leads(s0, s, r) && a < |s.ctxs| && |s.locks| > 0
    requires s.ctxs[a].pc.Idle? && s.ctxs[a].locks == Some(0)
    requires s.locks[0] == Lock(None, None, Some(a), None)
    ensures u.ctxs == Notified(s.ctxs, 0)[a := s.ctxs[a].(locks := None, held := {})]
    ensures u.locks == s.locks[0 := Lock(None, None, None, None)]
    ensures Stage(s0, u, a, s.ctxs[a].(saved := None, locks := Some(0), held := {0}), 0, s.locks[0], r)
  {
    u := GivesBack(s0, s, a, r);
    assert u.ctxs[a].held + {0} == {0};
    Enter(s0, u, a, 0, r);
    Takes(s0, u, a, u.ctxs[a], 0, u.locks[0], r);
  }

  /** Context `a` has released lock 0 of its list up to reading the next one; context `b` takes
      lock 0 in between. */
  lemma {:induction false} TakenInBetween(s0: State, s: State, a: nat, b: nat, r: Rules) returns (t: State)
    requires InRange(s) && Leads(s0, s, r) && a < |s.ctxs| && b < |s.ctxs| && a != b && |s.locks| > 0
    requires s.ctxs[a].pc.Idle? && s.ctxs[a].locks == Some(0)
    requires s.ctxs[b].pc.Idle? && (r.oneLock ==> s.ctxs[b].locks.None?)
    requires s.locks[0].guard.None? && s.locks[0].inner.None?
    ensures InRange(t) && Leads(s0, t, r) && |t.ctxs| == |s.ctxs|
    ensures t.ctxs[a] == s.ctxs[a].(pc := At(FreeNext, 0), held := {})
    ensures
      var y := s.ctxs[b];
      t.ctxs[b] == y.(saved := y.locks, locks := Some(0), held := y.held + {0})
    ensures forall d {:trigger t.ctxs[d]} ::
              0 <= d < |s.ctxs| && d != a && d != b && s.ctxs[d].pc.Idle? ==> t.ctxs[d] == s.ctxs[d]
    ensures t.locks == s.locks[0 := Lock(None, None, Some(b), s.ctxs[b].locks)]
  {
    var x, y, k := s.ctxs[a], s.ctxs[b], s.locks[0];
    Enter(s0, s, a, 0, r);
    StartsToFree(s0, s, a, x, 0, k, r);
    FreesOne(s0, s, a, x.(pc := At(FreeLockGuard, 0), held := {}), 0, k, r);
    var u := State(Notified(s.ctxs, 0), s.locks);
    var x2, k2 := x.(pc := At(FreeNext, 0), held := {}), k.(owner := None);
    var v := With(u, a, x2, 0, k2);
    InRangeWith(u, a, x2, 0, k2);
    Enter(s0, v, b, 0, r);
    Takes(s0, v, b, y, 0, k2, r);
    var y2, k3 := y.(saved := y.locks, locks := Some(0), held := y.held + {0}), k2.(owner := Some(b), next := y.locks);
    t := With(v, b, y2, 0, k3);
    InRangeWith(v, b, y2, 0, k3);
  }

  /** Context 1 has lock 1 and takes lock 0, so that lock 0 now leads to lock 1, before context 0
      reads from lock 0, which it has let go, where to go on: its release clears lock 1. */
  lemma {:induction false} ClearsAnothers(s: State, r: Rules) returns (t: State)
    requires Initial(s) && |s.ctxs| >= 2 && |s.locks| >= 2 && !r.oneLock
    ensures InRange(t) && Leads(s, t, r) && |t.ctxs| == |s.ctxs| && |t.locks| == |s.locks|
    ensures t.ctxs[0].pc.Idle? && t.ctxs[0].locks.None?
    ensures t.ctxs[1].pc.Idle? && t.ctxs[1].locks == Some(0) && 1 in t.ctxs[1].held
    ensures t.locks[0] == Lock(None, None, Some(1), Some(1)) && t.locks[1] == Lock(None, None, None, None)
  {
    var x, y, k := s.ctxs[0], s.ctxs[1], s.locks[0];
    LeadsToItself(s, r);
    Enter(s, s, 1, 1, r);
    Takes(s, s, 1, y, 1, k, r);
    var y1, k1 := y.(locks := Some(1), held := {1}), k.(owner := Some(1));
    assert y.held + {1} == {1} && x.held + {0} == {0};
    var s1 := With(s, 1, y1, 1, k1);
    InRangeWith(s, 1, y1, 1, k1);
    Enter(s, s1, 0, 0, r);
    Takes(s, s1, 0, x, 0, k, r);
    var x1, k0 := x.(locks := Some(0), held := {0}), k.(owner := Some(0));
    var s2 := With(s1, 0, x1, 0, k0);
    InRangeWith(s1, 0, x1, 0, k0);
    var s3 := TakenInBetween(s, s2, 0, 1, r);
    t := FollowsNext(s, s3, r);
  }

  /** Context 0 follows lock 0 to lock 1, which context 1 has, and ends its release there. */
  lemma {:induction false} FollowsNext(s0: State, s: State, r: Rules) returns (t: State)
    requires InRange(s) && Leads(s0, s, r) && |s.ctxs| >= 2 && |s.locks| >= 2
    requires s.ctxs[0].pc == At(FreeNext, 0) && s.locks[0].next == Some(1)
    requires s.ctxs[1].pc.Idle? && s.locks[1] == Lock(None, None, Some(1), None)
    ensures InRange(t) && Leads(s0, t, r) && |t.ctxs| == |s.ctxs|
    ensures t.ctxs[0] == s.ctxs[0].(pc := Idle, locks := None) && t.ctxs[1] == s.ctxs[1]
    ensures t.locks == s.locks[1 := Lock(None, None, None, None)]
  {
    var x, k := s.ctxs[0], s.locks[1];
    Enter(s0, s, 0, 0, r);
    Advance(s0, s, 0, x, 0, s.locks[0], true, r);
    var x1 := x.(pc := At(FreeLockGuard, 1));
    var s1 := With(s, 0, x1, 0, s.locks[0]);
    InRangeWith(s, 0, x1, 0, s.locks[0]);
    Enter(s0, s1, 0, 1, r);
    FreesOne(s0, s1, 0, x1, 1, k, r);
    var u := State(Notified(s1.ctxs, 1), s1.locks);
    EndsFreeing(s0, u, 0, x.(pc := At(FreeNext, 1)), 1, k.(owner := None), r);
    t := With(u, 0, x.(pc := Idle, locks := None), 1, k.(owner := None));
    InRangeWith(u, 0, x.(pc := Idle, locks := None), 1, k.(owner := None));
  }

  /** A run without waiting after which two contexts hold a lock: wdlock_unlock reads `next` of a
      lock that it has let go. Context 0 has cleared lock 1, which context 1 holds, and takes
      it. */
  lemma {:induction false} StaleNext(s: State, r: Rules) returns (t: State)
    requires Initial(s) && |s.ctxs| >= 2 && |s.locks| >= 2 && !r.oneLock
    ensures Leads(s, t, r) && |t.ctxs| == |s.ctxs| && |t.locks| == |s.locks|
    ensures 1 in t.ctxs[0].held && 1 in t.ctxs[1].held
  {
    var u := ClearsAnothers(s, r);
    var x, k := u.ctxs[0], u.locks[1];
    Enter(s, u, 0, 1, r);
    Takes(s, u, 0, x, 1, k, r);
    t := With(u, 0, x.(saved := None, locks := Some(1), held := x.held + {1}), 1, k.(owner := Some(0)));
  }

  /** Context `a` takes lock 1 and then lock 0. */
  lemma {:induction false} TakesBoth(s: State, a: nat, r: Rules) returns (t: State)
    requires Initial(s) && a < |s.ctxs| && |s.locks| >= 2 && !r.oneLock
    ensures InRange(t) && Leads(s, t, r)
    ensures t.ctxs == s.ctxs[a := s.ctxs[a].(saved := Some(1), locks := Some(0), held := {1} + {0})]
    ensures t.locks == s.locks[0 := Lock(None, None, Some(a), Some(1))][1 := Lock(None, None, Some(a), None)]
  {
    var x, k := s.ctxs[a], s.locks[0];
    LeadsToItself(s, r);
    Enter(s, s, a, 1, r);
    Takes(s, s, a, x, 1, k, r);
    var x1, k1 := x.(locks := Some(1), held := {1}), k.(owner := Some(a));
    assert x.held + {1} == {1};
    var s1 := With(s, a, x1, 1, k1);
    InRangeWith(s, a, x1, 1, k1);
    Enter(s, s1, a, 0, r);
    Takes(s, s1, a, x1, 0, k, r);
    var x2 := x1.(saved := Some(1), locks := Some(0), held := {1} + {0});
    var k0 := k.(owner := Some(a), next := Some(1));
    t := With(s1, a, x2, 0, k0);
    InRangeWith(s1, a, x2, 0, k0);
  }

  /** A run, also without waiting, after which a release has come to its end and left a lock to
      its owner for ever: context `a` has locks 0 and 1, and context `b` takes lock 0 before
      context `a` reads from it where to go on. */
  lemma {:induction false} LeftOwned(s: State, a: nat, b: nat, r: Rules) returns (t: State)
    requires Initial(s) && a < |s.ctxs| && b < |s.ctxs| && a != b && |s.locks| >= 2 && !r.oneLock
    ensures InRange(t) && Leads(s, t, r) && |t.ctxs| == |s.ctxs|
    ensures t.ctxs[a].pc.Idle? && t.ctxs[a].locks.None? && t.ctxs[a].timestamp == s.ctxs[a].timestamp
    ensures t.ctxs[b] == s.ctxs[b].(locks := Some(0), held := {0})
    ensures forall d {:trigger t.ctxs[d]} :: 0 <= d < |s.ctxs| && d != a && d != b ==> t.ctxs[d] == s.ctxs[d]
    ensures t.locks == s.locks[0 := Lock(None, None, Some(b), None)][1 := Lock(None, None, Some(a), None)]
  {
    var s2 := TakesBoth(s, a, r);
    assert s.ctxs[b].held + {0} == {0};
    var s3 := TakenInBetween(s, s2, a, b, r);
    Enter(s, s3, a, 0, r);
    EndsFreeing(s, s3, a, s3.ctxs[a], 0, s3.locks[0], r);
    var x3 := s3.ctxs[a].(pc := Idle, locks := None);
    t := With(s3, a, x3, 0, s3.locks[0]);
    InRangeWith(s3, a, x3, 0, s3.locks[0]);
  }

  // ---- exactly when the lock excludes ----------------------------------------------------------

  lemma {:induction false} NotExclusive(s: State, a: nat, b: nat, l: nat, t: State, r: Rules)
    requires Leads(s, t, r) && a < |t.ctxs| && b < |t.ctxs| && a != b && l < |t.locks|
    requires l in t.ctxs[a].held && l in t.ctxs[b].held
    ensures !Excludes(s, r)
  {
    var c, d := if a < b then a else b, if a < b then b else a;
    assert c < d && l in t.ctxs[c].held && l in t.ctxs[d].held;
  }

  lemma {:induction false} ExcludesWhenCareful(s: State, r: Rules)
    requires Initial(s)
    requires |s.ctxs| <= 1 || |s.locks| == 0 || (r.noWait && (r.oneLock || |s.locks| == 1))
    ensures Excludes(s, r)
  {
    forall t | Leads(s, t, r)
      ensures Exclusive(t)
    {
      var ms :| Runs(s, ms, t, r);
      SizesKept(s, ms, t, r);
      if |s.ctxs| > 1 && |s.locks| > 0 {
        InitialHolds(s);
        InitialTidy(s);
        TidyRun(s, ms, t, r);
        TidyExcludes(t);
      }
    }
  }

  /** With distinct timestamps, no run that keeps to the rules `r` has two contexts hold a lock if
      and only if there are not two contexts or no lock, or the rules forbid calls that wait and
      there is one lock or the rules forbid asking for a second one. */
  lemma {:induction false} ExcludesExactlyWhen(s: State, r: Rules)
    requires Initial(s) && DistinctTimes(s)
    ensures Excludes(s, r) <==>
            |s.ctxs| <= 1 || |s.locks| == 0 || (r.noWait && (r.oneLock || |s.locks| == 1))
  {
    if |s.ctxs| <= 1 || |s.locks| == 0 || (r.noWait && (r.oneLock || |s.locks| == 1)) {
      ExcludesWhenCareful(s, r);
    } else if r.noWait {
      var t := StaleNext(s, r);
      NotExclusive(s, 0, 1, 1, t, r);
    } else {
      assert s.ctxs[0].timestamp != s.ctxs[1].timestamp;
      var a: nat := if s.ctxs[0].timestamp > s.ctxs[1].timestamp then 0 else 1;
      var t := BackFromSleep(s, a, 1 - a, r);
      NotExclusive(s, a, 1 - a, 0, t, r);
    }
  }

  /** Callers that keep to no rule are never excluded from each other, unless there is nothing to
      exclude. */
  lemma {:induction false} NoExclusion(s: State)
    requires Initial(s) && DistinctTimes(s)
    ensures Excludes(s, ANY) <==> |s.ctxs| <= 1 || |s.locks| == 0
  {
    ExcludesExactlyWhen(s, ANY);
  }
}
