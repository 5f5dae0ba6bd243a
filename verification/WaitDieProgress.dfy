/** Whether contexts can be left asleep on a wait-die lock although every caller has released what
    it has taken: exactly for which contexts, locks and habits of the callers they cannot. */
module WaitDieProgress {
  import opened Common
  import opened WaitDie
  import opened WaitDieRuns
  import opened WaitDieExclusion

  /** No call in progress can take a step. */
  ghost predicate AtRest(s: State)
    requires InRange(s)
  {
    forall c {:trigger Go(c)} :: 0 <= c < |s.ctxs| ==> !Can(s, Go(c))
  }

  /** Every context that is outside has released all its locks, nobody can go on, and some
      context sleeps. */
  ghost predicate Stranded(s: State) {
    && InRange(s) && AtRest(s)
    && (forall c {:trigger s.ctxs[c]} :: 0 <= c < |s.ctxs| && s.ctxs[c].pc.Idle? ==> s.ctxs[c].locks.None?)
    && exists c {:trigger s.ctxs[c]} :: 0 <= c < |s.ctxs| && !s.ctxs[c].pc.Idle?
  }

  ghost predicate NeverStrands(s: State, r: Rules) {
    forall t {:trigger Leads(s, t, r)} :: Leads(s, t, r) ==> !Stranded(t)
  }

  // ---- callers that take one lock at a time ------------------------------------------------------

  /** A context that has no lock other than the one it is at. */
  ghost predicate CtxSingle(x: Ctx) {
    x.pc.At? ==>
      && (x.locks.None? || x.locks == Some(x.pc.l))
      && (x.saved.Some? && x.pc.place.SetNext? ==> x.saved == Some(x.pc.l))
      && (Freeing(x.pc.place) || x.pc.place.SetNext? || x.pc.place.UnlockGuardDone? ==> x.locks.Some?)
  }

  predicate LockSingle(k: Lock, l: nat) {
    k.next.None? || k.next == Some(l)
  }

  /** A lock that the context owns is in its list, and the context does not wait for it. */
  ghost predicate Kept(x: Ctx, c: nat, k: Lock, l: nat) {
    k.owner == Some(c) ==> x.locks == Some(l) && !Cleared(x.pc) && !(x.pc.At? && Waiting(x.pc.place))
  }

  ghost predicate KeptAt(s: State, c: nat, l: nat)
    requires c < |s.ctxs| && l < |s.locks|
  {
    Kept(s.ctxs[c], c, s.locks[l], l)
  }

  ghost predicate Single(s: State) {
    && (forall c {:trigger s.ctxs[c]} :: 0 <= c < |s.ctxs| ==> CtxSingle(s.ctxs[c]))
    && (forall l {:trigger s.locks[l]} :: 0 <= l < |s.locks| ==> LockSingle(s.locks[l], l))
    && (forall c, l {:trigger KeptAt(s, c, l)} :: 0 <= c < |s.ctxs| && 0 <= l < |s.locks| ==> KeptAt(s, c, l))
  }

  lemma {:induction false} OwnSingle(x: Ctx, c: nat, k: Lock, later: bool)
    requires x.pc.At? && CtxSingle(x) && LockSingle(k, x.pc.l) && Kept(x, c, k, x.pc.l)
    requires PairFits(x, c, k, x.pc.l) && (k.owner == Some(c) ==> !later)
    ensures CtxSingle(CtxAfter(x, k, later)) && LockSingle(LockAfter(x, c, k), x.pc.l)
    ensures Kept(CtxAfter(x, k, later), c, LockAfter(x, c, k), x.pc.l)
  {
  }

  lemma {:induction false} OtherLockSingle(x: Ctx, c: nat, k: Lock, later: bool, k': Lock, l': nat)
    requires x.pc.At? && CtxSingle(x) && Kept(x, c, k', l') && l' != x.pc.l
    ensures Kept(CtxAfter(x, k, later), c, k', l')
  {
  }

  lemma {:induction false} OtherCtxSingle(x: Ctx, c: nat, k: Lock, y: Ctx, d: nat)
    requires x.pc.At? && c != d && Kept(y, d, k, x.pc.l)
    ensures Kept(y, d, LockAfter(x, c, k), x.pc.l)
  {
  }

  lemma {:induction false} WokenSingle(x: Ctx, c: nat, k: Lock, l: nat, m: nat)
    requires CtxSingle(x) && Kept(x, c, k, l)
    ensures CtxSingle(WokenUp(x, m)) && Kept(WokenUp(x, m), c, k, l)
  {
  }

  lemma {:induction false} SingleAt(s: State, c: nat, d: nat, l: nat)
    requires Inv(s) && Single(s) && Can(s, Go(c)) && s.ctxs[c].pc.At?
    requires d < |s.ctxs| && l < |s.locks|
    ensures
      var s' := GoOn(s, c);
      CtxSingle(s'.ctxs[d]) && LockSingle(s'.locks[l], l) && Kept(s'.ctxs[d], d, s'.locks[l], l)
  {
    var x := s.ctxs[c];
    var k := s.locks[x.pc.l];
    var later := OwnerLater(s, x, k);
    assert KeptAt(s, c, x.pc.l) && KeptAt(s, d, l) && Fits(s, c, x.pc.l) && KeptAt(s, c, l) && KeptAt(s, d, x.pc.l);
    if c == d {
      OwnSingle(x, c, k, later && k.owner != Some(c));
      if l != x.pc.l {
        OtherLockSingle(x, c, k, later, s.locks[l], l);
      }
    } else {
      OwnSingle(x, c, k, later && k.owner != Some(c));
      WokenSingle(s.ctxs[d], d, s.locks[l], l, x.pc.l);
      WokenSingle(s.ctxs[d], d, k, x.pc.l, x.pc.l);
      OtherCtxSingle(x, c, k, GoOn(s, c).ctxs[d], d);
    }
  }

  lemma {:induction false} QuietSingle(s: State, m: Move, d: nat, l: nat)
    requires InRange(s) && Single(s) && Can(s, m) && Obeys(s, m, Rules(true, false))
    requires (m.Go? ==> s.ctxs[m.c].pc.Finish?) && d < |s.ctxs| && l < |s.locks|
    ensures
      var s' := Step(s, m);
      CtxSingle(s'.ctxs[d]) && LockSingle(s'.locks[l], l) && Kept(s'.ctxs[d], d, s'.locks[l], l)
  {
    assert KeptAt(s, d, l) && CtxSingle(s.ctxs[m.c]) && CtxSingle(s.ctxs[d]);
  }

  lemma {:induction false} SingleKept(s: State, m: Move)
    requires Inv(s) && Single(s) && Can(s, m) && Obeys(s, m, Rules(true, false)) && |s.locks| > 0
    ensures Single(Step(s, m))
  {
    var s' := Step(s, m);
    RangeKept(s, m);
    forall d, l | 0 <= d < |s'.ctxs| && 0 <= l < |s'.locks|
      ensures CtxSingle(s'.ctxs[d]) && LockSingle(s'.locks[l], l) && KeptAt(s', d, l)
    {
      if m.Go? && s.ctxs[m.c].pc.At? {
        SingleAt(s, m.c, d, l);
      } else {
        QuietSingle(s, m, d, l);
      }
    }
    forall d | 0 <= d < |s'.ctxs|
      ensures CtxSingle(s'.ctxs[d])
    {
      assert KeptAt(s', d, 0);
    }
    forall l | 0 <= l < |s'.locks|
      ensures LockSingle(s'.locks[l], l)
    {
      assert KeptAt(s', m.c, l);
    }
  }

  lemma {:induction false} SingleRun(s: State, ms: seq<Move>, t: State, r: Rules)
    requires Inv(s) && Single(s) && Runs(s, ms, t, r) && (r.oneLock || |s.locks| == 1) && |s.locks| > 0
    ensures Inv(t) && Single(t)
    decreases |ms|
  {
    if ms != [] {
      assert CtxInRange(s.ctxs[ms[0].c], |s.locks|);
      assert Obeys(s, ms[0], Rules(true, false));
      StepKeeps(s, ms[0]);
      RangeKept(s, ms[0]);
      SingleKept(s, ms[0]);
      SingleRun(Step(s, ms[0]), ms[1..], t, r);
    }
  }

  /** When contexts ask for a lock only while they have no other one, or there is one lock, and no
      call can go on, then whoever sleeps does so on a lock of which the owner is outside and
      still has it in its list: the release that will wake the sleeper is up to the caller. This
      holds although the lock does not exclude, as soon as calls may wait. */
  lemma {:induction false} SleepersAwaitCallers(s: State, t: State, r: Rules, c: nat)
    requires Initial(s) && Leads(s, t, r) && (r.oneLock || |s.locks| == 1) && InRange(t) && AtRest(t)
    requires c < |t.ctxs| && !t.ctxs[c].pc.Idle?
    ensures t.ctxs[c].pc.At? && t.ctxs[c].pc.place.Asleep?
    ensures
      var l := t.ctxs[c].pc.l;
      t.locks[l].owner.Some? && var x := t.ctxs[t.locks[l].owner.value]; x.pc.Idle? && x.locks == Some(l)
  {
    var ms :| Runs(s, ms, t, r);
    SizesKept(s, ms, t, r);
    AnyRun(s, ms, t, r);
    assert Leads(s, t, ANY);
    OnlyOwnersAwaited(t);
    var l := t.ctxs[c].pc.l;
    InitialHolds(s);
    SingleRun(s, ms, t, r);
    var d := t.locks[l].owner.value;
    assert KeptAt(t, d, l);
  }

  /** Runs that keep to rules are runs. */
  lemma {:induction false} AnyRun(s: State, ms: seq<Move>, t: State, r: Rules)
    requires Runs(s, ms, t, r)
    ensures Runs(s, ms, t, ANY)
    decreases |ms|
  {
    if ms != [] {
      AnyRun(Step(s, ms[0]), ms[1..], t, r);
    }
  }

  // ---- callers that never wait, and a context that is alone --------------------------------------

  ghost predicate NobodyWaits(s: State) {
    forall c {:trigger s.ctxs[c]} :: 0 <= c < |s.ctxs| ==> !(s.ctxs[c].pc.At? && Waiting(s.ctxs[c].pc.place))
  }

  lemma {:induction false} OwnNotWaiting(x: Ctx, k: Lock, later: bool)
    requires x.pc.At? && !Waiting(x.pc.place) && (x.pc.place.TestOwner? ==> k.owner.None? || !later)
    ensures var x' := CtxAfter(x, k, later); !(x'.pc.At? && Waiting(x'.pc.place))
  {
  }

  lemma {:induction false} NobodyWaitsKept(s: State, m: Move, r: Rules)
    requires NobodyWaits(s) && InRange(s) && Can(s, m) && Obeys(s, m, r) && (r.noWait || |s.ctxs| == 1)
    ensures NobodyWaits(Step(s, m))
  {
    var x := s.ctxs[m.c];
    if m.Go? && x.pc.At? {
      var k := s.locks[x.pc.l];
      OwnNotWaiting(x, k, OwnerLater(s, x, k));
    }
  }

  lemma {:induction false} NobodyWaitsRun(s: State, ms: seq<Move>, t: State, r: Rules)
    requires NobodyWaits(s) && Runs(s, ms, t, r) && (r.noWait || |s.ctxs| == 1)
    ensures NobodyWaits(t)
    decreases |ms|
  {
    if ms != [] {
      RangeKept(s, ms[0]);
      NobodyWaitsKept(s, ms[0], r);
      NobodyWaitsRun(Step(s, ms[0]), ms[1..], t, r);
    }
  }

  // ---- callers that do neither -----------------------------------------------------------------

  lemma {:induction false} AsleepAlone(t: State, b: nat)
    requires InRange(t) && b < |t.ctxs| && t.ctxs[b].pc.At? && t.ctxs[b].pc.place.Asleep?
    requires forall d {:trigger t.ctxs[d]} ::
               0 <= d < |t.ctxs| && d != b ==> t.ctxs[d].pc.Idle? && t.ctxs[d].locks.None?
    ensures Stranded(t)
  {
  }

  /** A run after which context `b` sleeps on lock 1 and context `a` owns it, and both have
      released all their locks: the release of context `a` has missed lock 1, see `LeftOwned`. */
  lemma {:induction false} LeftAsleep(s: State, a: nat, b: nat, r: Rules) returns (t: State)
    requires Initial(s) && a < |s.ctxs| && b < |s.ctxs| && a != b && |s.locks| >= 2 && !r.oneLock && !r.noWait
    requires s.ctxs[a].timestamp > s.ctxs[b].timestamp
    ensures Leads(s, t, r) && Stranded(t)
  {
    var u := LeftOwned(s, a, b, r);
    var w := GivesBack(s, u, b, r);
    var y, k := w.ctxs[b], w.locks[1];
    Enter(s, w, b, 1, r);
    Sleeps(s, w, b, y, 1, k, r);
    t := With(w, b, y.(pc := At(Asleep, 1)), 1, k);
    InRangeWith(w, b, y.(pc := At(Asleep, 1)), 1, k);
    AsleepAlone(t, b);
  }

  // ---- exactly when nobody is left asleep --------------------------------------------------------

  lemma {:induction false} StrandsOnlyWhen(s: State, t: State, r: Rules)
    requires Initial(s) && Leads(s, t, r) && Stranded(t)
    ensures |s.ctxs| >= 2 && |s.locks| >= 2 && !r.oneLock && !r.noWait
  {
    var ms :| Runs(s, ms, t, r);
    SizesKept(s, ms, t, r);
    AnyRun(s, ms, t, r);
    assert Leads(s, t, ANY);
    OnlyOwnersAwaited(t);
    var c :| 0 <= c < |t.ctxs| && !t.ctxs[c].pc.Idle?;
    if r.noWait || |s.ctxs| == 1 {
      NobodyWaitsRun(s, ms, t, r);
    }
    if r.oneLock || |s.locks| == 1 {
      SleepersAwaitCallers(s, t, r, c);
    }
  }

  /** With distinct timestamps, no run that keeps to the rules `r` comes to rest with a context
      asleep and every context outside having released its locks, if and only if there are not two
      contexts or not two locks, or the rules forbid calls that wait or asking for a second lock. */
  lemma {:induction false} NeverStrandsExactlyWhen(s: State, r: Rules)
    requires Initial(s) && DistinctTimes(s)
    ensures NeverStrands(s, r) <==> |s.ctxs| <= 1 || |s.locks| <= 1 || r.noWait || r.oneLock
  {
    if |s.ctxs| <= 1 || |s.locks| <= 1 || r.noWait || r.oneLock {
      forall t | Leads(s, t, r)
        ensures !Stranded(t)
      {
        if Stranded(t) {
          StrandsOnlyWhen(s, t, r);
        }
      }
    } else {
      assert s.ctxs[0].timestamp != s.ctxs[1].timestamp;
      var a: nat := if s.ctxs[0].timestamp > s.ctxs[1].timestamp then 0 else 1;
      var t := LeftAsleep(s, a, 1 - a, r);
    }
  }
}
