/** What a release does to the locks of its context: exactly when it leaves none of them owned,
    exactly when it ends, and exactly for which contexts, locks and habits of the callers it
    always does. */
module WaitDieReleases {
  import opened Common
  import opened WaitDie
  import opened WaitDieRuns
  import opened WaitDieExclusion
  import opened WaitDieProgress

  /** A context that is outside with an empty list owns no lock. */
  ghost predicate Released(s: State) {
    forall c, l: nat {:trigger s.ctxs[c], s.locks[l]} ::
      0 <= c < |s.ctxs| && l < |s.locks| && s.ctxs[c].pc.Idle? && s.ctxs[c].locks.None? ==> s.locks[l].owner != Some(c)
  }

  ghost predicate ReleasesFree(s: State, r: Rules) {
    forall t {:trigger Leads(s, t, r)} :: Leads(s, t, r) ==> Released(t)
  }

  /** The list that begins with `from` is `p`, one lock after the other. */
  ghost predicate Linked(locks: seq<Lock>, from: Option<nat>, p: seq<nat>)
    decreases |p|
  {
    if p == [] then from.None?
    else from == Some(p[0]) && p[0] < |locks| && Linked(locks, locks[p[0]].next, p[1..])
  }

  /** The list that begins with `from` has an end; otherwise it comes back to itself. */
  ghost predicate Ends(locks: seq<Lock>, from: Option<nat>) {
    exists p {:trigger Linked(locks, from, p)} :: Linked(locks, from, p)
  }

  /** No context outside has a ring for its list. */
  ghost predicate NoRing(s: State) {
    forall c {:trigger s.ctxs[c]} ::
      0 <= c < |s.ctxs| && s.ctxs[c].pc.Idle? ==> Ends(s.locks, s.ctxs[c].locks)
  }

  ghost predicate NeverRings(s: State, r: Rules) {
    forall t {:trigger Leads(s, t, r)} :: Leads(s, t, r) ==> NoRing(t)
  }

  lemma {:induction false} LinkedKept(locks: seq<Lock>, locks': seq<Lock>, from: Option<nat>, p: seq<nat>)
    requires Linked(locks, from, p) && |locks'| == |locks|
    requires forall q {:trigger locks'[q]} :: q in p && q < |locks| ==> locks'[q].next == locks[q].next
    ensures Linked(locks', from, p)
    decreases |p|
  {
    if p != [] {
      LinkedKept(locks, locks', locks[p[0]].next, p[1..]);
    }
  }

  /** The list goes on behind its first lock. */
  lemma {:induction false} EndsBehind(locks: seq<Lock>, l: nat)
    requires l < |locks|
    ensures Ends(locks, Some(l)) <==> Ends(locks, locks[l].next)
  {
    if Ends(locks, Some(l)) {
      var p :| Linked(locks, Some(l), p);
      assert Linked(locks, locks[l].next, p[1..]);
    }
    if Ends(locks, locks[l].next) {
      var p :| Linked(locks, locks[l].next, p);
      assert ([l] + p)[1..] == p;
      assert Linked(locks, Some(l), [l] + p);
    }
  }

  // ---- a context that is alone -------------------------------------------------------------------

  /** Where the locks begin that the context still has in its list and has not cleared. */
  function From(x: Ctx, locks: seq<Lock>): Option<nat>
    requires CtxInRange(x, |locks|)
  {
    match x.pc
    case Idle => x.locks
    case Finish => None
    case At(place, l) =>
      match place
      case SetNext => x.saved
      case FreeLockGuard => Some(l)
      case FreeLockInner => Some(l)
      case FreeClear => Some(l)
      case FreeNotify => locks[l].next
      case FreeUnlockInner => locks[l].next
      case FreeUnlockGuard => locks[l].next
      case FreeNext => locks[l].next
      case _ => x.locks
  }

  /** The context owns the locks of the list `p`, and the one that it is just taking. */
  ghost predicate Owns(x: Ctx, locks: seq<Lock>, p: seq<nat>) {
    && CtxInRange(x, |locks|)
    && !(x.pc.At? && Waiting(x.pc.place))
    && Linked(locks, From(x, locks), p)
    && (forall i, j {:trigger p[i], p[j]} :: 0 <= i < j < |p| ==> p[i] != p[j])
    && (x.pc.At? && x.pc.place.SetNext? ==> x.locks == Some(x.pc.l) && x.pc.l !in p)
    && (forall l {:trigger locks[l]} :: 0 <= l < |locks| ==>
          (locks[l].owner == Some(0) <==> l in p || x.pc == At(SetNext, l)))
  }

  /** The list after the next step. */
  function ListAfter(x: Ctx, p: seq<nat>): seq<nat> {
    if x.pc.At? && x.pc.place.SetNext? then [x.pc.l] + p
    else if x.pc.At? && x.pc.place.FreeClear? && p != [] then p[1..]
    else p
  }

  /** The lock that the context has just taken is put in front of its list. */
  lemma {:induction false} ListGrows(x: Ctx, locks: seq<Lock>, p: seq<nat>)
    requires Owns(x, locks, p) && x.pc.At? && x.pc.place.SetNext?
    ensures
      var l := x.pc.l;
      Owns(x.(pc := At(UnlockGuardDone, l)), locks[l := locks[l].(next := x.saved)], [l] + p)
  {
    var l := x.pc.l;
    var locks' := locks[l := locks[l].(next := x.saved)];
    LinkedKept(locks, locks', x.saved, p);
    assert ([l] + p)[1..] == p;
    forall i, j | 0 <= i < j < |[l] + p|
      ensures ([l] + p)[i] != ([l] + p)[j]
    {
      assert ([l] + p)[j] == p[j - 1];
    }
  }

  /** The lock that the context clears is no longer in the rest of its list. */
  lemma {:induction false} ListShrinks(x: Ctx, locks: seq<Lock>, p: seq<nat>)
    requires Owns(x, locks, p) && x.pc.At? && x.pc.place.FreeClear?
    ensures p != [] && Owns(x.(pc := At(FreeNotify, x.pc.l)), locks[x.pc.l := locks[x.pc.l].(owner := None)], p[1..])
  {
    var l := x.pc.l;
    var locks' := locks[l := locks[l].(owner := None)];
    LinkedKept(locks, locks', locks[l].next, p[1..]);
    assert p == [l] + p[1..];
    forall m: nat | m < |locks|
      ensures locks'[m].owner == Some(0) <==> m in p[1..]
    {
      assert m in p <==> m == l || m in p[1..];
      assert locks[m].owner == Some(0) <==> m in p || x.pc == At(SetNext, m);
    }
  }

  /** Every other step leaves the list as it is: what it does to where the list begins, */
  lemma {:induction false} FromStays(x: Ctx, locks: seq<Lock>, later: bool)
    requires CtxInRange(x, |locks|) && x.pc.At? && !Waiting(x.pc.place)
    requires !x.pc.place.SetNext? && !x.pc.place.FreeClear?
    requires x.pc.place.TestOwner? && later ==> locks[x.pc.l].owner.None?
    requires forall l: nat {:trigger locks[l]} :: l < |locks| ==> Indexes(locks[l].next, |locks|)
    ensures
      var x', k' := CtxAfter(x, locks[x.pc.l], later), LockAfter(x, 0, locks[x.pc.l]);
      && CtxInRange(x', |locks|) && !(x'.pc.At? && Waiting(x'.pc.place))
      && k'.next == locks[x.pc.l].next
      && From(x', locks[x.pc.l := k']) == From(x, locks)
      && (x'.pc.At? && x'.pc.place.SetNext? <==> x.pc.place.SetOwner?)
  {
  }

  /** and the rest. */
  lemma {:induction false} ListStays(x: Ctx, locks: seq<Lock>, p: seq<nat>, later: bool)
    requires Owns(x, locks, p) && x.pc.At? && !x.pc.place.SetNext? && !x.pc.place.FreeClear?
    requires PairFits(x, 0, locks[x.pc.l], x.pc.l)
    requires x.pc.place.TestOwner? && later ==> locks[x.pc.l].owner.None?
    requires forall l: nat {:trigger locks[l]} :: l < |locks| ==> Indexes(locks[l].next, |locks|)
    ensures Owns(CtxAfter(x, locks[x.pc.l], later), locks[x.pc.l := LockAfter(x, 0, locks[x.pc.l])], p)
  {
    FromStays(x, locks, later);
    LinkedKept(locks, locks[x.pc.l := LockAfter(x, 0, locks[x.pc.l])], From(x, locks), p);
  }

  /** A step of the only context. */
  lemma {:induction false} AloneStep(s: State, m: Move, p: seq<nat>) returns (p': seq<nat>)
    requires Inv(s) && |s.ctxs| == 1 && Owns(s.ctxs[0], s.locks, p) && Can(s, m)
    ensures |Step(s, m).ctxs| == 1 && Owns(Step(s, m).ctxs[0], Step(s, m).locks, p')
  {
    var x := s.ctxs[0];
    p' := p;
    if m.Go? && x.pc.At? {
      var k := s.locks[x.pc.l];
      assert Fits(s, 0, x.pc.l);
      if x.pc.place.SetNext? {
        ListGrows(x, s.locks, p);
        p' := [x.pc.l] + p;
      } else if x.pc.place.FreeClear? {
        ListShrinks(x, s.locks, p);
        p' := p[1..];
      } else {
        ListStays(x, s.locks, p, OwnerLater(s, x, k));
      }
    }
  }

  lemma {:induction false} AloneRun(s: State, ms: seq<Move>, t: State, r: Rules, p: seq<nat>) returns (q: seq<nat>)
    requires Inv(s) && |s.ctxs| == 1 && Owns(s.ctxs[0], s.locks, p) && Runs(s, ms, t, r)
    ensures |t.ctxs| == 1 && Owns(t.ctxs[0], t.locks, q)
    decreases |ms|
  {
    if ms == [] {
      q := p;
    } else {
      StepKeeps(s, ms[0]);
      var p' := AloneStep(s, ms[0], p);
      q := AloneRun(Step(s, ms[0]), ms[1..], t, r, p');
    }
  }

  /** The list of a context that is alone has an end and holds exactly the locks it owns. */
  lemma {:induction false} AloneListEnds(s: State, t: State, r: Rules)
    requires Initial(s) && |s.ctxs| == 1 && Leads(s, t, r)
    ensures Released(t) && NoRing(t)
  {
    var ms :| Runs(s, ms, t, r);
    InitialHolds(s);
    var q := AloneRun(s, ms, t, r, []);
    if t.ctxs[0].pc.Idle? {
      assert Linked(t.locks, t.ctxs[0].locks, q);
    }
  }

  // ---- exactly when a completed release leaves no lock owned -------------------------------------

  lemma {:induction false} SingleReleases(s: State, t: State, r: Rules)
    requires Initial(s) && Leads(s, t, r) && (r.oneLock || |s.locks| == 1)
    ensures Released(t)
  {
    var ms :| Runs(s, ms, t, r);
    SizesKept(s, ms, t, r);
    if |s.locks| > 0 {
      InitialHolds(s);
      SingleRun(s, ms, t, r);
      forall c, l: nat | 0 <= c < |t.ctxs| && l < |t.locks| && t.ctxs[c].pc.Idle? && t.ctxs[c].locks.None?
        ensures t.locks[l].owner != Some(c)
      {
        assert KeptAt(t, c, l);
      }
    }
  }

  /** In every run that keeps to the rules `r` a release that has come to its end leaves its
      context no lock, if and only if there are not two contexts or not two locks, or the rules
      forbid asking for a second lock. Whether calls may wait makes no difference. */
  lemma {:induction false} ReleasesFreeExactlyWhen(s: State, r: Rules)
    requires Initial(s)
    ensures ReleasesFree(s, r) <==> |s.ctxs| <= 1 || |s.locks| <= 1 || r.oneLock
  {
    if |s.ctxs| <= 1 || |s.locks| <= 1 || r.oneLock {
      forall t | Leads(s, t, r)
        ensures Released(t)
      {
        var ms :| Runs(s, ms, t, r);
        SizesKept(s, ms, t, r);
        if |s.ctxs| == 1 {
          AloneListEnds(s, t, r);
        } else if |s.ctxs| > 1 && |s.locks| > 0 {
          SingleReleases(s, t, r);
        }
      }
    } else {
      var t := LeftOwned(s, 0, 1, r);
      assert t.locks[1].owner == Some(0);
    }
  }

  // ---- rings -------------------------------------------------------------------------------------

  /** A list that leads from a lock to the lock itself has no end. */
  lemma {:induction false} RingOfOne(locks: seq<Lock>, p: seq<nat>)
    requires |locks| > 0 && locks[0].next == Some(0)
    ensures !Linked(locks, Some(0), p)
    decreases |p|
  {
    if p != [] {
      RingOfOne(locks, p[1..]);
    }
  }

  lemma {:induction false} RingOfTwo(locks: seq<Lock>, l: nat, p: seq<nat>)
    requires |locks| > 1 && locks[0].next == Some(1) && locks[1].next == Some(0) && l < 2
    ensures !Linked(locks, Some(l), p)
    decreases |p|
  {
    if p != [] {
      RingOfTwo(locks, 1 - l, p[1..]);
    }
  }

  /** A run with waiting after which a list is a ring of one lock: context `a` has cleared the lock
      of context `b`, see `BackFromSleep`, and context `b` takes it a second time. */
  lemma {:induction false} TakesTwice(s: State, a: nat, b: nat, r: Rules) returns (t: State)
    requires Initial(s) && a < |s.ctxs| && b < |s.ctxs| && |s.locks| > 0 && !r.noWait
    requires s.ctxs[a].timestamp > s.ctxs[b].timestamp
    ensures Leads(s, t, r) && |t.ctxs| == |s.ctxs| && |t.locks| == |s.locks|
    ensures t.ctxs[b].pc.Idle? && t.ctxs[b].locks == Some(0) && t.locks[0].next == Some(0)
  {
    var u := BackFromSleep(s, a, b, r);
    var v := GivesBack(s, u, a, r);
    var y, k := v.ctxs[b], v.locks[0];
    Enter(s, v, b, 0, r);
    Takes(s, v, b, y, 0, k, r);
    t := With(v, b, y.(saved := y.locks, locks := Some(0), held := y.held + {0}), 0,
              k.(owner := Some(b), next := y.locks));
  }

  /** A run without waiting after which a list is a ring of two locks: context 0 has cleared lock 1
      of context 1, see `StaleNext`, and context 1 takes it a second time. */
  lemma {:induction false} TakesClearedAgain(s: State, r: Rules) returns (t: State)
    requires Initial(s) && |s.ctxs| >= 2 && |s.locks| >= 2 && !r.oneLock
    ensures Leads(s, t, r) && |t.ctxs| == |s.ctxs| && |t.locks| == |s.locks|
    ensures t.ctxs[1].pc.Idle? && t.ctxs[1].locks == Some(1)
    ensures t.locks[0].next == Some(1) && t.locks[1].next == Some(0)
  {
    var u := ClearsAnothers(s, r);
    var y, k := u.ctxs[1], u.locks[1];
    Enter(s, u, 1, 1, r);
    Takes(s, u, 1, y, 1, k, r);
    t := With(u, 1, y.(saved := y.locks, locks := Some(1), held := y.held + {1}), 1,
              k.(owner := Some(1), next := y.locks));
  }

  lemma {:induction false} TidyEnds(t: State)
    requires InRange(t) && Tidy(t)
    ensures NoRing(t)
  {
    forall c | 0 <= c < |t.ctxs| && t.ctxs[c].pc.Idle?
      ensures Ends(t.locks, t.ctxs[c].locks)
    {
      var from := t.ctxs[c].locks;
      if from.Some? {
        assert t.locks[from.value].next.None?;
        assert Linked(t.locks, None, []);
        EndsBehind(t.locks, from.value);
      } else {
        assert Linked(t.locks, from, []);
      }
    }
  }

  lemma {:induction false} NoRingWhenCareful(s: State, t: State, r: Rules)
    requires Initial(s) && Leads(s, t, r)
    requires |s.ctxs| <= 1 || |s.locks| == 0 || (r.noWait && (r.oneLock || |s.locks| == 1))
    ensures NoRing(t)
  {
    var ms :| Runs(s, ms, t, r);
    SizesKept(s, ms, t, r);
    InitialHolds(s);
    RunKeeps(s, ms, t, r);
    if |s.ctxs| == 1 {
      AloneListEnds(s, t, r);
    } else if |s.locks| > 0 && |s.ctxs| > 1 {
      InitialTidy(s);
      TidyRun(s, ms, t, r);
      TidyEnds(t);
    } else {
      forall c | 0 <= c < |t.ctxs| && t.ctxs[c].pc.Idle?
        ensures Ends(t.locks, t.ctxs[c].locks)
      {
        assert CtxInRange(t.ctxs[c], 0);
        assert Linked(t.locks, t.ctxs[c].locks, []);
      }
    }
  }

  /** With distinct timestamps, no run that keeps to the rules `r` makes the list of a context a
      ring if and only if the lock excludes, see `ExcludesExactlyWhen`. */
  lemma {:induction false} NeverRingsExactlyWhen(s: State, r: Rules)
    requires Initial(s) && DistinctTimes(s)
    ensures NeverRings(s, r) <==>
            |s.ctxs| <= 1 || |s.locks| == 0 || (r.noWait && (r.oneLock || |s.locks| == 1))
    ensures NeverRings(s, r) <==> Excludes(s, r)
  {
    ExcludesExactlyWhen(s, r);
    if |s.ctxs| <= 1 || |s.locks| == 0 || (r.noWait && (r.oneLock || |s.locks| == 1)) {
      forall t | Leads(s, t, r)
        ensures NoRing(t)
      {
        NoRingWhenCareful(s, t, r);
      }
    } else if r.noWait {
      var t := TakesClearedAgain(s, r);
      if Ends(t.locks, t.ctxs[1].locks) {
        var p :| Linked(t.locks, t.ctxs[1].locks, p);
        RingOfTwo(t.locks, 1, p);
      }
      assert !NoRing(t);
    } else {
      assert s.ctxs[0].timestamp != s.ctxs[1].timestamp;
      var a: nat := if s.ctxs[0].timestamp > s.ctxs[1].timestamp then 0 else 1;
      var t := TakesTwice(s, a, 1 - a, r);
      if Ends(t.locks, t.ctxs[1 - a].locks) {
        var p :| Linked(t.locks, t.ctxs[1 - a].locks, p);
        RingOfOne(t.locks, p);
      }
      assert !NoRing(t);
    }
  }

  // ---- when a release ends -----------------------------------------------------------------------

  /** No other context holds a mutex of a lock. */
  ghost predicate Undisturbed(s: State, c: nat) {
    forall l {:trigger s.locks[l]} :: 0 <= l < |s.locks| ==>
      && (s.locks[l].guard.None? || s.locks[l].guard == Some(c))
      && (s.locks[l].inner.None? || s.locks[l].inner == Some(c))
  }

  /** Up to `n` steps of context `c` and of nobody else. */
  ghost function Alone(s: State, c: nat, n: nat): (t: State)
    requires InRange(s)
    ensures InRange(t) && |t.ctxs| == |s.ctxs|
    decreases n
  {
    if n == 0 || !Can(s, Go(c)) then s
    else
      RangeKept(s, Go(c));
      Alone(Step(s, Go(c)), c, n - 1)
  }

  lemma {:induction false} OneStepAlone(s: State, c: nat, n: nat)
    requires InRange(s) && Can(s, Go(c)) && n > 0 && InRange(Step(s, Go(c)))
    ensures Alone(s, c, n) == Alone(Step(s, Go(c)), c, n - 1)
  {
  }

  /** The steps that a release takes at a lock before it reads where to go on. */
  function Left(p: Place): nat
    requires Freeing(p)
  {
    match p
    case FreeLockGuard => 6
    case FreeLockInner => 5
    case FreeClear => 4
    case FreeNotify => 3
    case FreeUnlockInner => 2
    case FreeUnlockGuard => 1
    case FreeNext => 0
  }

  ghost predicate InRelease(s: State, c: nat) {
    && Inv(s) && Undisturbed(s, c)
    && c < |s.ctxs| && s.ctxs[c].pc.At? && Freeing(s.ctxs[c].pc.place)
  }

  /** An undisturbed release can go on, and does not change what any lock leads to. */
  lemma {:induction false} ReleaseStep(s: State, c: nat)
    requires InRelease(s, c)
    ensures Can(s, Go(c))
    ensures
      var s' := Step(s, Go(c));
      && Inv(s') && Undisturbed(s', c) && |s'.ctxs| == |s.ctxs| && |s'.locks| == |s.locks|
      && forall l {:trigger s'.locks[l]} :: 0 <= l < |s.locks| ==> s'.locks[l].next == s.locks[l].next
    ensures
      var x, y := s.ctxs[c], Step(s, Go(c)).ctxs[c];
      if x.pc.place.FreeNext? then y.pc == Start(s.locks[x.pc.l].next)
      else y.pc.At? && y.pc.l == x.pc.l && Freeing(y.pc.place) && Left(y.pc.place) < Left(x.pc.place)
  {
    assert Fits(s, c, s.ctxs[c].pc.l);
    StepKeeps(s, Go(c));
    RangeKept(s, Go(c));
  }

  lemma {:induction false} StillOnRing(s: State, c: nat)
    requires InRelease(s, c) && !Ends(s.locks, Some(s.ctxs[c].pc.l))
    ensures
      && Can(s, Go(c)) && InRelease(Step(s, Go(c)), c)
      && !Ends(Step(s, Go(c)).locks, Some(Step(s, Go(c)).ctxs[c].pc.l))
  {
    ReleaseStep(s, c);
    var l, s' := s.ctxs[c].pc.l, Step(s, Go(c));
    SameLists(s.locks, s'.locks, Some(l));
    SameLists(s.locks, s'.locks, s.locks[l].next);
    EndsBehind(s.locks, l);
    if s.ctxs[c].pc.place.FreeNext? && s.locks[l].next.None? {
      assert Linked(s.locks, None, []);
    }
  }

  /** A release of a ring goes on and on. */
  lemma {:induction false} RingGoesOn(s: State, c: nat, n: nat)
    requires InRelease(s, c) && !Ends(s.locks, Some(s.ctxs[c].pc.l))
    ensures !Alone(s, c, n).ctxs[c].pc.Idle?
    decreases n
  {
    if n > 0 {
      StillOnRing(s, c);
      var s' := Step(s, Go(c));
      RingGoesOn(s', c, n - 1);
      OneStepAlone(s, c, n);
    }
  }

  lemma {:induction false} SameLists(locks: seq<Lock>, locks': seq<Lock>, from: Option<nat>)
    requires |locks'| == |locks|
    requires forall l {:trigger locks'[l]} :: 0 <= l < |locks| ==> locks'[l].next == locks[l].next
    ensures Ends(locks', from) <==> Ends(locks, from)
  {
    if Ends(locks, from) {
      var p :| Linked(locks, from, p);
      LinkedKept(locks, locks', from, p);
    }
    if Ends(locks', from) {
      var p :| Linked(locks', from, p);
      LinkedKept(locks', locks, from, p);
    }
  }

  lemma {:induction false} LastStep(s: State, c: nat)
    requires InRange(s) && c < |s.ctxs| && s.ctxs[c].pc.Finish?
    ensures Alone(s, c, 1).ctxs[c].pc.Idle? && Alone(s, c, 1).ctxs[c].locks.None?
  {
    RangeKept(s, Go(c));
    assert Alone(Step(s, Go(c)), c, 0) == Step(s, Go(c));
  }

  lemma {:induction false} StillOnList(s: State, c: nat, p: seq<nat>) returns (q: seq<nat>)
    requires InRelease(s, c) && Linked(s.locks, Some(s.ctxs[c].pc.l), p)
    requires s.ctxs[c].pc.place.FreeNext? ==> s.locks[s.ctxs[c].pc.l].next.Some?
    ensures
      && Can(s, Go(c)) && InRelease(Step(s, Go(c)), c)
      && Linked(Step(s, Go(c)).locks, Some(Step(s, Go(c)).ctxs[c].pc.l), q)
    ensures
      var x, y := s.ctxs[c], Step(s, Go(c)).ctxs[c];
      if x.pc.place.FreeNext? then |q| < |p| else |q| == |p| && Left(y.pc.place) < Left(x.pc.place)
  {
    ReleaseStep(s, c);
    LinkedKept(s.locks, Step(s, Go(c)).locks, Some(s.ctxs[c].pc.l), p);
    q := if s.ctxs[c].pc.place.FreeNext? then p[1..] else p;
  }

  /** A release of a list with an end comes to its end. */
  lemma {:induction false} ListIsReleased(s: State, c: nat, p: seq<nat>) returns (n: nat)
    requires InRelease(s, c) && Linked(s.locks, Some(s.ctxs[c].pc.l), p)
    ensures Alone(s, c, n).ctxs[c].pc.Idle? && Alone(s, c, n).ctxs[c].locks.None?
    decreases |p|, Left(s.ctxs[c].pc.place)
  {
    if s.ctxs[c].pc.place.FreeNext? && s.locks[s.ctxs[c].pc.l].next.None? {
      ReleaseStep(s, c);
      LastStep(Step(s, Go(c)), c);
      n := 2;
    } else {
      var q := StillOnList(s, c, p);
      var m := ListIsReleased(Step(s, Go(c)), c, q);
      n := m + 1;
      OneStepAlone(s, c, n);
    }
  }

  /** A release that is left alone ends if and only if its list has an end. */
  lemma {:induction false} ReleaseEndsExactlyWhen(s: State, c: nat)
    requires InRelease(s, c)
    ensures (exists n: nat :: Alone(s, c, n).ctxs[c].pc.Idle?) <==> Ends(s.locks, Some(s.ctxs[c].pc.l))
  {
    if Ends(s.locks, Some(s.ctxs[c].pc.l)) {
      var p :| Linked(s.locks, Some(s.ctxs[c].pc.l), p);
      var n := ListIsReleased(s, c, p);
    } else {
      forall n: nat
        ensures !Alone(s, c, n).ctxs[c].pc.Idle?
      {
        RingGoesOn(s, c, n);
      }
    }
  }
}
