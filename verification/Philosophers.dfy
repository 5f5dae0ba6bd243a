/** Dining philosophers who pick up the lower-numbered fork first and eat numbered dishes from
    one table. Every lock, unlock and access to the food is one step. */
module Philosophers {
  import opened Common

  /** What a philosopher does next; `dish` is the number it was handed. */
  datatype Phil =
    | LockFood | TakeFood | UnlockFood(dish: nat)
    | GetMin(dish: nat) | GetMax(dish: nat) | Eat(dish: nat) | DownMax(dish: nat) | DownMin(dish: nat)
    | Done

  /** `served` are the dishes handed out so far, in order, and `eaten` those eaten, in order. */
  datatype State = State(
    food: nat, foodlock: Option<nat>, forks: seq<Option<nat>>, phils: seq<Phil>,
    served: seq<nat>, eaten: seq<nat>)

  // ---- the forks -----------------------------------------------------------------------------

  /** Forks wrap round the table. */
  function LeftFork(p: nat, n: nat): nat {
    if p + 1 == n then 0 else p + 1
  }

  function MinFork(p: nat, n: nat): (f: nat)
    ensures p < n ==> f < n
  {
    if p < LeftFork(p, n) then p else LeftFork(p, n)
  }

  function MaxFork(p: nat, n: nat): (f: nat)
    ensures p < n ==> f < n
  {
    if LeftFork(p, n) < p then p else LeftFork(p, n)
  }

  /** The forks of a philosopher are those with its own number and with the next one round the
      table, and it picks up the lower one first. */
  lemma {:induction false} ForksOf(p: nat, n: nat)
    requires p < n
    ensures LeftFork(p, n) == (p + 1) % n
    ensures MinFork(p, n) <= MaxFork(p, n) && (n > 1 ==> MinFork(p, n) < MaxFork(p, n))
    ensures {MinFork(p, n), MaxFork(p, n)} == {p, (p + 1) % n}
  {
    if p + 1 == n {
      assert (p + 1) % n == 0;
    }
  }

  predicate HasMin(x: Phil) {
    x.GetMax? || x.Eat? || x.DownMax? || x.DownMin?
  }

  predicate HasMax(x: Phil) {
    x.Eat? || x.DownMax?
  }

  predicate HasFork(x: Phil, p: nat, n: nat, f: nat) {
    (HasMin(x) && f == MinFork(p, n)) || (HasMax(x) && f == MaxFork(p, n))
  }

  predicate AtTable(x: Phil) {
    x.TakeFood? || x.UnlockFood?
  }

  // ---- steps ---------------------------------------------------------------------------------

  /** All philosophers about to ask for their first dish. */
  function Initial(n: nat, food: nat): State {
    State(food, None, seq(n, _ => None), seq(n, _ => LockFood), [], [])
  }

  predicate WellFormed(s: State) {
    |s.forks| == |s.phils|
  }

  predicate Can(s: State, p: nat)
    requires WellFormed(s)
  {
    && p < |s.phils|
    && match s.phils[p]
       case LockFood => s.foodlock.None?
       case GetMin(_) => s.forks[MinFork(p, |s.phils|)].None?
       case GetMax(_) => s.forks[MaxFork(p, |s.phils|)].None?
       case Done => false
       case _ => true
  }

  /** What food_on_table leaves, and hands out. */
  function OneLess(food: nat): nat {
    if food > 0 then food - 1 else food
  }

  function Next(x: Phil, food: nat): Phil {
    match x
    case LockFood => TakeFood
    case TakeFood => UnlockFood(OneLess(food))
    case UnlockFood(dish) => if dish == 0 then Done else GetMin(dish)
    case GetMin(dish) => GetMax(dish)
    case GetMax(dish) => Eat(dish)
    case Eat(dish) => DownMax(dish)
    case DownMax(dish) => DownMin(dish)
    case DownMin(_) => LockFood
    case Done => Done
  }

  function Step(s: State, p: nat): (r: State)
    requires WellFormed(s) && Can(s, p)
    ensures WellFormed(r) && |r.phils| == |s.phils|
  {
    var n := |s.phils|;
    var x := s.phils[p];
    var s' := s.(phils := s.phils[p := Next(x, s.food)]);
    match x
    case LockFood => s'.(foodlock := Some(p))
    case TakeFood => s'.(food := OneLess(s.food),
                         served := if OneLess(s.food) > 0 then s.served + [OneLess(s.food)] else s.served)
    case UnlockFood(_) => s'.(foodlock := None)
    case GetMin(_) => s'.(forks := s.forks[MinFork(p, n) := Some(p)])
    case GetMax(_) => s'.(forks := s.forks[MaxFork(p, n) := Some(p)])
    case Eat(dish) => s'.(eaten := s.eaten + [dish])
    case DownMax(_) => s'.(forks := s.forks[MaxFork(p, n) := None])
    case DownMin(_) => s'.(forks := s.forks[MinFork(p, n) := None])
    case _ => s'
  }

  // ---- the invariant -------------------------------------------------------------------------

  ghost predicate ForkFits(s: State, p: nat, f: nat)
    requires p < |s.phils| && f < |s.forks|
  {
    s.forks[f] == Some(p) <==> HasFork(s.phils[p], p, |s.phils|, f)
  }

  /** A philosopher on the way to eat a dish, or from it. */
  predicate AtFood(x: Phil) {
    x.GetMin? || x.GetMax? || x.Eat? || x.DownMax? || x.DownMin? || (x.UnlockFood? && x.dish > 0)
  }

  ghost predicate PhilFits(s: State, p: nat, total: nat)
    requires p < |s.phils|
  {
    && (HasMax(s.phils[p]) ==> |s.phils| >= 2)
    && (AtFood(s.phils[p]) ==> total >= 2)
    && (s.foodlock == Some(p) <==> AtTable(s.phils[p]))
    && (s.phils[p].Done? || s.phils[p] == UnlockFood(0) ==> s.food == 0)
  }

  /** Forks and the table are with philosophers. */
  ghost predicate HoldersExist(s: State) {
    && (s.foodlock.Some? ==> s.foodlock.value < |s.phils|)
    && forall f {:trigger s.forks[f]} :: 0 <= f < |s.forks| && s.forks[f].Some? ==> s.forks[f].value < |s.phils|
  }

  /** The dishes served are the highest numbers, counting down, as far as the food is gone. */
  ghost predicate Counted(served: seq<nat>, total: nat, food: nat) {
    && food <= total
    && (forall i :: 0 <= i < |served| ==> served[i] == total - 1 - i)
    && (food > 0 ==> |served| == total - food)
    && (food == 0 && total > 0 ==> |served| == total - 1)
    && (total == 0 ==> served == [])
  }

  ghost predicate Inv(s: State, total: nat) {
    && WellFormed(s) && HoldersExist(s)
    && (forall p, f {:trigger ForkFits(s, p, f)} :: 0 <= p < |s.phils| && 0 <= f < |s.forks| ==> ForkFits(s, p, f))
    && (forall p {:trigger PhilFits(s, p, total)} :: 0 <= p < |s.phils| ==> PhilFits(s, p, total))
    && Counted(s.served, total, s.food)
  }

  lemma {:induction false} InitialHolds(n: nat, total: nat)
    ensures Inv(Initial(n, total), total)
  {
  }

  /** A step at the forks: the stepping philosopher's own forks. */
  lemma {:induction false} OwnForks(s: State, p: nat, f: nat, total: nat)
    requires Inv(s, total) && Can(s, p) && f < |s.forks|
    ensures ForkFits(Step(s, p), p, f)
  {
    assert PhilFits(s, p, total);
    assert ForkFits(s, p, f) && ForkFits(s, p, MinFork(p, |s.phils|)) && ForkFits(s, p, MaxFork(p, |s.phils|));
  }

  lemma {:induction false} OtherForks(s: State, p: nat, q: nat, f: nat, total: nat)
    requires Inv(s, total) && Can(s, p) && f < |s.forks| && q < |s.phils| && q != p
    ensures ForkFits(Step(s, p), q, f)
  {
    assert ForkFits(s, p, f) && ForkFits(s, q, f);
  }

  lemma {:induction false} PhilKept(s: State, p: nat, q: nat, total: nat)
    requires Inv(s, total) && Can(s, p) && q < |s.phils|
    ensures PhilFits(Step(s, p), q, total)
  {
    assert PhilFits(s, p, total) && PhilFits(s, q, total) && ForkFits(s, p, MinFork(p, |s.phils|));
  }

  lemma {:induction false} StepKeeps(s: State, p: nat, total: nat)
    requires Inv(s, total) && Can(s, p)
    ensures Inv(Step(s, p), total)
  {
    var s' := Step(s, p);
    forall q, f | 0 <= q < |s'.phils| && 0 <= f < |s'.forks|
      ensures ForkFits(s', q, f)
    {
      if q == p {
        OwnForks(s, p, f, total);
      } else {
        OtherForks(s, p, q, f, total);
      }
    }
    forall q | 0 <= q < |s'.phils|
      ensures PhilFits(s', q, total)
    {
      PhilKept(s, p, q, total);
    }
  }

  // ---- whole runs --------------------------------------------------------------------------

  predicate Runs(s: State, turns: seq<nat>)
    requires WellFormed(s)
    decreases |turns|
  {
    turns != [] ==> Can(s, turns[0]) && Runs(Step(s, turns[0]), turns[1..])
  }

  function After(s: State, turns: seq<nat>): (r: State)
    requires WellFormed(s) && Runs(s, turns)
    ensures WellFormed(r) && |r.phils| == |s.phils|
    decreases |turns|
  {
    if turns == [] then s else After(Step(s, turns[0]), turns[1..])
  }

  lemma {:induction false} RunKeeps(s: State, turns: seq<nat>, total: nat)
    requires Inv(s, total) && Runs(s, turns)
    ensures Inv(After(s, turns), total)
    decreases |turns|
  {
    if turns != [] {
      StepKeeps(s, turns[0], total);
      RunKeeps(Step(s, turns[0]), turns[1..], total);
    }
  }

  /** A state that `n` philosophers with `total` dishes' worth of food can get to. */
  ghost predicate Reachable(s: State, n: nat, total: nat) {
    exists turns {:trigger Runs(Initial(n, total), turns)} ::
      Runs(Initial(n, total), turns) && s == After(Initial(n, total), turns)
  }

  lemma {:induction false} ReachableInv(s: State, n: nat, total: nat)
    requires Reachable(s, n, total)
    ensures Inv(s, total) && |s.phils| == n
  {
    var turns :| Runs(Initial(n, total), turns) && s == After(Initial(n, total), turns);
    InitialHolds(n, total);
    RunKeeps(Initial(n, total), turns, total);
  }

  /** The fork or the food lock that a philosopher's next step unlocks is its own, and each fork
      is with one philosopher at most; so neighbours never eat at the same time. */
  lemma {:induction false} Safety(s: State, n: nat, total: nat, p: nat, q: nat)
    requires Reachable(s, n, total) && p < n && q < n && p != q
    ensures WellFormed(s) && |s.phils| == n
    ensures s.phils[p].UnlockFood? ==> s.foodlock == Some(p)
    ensures s.phils[p].DownMax? ==> s.forks[MaxFork(p, n)] == Some(p)
    ensures s.phils[p].DownMin? ==> s.forks[MinFork(p, n)] == Some(p)
    ensures forall f :: 0 <= f < n ==> !(HasFork(s.phils[p], p, n, f) && HasFork(s.phils[q], q, n, f))
    ensures q == (p + 1) % n ==> !(s.phils[p].Eat? && s.phils[q].Eat?)
    ensures s.phils[p].Eat? ==> s.forks[p] == Some(p) && s.forks[(p + 1) % n] == Some(p)
  {
    ReachableInv(s, n, total);
    ForksOf(p, n);
    assert PhilFits(s, p, total);
    assert ForkFits(s, p, MinFork(p, n)) && ForkFits(s, p, MaxFork(p, n));
    forall f | 0 <= f < n
      ensures !(HasFork(s.phils[p], p, n, f) && HasFork(s.phils[q], q, n, f))
    {
      assert ForkFits(s, p, f) && ForkFits(s, q, f);
    }
    Shared(p, n);
  }

  /** Neighbours need the fork between them. */
  lemma {:induction false} Shared(p: nat, n: nat)
    requires p < n
    ensures LeftFork(p, n) == MinFork(p, n) || LeftFork(p, n) == MaxFork(p, n)
    ensures LeftFork(p, n) == MinFork(LeftFork(p, n), n) || LeftFork(p, n) == MaxFork(LeftFork(p, n), n)
  {
  }

  // ---- dishes -----------------------------------------------------------------------------------

  /** The dish that a philosopher has been handed and not finished. */
  function InHand(x: Phil): Option<nat> {
    match x
    case UnlockFood(dish) => if dish == 0 then None else Some(dish)
    case GetMin(dish) => Some(dish)
    case GetMax(dish) => Some(dish)
    case Eat(dish) => Some(dish)
    case DownMax(dish) => Some(dish)
    case DownMin(dish) => Some(dish)
    case _ => None
  }

  ghost predicate OwnDish(s: State, p: nat, q: nat, total: nat)
    requires p < |s.phils| && q < |s.phils|
  {
    InHand(s.phils[p]).Some? ==>
      && 0 < InHand(s.phils[p]).value && s.food <= InHand(s.phils[p]).value < total
      && (p != q ==> InHand(s.phils[q]) != InHand(s.phils[p]))
  }

  ghost predicate OwnDishes(s: State, total: nat) {
    forall p, q {:trigger OwnDish(s, p, q, total)} ::
      0 <= p < |s.phils| && 0 <= q < |s.phils| ==> OwnDish(s, p, q, total)
  }

  lemma {:induction false} DishesKept(s: State, p: nat, total: nat)
    requires Inv(s, total) && OwnDishes(s, total) && Can(s, p)
    ensures OwnDishes(Step(s, p), total)
  {
    var s' := Step(s, p);
    forall q, r | 0 <= q < |s'.phils| && 0 <= r < |s'.phils|
      ensures OwnDish(s', q, r, total)
    {
      assert OwnDish(s, q, r, total) && OwnDish(s, r, q, total);
    }
  }

  lemma {:induction false} DishesRun(s: State, turns: seq<nat>, total: nat)
    requires Inv(s, total) && OwnDishes(s, total) && Runs(s, turns)
    ensures OwnDishes(After(s, turns), total)
    decreases |turns|
  {
    if turns != [] {
      StepKeeps(s, turns[0], total);
      DishesKept(s, turns[0], total);
      DishesRun(Step(s, turns[0]), turns[1..], total);
    }
  }

  lemma {:induction false} HandedOut(s: State, total: nat, dish: nat)
    requires Inv(s, total) && 0 < dish && s.food <= dish < total
    ensures dish in s.served
  {
    assert s.served[total - 1 - dish] == dish;
  }

  /** Whoever is on the way to eat, eats, or puts the forks down does so with a dish that was handed
      out, and no two philosophers have the same one. */
  lemma {:induction false} NobodySharesADish(s: State, n: nat, total: nat, p: nat, q: nat)
    requires Reachable(s, n, total) && p < n && q < n && p != q
    ensures |s.phils| == n
    ensures InHand(s.phils[p]).Some? ==>
              InHand(s.phils[p]).value in s.served && InHand(s.phils[q]) != InHand(s.phils[p])
    ensures s.phils[p].Eat? ==> s.phils[p].dish in s.served
  {
    ReachableInv(s, n, total);
    var turns :| Runs(Initial(n, total), turns) && s == After(Initial(n, total), turns);
    InitialHolds(n, total);
    DishesRun(Initial(n, total), turns, total);
    assert OwnDish(s, p, q, total);
    if InHand(s.phils[p]).Some? {
      HandedOut(s, total, InHand(s.phils[p]).value);
    }
  }

  /** The dish that a philosopher has been handed and not eaten. */
  function Uneaten(x: Phil): Option<nat> {
    if x.DownMax? || x.DownMin? then None else InHand(x)
  }

  ghost predicate Carries(s: State, p: nat, dish: nat) {
    p < |s.phils| && Uneaten(s.phils[p]) == Some(dish)
  }

  /** A dish that was handed out is either eaten, once, or with a philosopher who will eat it. */
  ghost predicate EatenFits(s: State) {
    && (forall i, j :: 0 <= i < j < |s.eaten| ==> s.eaten[i] != s.eaten[j])
    && (forall d {:trigger d in s.eaten} :: d in s.eaten ==> d in s.served)
    && (forall p, d {:trigger Carries(s, p, d)} :: Carries(s, p, d) ==> d !in s.eaten)
    && (forall d {:trigger d in s.served} :: d in s.served ==>
          d in s.eaten || exists p {:trigger Carries(s, p, d)} :: Carries(s, p, d))
  }

  /** Who carried a dish before a step still does, unless it was eaten or handed out in it. */
  lemma {:induction false} CarriersKept(s: State, p: nat, q: nat, dish: nat)
    requires WellFormed(s) && Can(s, p) && q < |s.phils|
    requires !(s.phils[p].Eat? && q == p) && !(s.phils[p].TakeFood? && q == p)
    ensures Carries(Step(s, p), q, dish) <==> Carries(s, q, dish)
  {
  }

  lemma {:induction false} EatenKept(s: State, p: nat, total: nat)
    requires Inv(s, total) && OwnDishes(s, total) && EatenFits(s) && Can(s, p)
    ensures EatenFits(Step(s, p))
  {
    var x, s' := s.phils[p], Step(s, p);
    if x.Eat? {
      assert Carries(s, p, x.dish) && OwnDish(s, p, p, total);
      HandedOut(s, total, x.dish);
    }
    assert forall d :: d in s.served ==> d in s'.served;
    forall q: nat, d: nat | Carries(s', q, d)
      ensures d !in s'.eaten
    {
      if q == p && x.TakeFood? {
        assert d < s.food && d !in s.served;
      } else {
        CarriersKept(s, p, q, d);
        assert OwnDish(s, p, q, total);
      }
    }
    forall d | d in s'.served
      ensures d in s'.eaten || exists q {:trigger Carries(s', q, d)} :: Carries(s', q, d)
    {
      if d !in s.served {
        assert Carries(s', p, d);
      } else if d !in s.eaten {
        var q :| Carries(s, q, d);
        if q != p || !x.Eat? {
          CarriersKept(s, p, q, d);
        }
      }
    }
  }

  lemma {:induction false} EatenRun(s: State, turns: seq<nat>, total: nat)
    requires Inv(s, total) && OwnDishes(s, total) && EatenFits(s) && Runs(s, turns)
    ensures EatenFits(After(s, turns))
    decreases |turns|
  {
    if turns != [] {
      StepKeeps(s, turns[0], total);
      DishesKept(s, turns[0], total);
      EatenKept(s, turns[0], total);
      EatenRun(Step(s, turns[0]), turns[1..], total);
    }
  }

  /** No dish is ever eaten twice, and when all philosophers are done, every dish has been
      eaten. */
  lemma {:induction false} EveryDishEatenOnce(s: State, n: nat, total: nat)
    requires Reachable(s, n, total)
    ensures forall i, j :: 0 <= i < j < |s.eaten| ==> s.eaten[i] != s.eaten[j]
    ensures AllDone(s) && n > 0 ==> forall d {:trigger d in s.eaten} :: d in s.eaten <==> 0 < d < total
  {
    ReachableInv(s, n, total);
    var turns :| Runs(Initial(n, total), turns) && s == After(Initial(n, total), turns);
    InitialHolds(n, total);
    EatenRun(Initial(n, total), turns, total);
    DishesServed(s, n, total);
    if AllDone(s) && n > 0 {
      forall d
        ensures d in s.eaten <==> 0 < d < total
      {
        if 0 < d < total {
          assert d in s.served && forall p :: !Carries(s, p, d);
        }
      }
    }
  }

  // ---- no deadlock ---------------------------------------------------------------------------

  predicate AllDone(s: State) {
    forall p :: 0 <= p < |s.phils| ==> s.phils[p].Done?
  }

  lemma {:induction false} HigherFork(p: nat, n: nat)
    requires p < n && n >= 2
    ensures MinFork(p, n) < MaxFork(p, n) < n
  {
  }

  /** From a philosopher who waits with one fork in hand, climb to the holder of the fork it
      waits for: that one holds a higher fork as its first, or can go on. */
  lemma {:induction false} Climb(s: State, p: nat, total: nat) returns (q: nat)
    requires Inv(s, total) && |s.phils| >= 2 && p < |s.phils| && s.phils[p].GetMax?
    ensures Can(s, q)
    decreases |s.phils| - MinFork(p, |s.phils|)
  {
    var n := |s.phils|;
    HigherFork(p, n);
    if Can(s, p) {
      q := p;
    } else {
      var r := s.forks[MaxFork(p, n)].value;
      assert ForkFits(s, r, MaxFork(p, n)) && ForkFits(s, p, MaxFork(p, n));
      if s.phils[r].GetMax? {
        q := Climb(s, r, total);
      } else {
        q := r;
      }
    }
  }

  lemma {:induction false} SomeoneGoesOn(s: State, p: nat, total: nat) returns (q: nat)
    requires Inv(s, total) && p < |s.phils| && !s.phils[p].Done? && (|s.phils| >= 2 || total <= 1)
    ensures Can(s, q)
  {
    q := p;
    assert PhilFits(s, p, total);
    if !Can(s, p) {
      if s.phils[p].LockFood? {
        q := s.foodlock.value;
        assert PhilFits(s, q, total);
      } else if s.phils[p].GetMax? {
        q := Climb(s, p, total);
      } else {
        var f := MinFork(p, |s.phils|);
        var r := s.forks[f].value;
        assert ForkFits(s, r, f);
        q := r;
        if s.phils[r].GetMax? {
          q := Climb(s, r, total);
        }
      }
    }
  }

  /** On every schedule some philosopher can go on until all are done. */
  ghost predicate DeadlockFree(n: nat, total: nat) {
    forall s {:trigger Reachable(s, n, total)} :: Reachable(s, n, total) ==>
      WellFormed(s) && (AllDone(s) || exists q {:trigger Can(s, q)} :: Can(s, q))
  }

  /** A philosopher alone has one fork only and waits for it twice, if there is a dish at all. */
  lemma {:induction false} NoDeadlock(n: nat, total: nat)
    ensures DeadlockFree(n, total) <==> n != 1 || total <= 1
  {
    if n != 1 || total <= 1 {
      forall s | Reachable(s, n, total)
        ensures WellFormed(s) && (AllDone(s) || exists q {:trigger Can(s, q)} :: Can(s, q))
      {
        ReachableInv(s, n, total);
        if !AllDone(s) {
          var p: nat :| p < |s.phils| && !s.phils[p].Done?;
          var q := SomeoneGoesOn(s, p, total);
        }
      }
    } else {
      var s := AloneStuck(total);
    }
  }

  lemma {:induction false} AloneStuck(total: nat) returns (s: State)
    requires total >= 2
    ensures Reachable(s, 1, total) && WellFormed(s) && !AllDone(s) && forall q {:trigger Can(s, q)} :: !Can(s, q)
  {
    var s0 := State(total, None, [None], [LockFood], [], []);
    assert s0 == Initial(1, total);
    var s1 := State(total, Some(0), [None], [TakeFood], [], []);
    var s2 := State(total - 1, Some(0), [None], [UnlockFood(total - 1)], [total - 1], []);
    var s3 := State(total - 1, None, [None], [GetMin(total - 1)], [total - 1], []);
    s := State(total - 1, None, [Some(0)], [GetMax(total - 1)], [total - 1], []);
    assert Step(s0, 0) == s1 && Step(s1, 0) == s2 && Step(s2, 0) == s3 && Step(s3, 0) == s;
    RunOne(s3, [], s);
    RunOne(s2, [0], s);
    RunOne(s1, [0, 0], s);
    RunOne(s0, [0, 0, 0], s);
    assert s.phils[0] == GetMax(total - 1);
  }

  /** A run with one more step of philosopher 0 in front. */
  lemma {:induction false} RunOne(s: State, turns: seq<nat>, t: State)
    requires WellFormed(s) && Can(s, 0) && Runs(Step(s, 0), turns) && After(Step(s, 0), turns) == t
    ensures Runs(s, [0] + turns) && After(s, [0] + turns) == t
  {
    assert ([0] + turns)[1..] == turns;
  }

  // ---- every run ends and every dish is served -----------------------------------------------

  /** The steps a philosopher has left, apart from those that food still on the table brings. */
  function Rank(x: Phil): nat {
    match x
    case LockFood => 3
    case TakeFood => 2
    case UnlockFood(dish) => if dish == 0 then 1 else 9
    case GetMin(_) => 8
    case GetMax(_) => 7
    case Eat(_) => 6
    case DownMax(_) => 5
    case DownMin(_) => 4
    case Done => 0
  }

  function Ranks(xs: seq<Phil>): nat {
    if xs == [] then 0 else Rank(xs[0]) + Ranks(xs[1..])
  }

  lemma {:induction false} RanksUpdated(xs: seq<Phil>, p: nat, x: Phil)
    requires p < |xs|
    ensures Ranks(xs[p := x]) == Ranks(xs) - Rank(xs[p]) + Rank(x)
    decreases |xs|
  {
    if p == 0 {
      assert xs[p := x][1..] == xs[1..];
    } else {
      RanksUpdated(xs[1..], p - 1, x);
      assert xs[p := x][1..] == xs[1..][p - 1 := x];
    }
  }

  function Left(s: State): nat {
    8 * s.food + Ranks(s.phils)
  }

  lemma {:induction false} LeftGoesDown(s: State, p: nat)
    requires WellFormed(s) && Can(s, p)
    ensures Left(Step(s, p)) < Left(s)
  {
    RanksUpdated(s.phils, p, Next(s.phils[p], s.food));
  }

  lemma {:induction false} RunsEnd(s: State, turns: seq<nat>)
    requires WellFormed(s) && Runs(s, turns)
    ensures |turns| <= Left(s)
    decreases |turns|
  {
    if turns != [] {
      LeftGoesDown(s, turns[0]);
      RunsEnd(Step(s, turns[0]), turns[1..]);
    }
  }

  lemma {:induction false} RanksOfStart(n: nat)
    ensures Ranks(seq(n, _ => LockFood)) == 3 * n
    decreases n
  {
    if n > 0 {
      RanksOfStart(n - 1);
      assert seq(n, _ => LockFood)[1..] == seq(n - 1, _ => LockFood);
    }
  }

  /** No schedule has more steps than this. */
  lemma {:induction false} EveryRunEnds(n: nat, total: nat, turns: seq<nat>)
    requires Runs(Initial(n, total), turns)
    ensures |turns| <= 8 * total + 3 * n
  {
    RunsEnd(Initial(n, total), turns);
    RanksOfStart(n);
  }

  /** At any time the dishes handed out are the highest numbers below the total, each of them
      once; when all are done, that is every number from 1 up. */
  lemma {:induction false} DishesServed(s: State, n: nat, total: nat)
    requires Reachable(s, n, total)
    ensures forall i :: 0 <= i < |s.served| ==> s.served[i] == total - 1 - i && s.served[i] > 0
    ensures AllDone(s) && n > 0 && total > 0 ==> |s.served| == total - 1
    ensures AllDone(s) && n > 0 ==> forall d {:trigger d in s.served} :: 0 < d < total ==> d in s.served
  {
    ReachableInv(s, n, total);
    if AllDone(s) && n > 0 {
      assert PhilFits(s, 0, total);
      forall d | 0 < d < total
        ensures d in s.served
      {
        assert s.served[total - 1 - d] == d;
      }
    }
  }
}
