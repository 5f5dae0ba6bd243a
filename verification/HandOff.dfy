/** Two threads print in turn by chasing each other round a ring of three mutexes. Every
    shared access is one step; the scheduler picks who takes the next one. */
module HandOff {

  datatype Who = Child | Parent

  /** Where a thread is. `Await` is the loop in main until the flag is set (spinning without
      the flag changes nothing and is no step); the others are the shared accesses of
      print_message in program order. */
  datatype Pc =
    | Await | LockFirst | TestFlag | UnlockStart
    | Head | LockNext | UnlockPrevious | Write | SetFlag
    | UnlockLast | Done

  datatype Thread = Thread(pc: Pc, i: nat, k: nat)

  datatype Holder = Free | By(who: Who)

  datatype State = State(flag: bool, m: seq<Holder>, child: Thread, parent: Thread, out: seq<Who>)

  function ThreadOf(s: State, w: Who): Thread {
    if w.Child? then s.child else s.parent
  }

  function WithThread(s: State, w: Who, t: Thread): State {
    if w.Child? then s.(child := t) else s.(parent := t)
  }

  /** The state when the child has just been created: main has locked the first mutex. */
  function Initial(): State {
    State(false, [By(Parent), Free, Free], Thread(LockFirst, 0, 1), Thread(Await, 0, 1), [])
  }

  predicate WellFormed(s: State) {
    |s.m| == 3 && s.child.k < 3 && s.parent.k < 3
  }

  /** A thread can take its next step unless it has ended, waits for the flag or for a mutex. */
  predicate Can(s: State, w: Who)
    requires WellFormed(s)
  {
    var t := ThreadOf(s, w);
    match t.pc
    case Await => s.flag
    case LockFirst => s.m[2] == Free
    case LockNext => s.m[t.k] == Free
    case Done => false
    case _ => true
  }

  /** The bottom of the loop body. */
  function NextRound(t: Thread): Thread {
    Thread(Head, t.i + 1, (t.k + 1) % 3)
  }

  predicate Locks(pc: Pc) {
    pc.LockFirst? || pc.LockNext?
  }

  predicate UnlocksOne(pc: Pc) {
    pc.UnlockStart? || pc.UnlockPrevious? || pc.UnlockLast?
  }

  /** The mutex that a thread's next step locks or unlocks. */
  function Target(t: Thread): nat {
    if t.pc.UnlockStart? then 0 else if (t.pc.LockFirst? || t.pc.UnlockLast?) then 2 else t.k
  }

  /** Where a thread is after its next step. */
  function Next(t: Thread, flag: bool, rounds: nat): Thread {
    match t.pc
    case Await => t.(pc := LockFirst)
    case LockFirst => t.(pc := TestFlag)
    case TestFlag => t.(pc := if flag then UnlockStart else Head)
    case UnlockStart => t.(pc := Head)
    case Head => t.(pc := if t.i < rounds * 3 then LockNext else UnlockLast)
    case LockNext => t.(pc := UnlockPrevious, k := (t.k + 1) % 3)
    case UnlockPrevious => if t.k == 2 then t.(pc := Write) else NextRound(t)
    case Write => t.(pc := SetFlag)
    case SetFlag => NextRound(t)
    case UnlockLast => t.(pc := Done)
    case Done => t
  }

  function Step(s: State, w: Who, rounds: nat): (r: State)
    requires WellFormed(s) && Can(s, w)
    ensures WellFormed(r)
  {
    var t := ThreadOf(s, w);
    var s' := WithThread(s, w, Next(t, s.flag, rounds));
    if Locks(t.pc) then s'.(m := s.m[Target(t) := By(w)])
    else if UnlocksOne(t.pc) then s'.(m := s.m[Target(t) := Free])
    else if t.pc.Write? then s'.(out := s.out + [w])
    else if t.pc.SetFlag? then s'.(flag := true)
    else s'
  }

  /** A mutex may only be unlocked by the thread that holds it. */
  predicate UnlocksOwn(s: State, w: Who)
    requires WellFormed(s)
  {
    var t := ThreadOf(s, w);
    UnlocksOne(t.pc) ==> s.m[Target(t)] == By(w)
  }

  // ---- positions on the ring -----------------------------------------------------------------

  /** The mutexes are taken round the ring 2, 1, 0, 2, ...; main's first lock is number -1. */
  function Mutex(x: int): (r: nat)
    ensures r < 3
  {
    if x < 0 then 0 else if x < 3 then 2 - x else Mutex(x - 3)
  }

  /** How many of the first `i` rounds of the loop print a line: those that unlock mutex 2. */
  function Printing(i: nat): nat {
    if i == 0 then 0 else Printing(i - 1) + if Mutex(i - 1) == 2 then 1 else 0
  }

  /** How many locks of the ring a thread has taken so far. */
  function Taken(t: Thread): int {
    match t.pc
    case Await => 0
    case LockFirst => 0
    case UnlockPrevious => t.i + 2
    case Write => t.i + 2
    case SetFlag => t.i + 2
    case _ => t.i + 1
  }

  /** How many of them it has given back; main starts out holding number -1. */
  function Given(t: Thread, w: Who): int {
    match t.pc
    case Await => -1
    case LockFirst => if w.Child? then 0 else -1
    case TestFlag => if w.Child? then 0 else -1
    case UnlockStart => -1
    case Write => t.i + 1
    case SetFlag => t.i + 1
    case Done => t.i + 1
    case _ => t.i
  }

  /** Lines a thread has printed. */
  function Lines(t: Thread): nat {
    match t.pc
    case SetFlag => Printing(t.i) + 1
    case _ => Printing(t.i)
  }

  /** Lock number `x` is one of those a thread has taken and not given back. */
  ghost predicate Within(t: Thread, w: Who, x: int) {
    Given(t, w) <= x < Taken(t)
  }

  ghost predicate Holds(t: Thread, w: Who, j: nat) {
    exists x {:trigger Within(t, w, x)} :: Within(t, w, x) && Mutex(x) == j
  }

  /** The local variables of a thread fit its place in the program. */
  ghost predicate Local(t: Thread, rounds: nat) {
    && t.i <= rounds * 3
    && ((t.pc.Await? || t.pc.LockFirst? || t.pc.TestFlag? || t.pc.UnlockStart?) ==> t.i == 0)
    && ((t.pc.LockNext? || t.pc.UnlockPrevious? || t.pc.Write? || t.pc.SetFlag?) ==> t.i < rounds * 3)
    && ((t.pc.UnlockLast? || t.pc.Done?) ==> t.i == rounds * 3)
    && ((t.pc.Write? || t.pc.SetFlag?) ==> t.k == 2)
    && t.k == (if (t.pc.UnlockPrevious? || t.pc.Write? || t.pc.SetFlag?) then Mutex(t.i) else Mutex(t.i + 1))
  }

  /** The child is ahead of the parent, by no more than the ring has room for. */
  ghost predicate Ahead(s: State) {
    && Given(s.child, Child) >= Taken(s.parent)
    && Taken(s.child) <= Given(s.parent, Parent) + 3
  }

  ghost predicate FlagFits(s: State) {
    && (s.flag <==> s.child.i >= 1)
    && (!s.parent.pc.Await? ==> s.flag)
    && !s.child.pc.Await? && !s.child.pc.UnlockStart?
  }

  ghost predicate OwnedBy(m: seq<Holder>, t: Thread, w: Who)
    requires |m| == 3
  {
    forall j {:trigger m[j]} :: 0 <= j < 3 ==> (m[j] == By(w) <==> Holds(t, w, j))
  }

  ghost predicate Owners(s: State)
    requires WellFormed(s)
  {
    OwnedBy(s.m, s.child, Child) && OwnedBy(s.m, s.parent, Parent)
  }

  /** The output when the child has printed `c` lines and the parent `p`, taking turns. */
  function InTurn(c: nat, p: nat): seq<Who>
    decreases c + p
  {
    if c + p == 0 then [] else if c > p then InTurn(c - 1, p) + [Child] else InTurn(c, p - 1) + [Parent]
  }

  /** child, parent, child, parent, ... */
  ghost predicate Alternates(out: seq<Who>) {
    forall x :: 0 <= x < |out| ==> out[x] == if x % 2 == 0 then Child else Parent
  }

  lemma {:induction false} InTurnGrows(c: nat, p: nat, w: Who)
    requires if w.Child? then c == p else c == p + 1
    ensures InTurn(c, p) + [w] == if w.Child? then InTurn(c + 1, p) else InTurn(c, p + 1)
  {
  }

  lemma {:induction false} InTurnAlternates(c: nat, p: nat)
    requires p <= c <= p + 1
    ensures |InTurn(c, p)| == c + p && Alternates(InTurn(c, p))
    decreases c + p
  {
    if c + p == 0 {
    } else if c > p {
      InTurnAlternates(c - 1, p);
    } else {
      InTurnAlternates(c, p - 1);
    }
  }

  ghost predicate Inv(s: State, rounds: nat) {
    && WellFormed(s)
    && Local(s.child, rounds) && Local(s.parent, rounds)
    && Ahead(s) && FlagFits(s) && Owners(s)
    && s.out == InTurn(Lines(s.child), Lines(s.parent))
  }

  // ---- arithmetic of the ring ----------------------------------------------------------------

  lemma {:induction false} MutexIs(x: nat)
    ensures Mutex(x) == 2 - x % 3
    decreases x
  {
    if x >= 3 {
      MutexIs(x - 3);
    }
  }

  lemma {:induction false} PrintingIs(i: nat)
    ensures Printing(i) == (i + 2) / 3
    decreases i
  {
    if i > 0 {
      PrintingIs(i - 1);
      MutexIs(i - 1);
    }
  }

  /** Numbers less than three apart name different mutexes; those three apart the same. */
  lemma {:induction false} Near(x: int, y: int)
    requires Mutex(x) == Mutex(y) && -3 < x - y < 3 && x >= -1 && y >= -1
    ensures x == y
  {
    if x >= 0 && y >= 0 {
      MutexIs(x);
      MutexIs(y);
    }
  }

  lemma {:induction false} ThreeOn(x: int)
    requires x >= -1
    ensures Mutex(x + 3) == Mutex(x)
  {
  }

  /** The mutexes of consecutive numbers. */
  lemma {:induction false} NextMutex(x: int)
    requires x >= -1
    ensures Mutex(x + 1) == if Mutex(x) == 0 then 2 else Mutex(x) - 1
  {
    if x >= 0 {
      MutexIs(x);
      MutexIs(x + 1);
    }
  }

  /** How many lines a thread has printed follows from its locks. */
  lemma {:induction false} LineBounds(t: Thread, w: Who, rounds: nat)
    requires Local(t, rounds)
    ensures Given(t, w) - 1 <= 3 * Lines(t) <= Taken(t) + 1
    ensures t.pc.Write? ==> 3 * Lines(t) == Given(t, w) - 1 == Taken(t) - 2
  {
    PrintingIs(t.i);
    MutexIs(t.i);
  }

  /** The parent's line always follows the child's. */
  lemma {:induction false} LinesInTurn(s: State, rounds: nat)
    requires Local(s.child, rounds) && Local(s.parent, rounds) && Ahead(s)
    ensures Lines(s.parent) <= Lines(s.child) <= Lines(s.parent) + 1
    ensures s.child.pc.Write? ==> Lines(s.child) == Lines(s.parent)
    ensures s.parent.pc.Write? ==> Lines(s.child) == Lines(s.parent) + 1
  {
    LineBounds(s.child, Child, rounds);
    LineBounds(s.parent, Parent, rounds);
  }

  // ---- what one step keeps -------------------------------------------------------------------

  lemma {:induction false} HoldsAt(t: Thread, w: Who, x: int)
    requires Given(t, w) <= x < Taken(t)
    ensures Holds(t, w, Mutex(x))
  {
    assert Within(t, w, x);
  }

  lemma {:induction false} HoldsAfterLock(t: Thread, t': Thread, w: Who)
    requires Given(t', w) == Given(t, w) <= Taken(t) && Taken(t') == Taken(t) + 1
    ensures forall j: nat :: j < 3 ==> (Holds(t', w, j) <==> Holds(t, w, j) || j == Mutex(Taken(t)))
  {
    HoldsAt(t', w, Taken(t));
    assert forall x {:trigger Within(t, w, x)} {:trigger Within(t', w, x)} ::
      Within(t', w, x) <==> Within(t, w, x) || x == Taken(t);
  }

  lemma {:induction false} HoldsAfterUnlock(t: Thread, t': Thread, w: Who)
    requires Given(t', w) == Given(t, w) + 1 && Taken(t') == Taken(t) && Given(t, w) < Taken(t) <= Given(t, w) + 3
    ensures Holds(t, w, Mutex(Given(t, w)))
    ensures forall j: nat :: j < 3 ==> (Holds(t', w, j) <==> Holds(t, w, j) && j != Mutex(Given(t, w)))
  {
    HoldsAt(t, w, Given(t, w));
    forall x | Within(t, w, x)
      ensures Mutex(x) == Mutex(Given(t, w)) <==> x == Given(t, w)
    {
      if Mutex(x) == Mutex(Given(t, w)) {
        Near(x, Given(t, w));
      }
    }
    assert forall x {:trigger Within(t, w, x)} {:trigger Within(t', w, x)} ::
      Within(t', w, x) <==> Within(t, w, x) && x != Given(t, w);
  }

  lemma {:induction false} HoldsSame(t: Thread, t': Thread, w: Who)
    requires Given(t', w) == Given(t, w) && Taken(t') == Taken(t)
    ensures forall j: nat :: Holds(t', w, j) <==> Holds(t, w, j)
  {
    assert forall x {:trigger Within(t, w, x)} {:trigger Within(t', w, x)} :: Within(t', w, x) <==> Within(t, w, x);
  }

  /** The flag tells the threads apart at their start. */
  predicate StartFits(t: Thread, flag: bool, w: Who) {
    (t.pc.TestFlag? ==> (flag <==> w.Parent?)) && ((t.pc.Await? || t.pc.UnlockStart?) ==> w.Parent?)
  }

  lemma {:induction false} LocalKept(t: Thread, flag: bool, w: Who, rounds: nat)
    requires Local(t, rounds) && StartFits(t, flag, w)
    ensures Local(Next(t, flag, rounds), rounds)
    ensures Next(t, flag, rounds).i >= 1 <==> t.i >= 1 || t.pc.SetFlag? || (t.pc.UnlockPrevious? && t.k != 2)
  {
    NextMutex(t.i);
    NextMutex(t.i + 1);
  }

  /** How a thread's step moves its window of held locks. */
  lemma {:induction false} WindowMoves(t: Thread, flag: bool, w: Who, rounds: nat)
    requires Local(t, rounds) && StartFits(t, flag, w)
    ensures Taken(Next(t, flag, rounds)) == Taken(t) + if Locks(t.pc) then 1 else 0
    ensures Given(Next(t, flag, rounds), w) == Given(t, w) + if UnlocksOne(t.pc) then 1 else 0
    ensures -1 <= Given(t, w) <= Taken(t) <= Given(t, w) + 2
  {
  }

  /** Which mutexes its locks and unlocks concern. */
  lemma {:induction false} TargetIs(t: Thread, w: Who, rounds: nat)
    requires Local(t, rounds)
    ensures Locks(t.pc) ==> Target(t) == Mutex(Taken(t))
    ensures UnlocksOne(t.pc) ==> Target(t) == Mutex(Given(t, w)) && Given(t, w) < Taken(t)
  {
    MutexIs(rounds * 3);
  }

  lemma {:induction false} LinesMove(t: Thread, flag: bool, rounds: nat)
    requires Local(t, rounds)
    ensures Lines(Next(t, flag, rounds)) == Lines(t) + if t.pc.Write? then 1 else 0
  {
  }

  /** A mutex that is free for the taking is one the other thread has gone past. */
  lemma {:induction false} RoomToLock(s: State, w: Who, rounds: nat)
    requires Inv(s, rounds) && Can(s, w) && Locks(ThreadOf(s, w).pc)
    ensures w.Child? ==> Taken(s.child) < Given(s.parent, Parent) + 3
    ensures w.Parent? ==> Taken(s.parent) < Given(s.child, Child)
  {
    TargetIs(ThreadOf(s, w), w, rounds);
    WindowMoves(s.child, s.flag, Child, rounds);
    WindowMoves(s.parent, s.flag, Parent, rounds);
    var j := Mutex(Taken(ThreadOf(s, w)));
    assert s.m[j] == Free;
    if w.Child? && Taken(s.child) == Given(s.parent, Parent) + 3 {
      ThreeOn(Given(s.parent, Parent));
      HoldsAt(s.parent, Parent, Given(s.parent, Parent));
    }
    if w.Parent? && Taken(s.parent) == Given(s.child, Child) {
      HoldsAt(s.child, Child, Given(s.child, Child));
    }
  }

  lemma {:induction false} OwnersAfterLock(m: seq<Holder>, t: Thread, t': Thread, w: Who, u: Thread, v: Who)
    requires |m| == 3 && OwnedBy(m, t, w) && OwnedBy(m, u, v) && v != w && m[Mutex(Taken(t))] == Free
    requires Given(t', w) == Given(t, w) <= Taken(t) && Taken(t') == Taken(t) + 1
    ensures OwnedBy(m[Mutex(Taken(t)) := By(w)], t', w) && OwnedBy(m[Mutex(Taken(t)) := By(w)], u, v)
  {
    HoldsAfterLock(t, t', w);
  }

  lemma {:induction false} OwnersAfterUnlock(m: seq<Holder>, t: Thread, t': Thread, w: Who, u: Thread, v: Who)
    requires |m| == 3 && OwnedBy(m, t, w) && OwnedBy(m, u, v) && v != w
    requires Given(t', w) == Given(t, w) + 1 && Taken(t') == Taken(t) && Given(t, w) < Taken(t) <= Given(t, w) + 3
    ensures m[Mutex(Given(t, w))] == By(w)
    ensures OwnedBy(m[Mutex(Given(t, w)) := Free], t', w) && OwnedBy(m[Mutex(Given(t, w)) := Free], u, v)
  {
    HoldsAfterUnlock(t, t', w);
    assert m[Mutex(Given(t, w))] == By(w);
  }

  /** No step unlocks a mutex that its thread does not hold. */
  lemma {:induction false} OnlyOwnUnlocked(s: State, w: Who, rounds: nat)
    requires Inv(s, rounds)
    ensures UnlocksOwn(s, w)
  {
    var t := ThreadOf(s, w);
    if UnlocksOne(t.pc) {
      TargetIs(t, w, rounds);
      HoldsAt(t, w, Given(t, w));
    }
  }

  lemma {:induction false} OwnersKept(s: State, w: Who, rounds: nat)
    requires Inv(s, rounds) && Can(s, w)
    ensures Owners(Step(s, w, rounds))
  {
    var t := ThreadOf(s, w);
    var t' := Next(t, s.flag, rounds);
    var v := if w.Child? then Parent else Child;
    var u := ThreadOf(s, v);
    WindowMoves(t, s.flag, w, rounds);
    TargetIs(t, w, rounds);
    if Locks(t.pc) {
      OwnersAfterLock(s.m, t, t', w, u, v);
    } else if UnlocksOne(t.pc) {
      OwnersAfterUnlock(s.m, t, t', w, u, v);
    } else {
      HoldsSame(t, t', w);
    }
  }

  lemma {:induction false} StepKeeps(s: State, w: Who, rounds: nat)
    requires Inv(s, rounds) && Can(s, w)
    ensures Inv(Step(s, w, rounds), rounds)
  {
    var t := ThreadOf(s, w);
    LocalKept(t, s.flag, w, rounds);
    OwnersKept(s, w, rounds);
    AheadKept(s, w, rounds);
    LinesKept(s, w, rounds);
  }

  lemma {:induction false} AheadKept(s: State, w: Who, rounds: nat)
    requires Inv(s, rounds) && Can(s, w)
    ensures Ahead(Step(s, w, rounds))
  {
    WindowMoves(ThreadOf(s, w), s.flag, w, rounds);
    if Locks(ThreadOf(s, w).pc) {
      RoomToLock(s, w, rounds);
    }
  }

  lemma {:induction false} LinesKept(s: State, w: Who, rounds: nat)
    requires WellFormed(s) && Can(s, w) && Local(s.child, rounds) && Local(s.parent, rounds) && Ahead(s)
    requires s.out == InTurn(Lines(s.child), Lines(s.parent))
    ensures
      var s' := Step(s, w, rounds);
      s'.out == InTurn(Lines(s'.child), Lines(s'.parent))
  {
    var t := ThreadOf(s, w);
    var s' := Step(s, w, rounds);
    LinesMove(t, s.flag, rounds);
    StepOutput(s, w, rounds);
    if t.pc.Write? {
      LinesInTurn(s, rounds);
      InTurnGrows(Lines(s.child), Lines(s.parent), w);
    } else {
      assert Lines(s'.child) == Lines(s.child) && Lines(s'.parent) == Lines(s.parent);
    }
  }

  lemma {:induction false} StepOutput(s: State, w: Who, rounds: nat)
    requires WellFormed(s) && Can(s, w)
    ensures
      var s' := Step(s, w, rounds);
      && s'.child == (if w.Child? then Next(s.child, s.flag, rounds) else s.child)
      && s'.parent == (if w.Parent? then Next(s.parent, s.flag, rounds) else s.parent)
      && s'.out == if ThreadOf(s, w).pc.Write? then s.out + [w] else s.out
  {
  }

  lemma {:induction false} InitialHolds(rounds: nat)
    ensures Inv(Initial(), rounds)
  {
    var s := Initial();
    assert Mutex(-1) == 0;
    HoldsAt(s.parent, Parent, -1);
  }

  // ---- whole runs --------------------------------------------------------------------------

  /** A schedule that can be followed from a state. */
  predicate Runs(s: State, turns: seq<Who>, rounds: nat)
    requires WellFormed(s)
    decreases |turns|
  {
    turns != [] ==>
      && Can(s, turns[0])
      && Runs(Step(s, turns[0], rounds), turns[1..], rounds)
  }

  function After(s: State, turns: seq<Who>, rounds: nat): (r: State)
    requires WellFormed(s) && Runs(s, turns, rounds)
    ensures WellFormed(r)
    decreases |turns|
  {
    if turns == [] then s else After(Step(s, turns[0], rounds), turns[1..], rounds)
  }

  lemma {:induction false} RunKeeps(s: State, turns: seq<Who>, rounds: nat)
    requires Inv(s, rounds) && Runs(s, turns, rounds)
    ensures Inv(After(s, turns, rounds), rounds)
    decreases |turns|
  {
    if turns != [] {
      StepKeeps(s, turns[0], rounds);
      RunKeeps(Step(s, turns[0], rounds), turns[1..], rounds);
    }
  }

  ghost predicate Reachable(s: State, rounds: nat) {
    exists turns {:trigger Runs(Initial(), turns, rounds)} ::
      Runs(Initial(), turns, rounds) && s == After(Initial(), turns, rounds)
  }

  lemma {:induction false} ReachableInv(s: State, rounds: nat)
    requires Reachable(s, rounds)
    ensures Inv(s, rounds)
  {
    var turns :| Runs(Initial(), turns, rounds) && s == After(Initial(), turns, rounds);
    InitialHolds(rounds);
    RunKeeps(Initial(), turns, rounds);
  }

  predicate InLoop(t: Thread) {
    (t.pc.Head? || t.pc.LockNext? || t.pc.UnlockPrevious? || t.pc.Write? || t.pc.SetFlag?)
  }

  /** On every interleaving: a thread only unlocks what it holds, the lines printed so far
      alternate and begin with the child's, and while both threads are in their loops the last
      mutex the child took is one or two places further round the ring than the parent's. */
  lemma {:induction false} Safety(s: State, rounds: nat)
    requires Reachable(s, rounds)
    ensures WellFormed(s) && UnlocksOwn(s, Child) && UnlocksOwn(s, Parent)
    ensures Alternates(s.out) && |s.out| == Lines(s.child) + Lines(s.parent)
    ensures InLoop(s.child) && InLoop(s.parent) ==> 1 <= Taken(s.child) - Taken(s.parent) <= 2
  {
    ReachableInv(s, rounds);
    LinesInTurn(s, rounds);
    InTurnAlternates(Lines(s.child), Lines(s.parent));
    OnlyOwnUnlocked(s, Child, rounds);
    OnlyOwnUnlocked(s, Parent, rounds);
    WindowMoves(s.child, s.flag, Child, rounds);
    WindowMoves(s.parent, s.flag, Parent, rounds);
  }

  predicate Ended(s: State) {
    s.child.pc.Done? && s.parent.pc.Done?
  }

  /** With at least one round, no reachable state is stuck before both threads have ended. */
  lemma {:induction false} NoDeadlock(s: State, rounds: nat)
    requires Reachable(s, rounds) && rounds >= 1 && WellFormed(s)
    ensures Ended(s) <==> !Can(s, Child) && !Can(s, Parent)
  {
    ReachableInv(s, rounds);
    WindowMoves(s.child, s.flag, Child, rounds);
    WindowMoves(s.parent, s.flag, Parent, rounds);
    if !Can(s, Child) && !s.child.pc.Done? {
      Blocked(s, Child, rounds);
    }
    if !Can(s, Parent) && Locks(s.parent.pc) {
      Blocked(s, Parent, rounds);
    }
  }

  /** Where the window of a thread lies that holds the mutex of lock number `y`. */
  lemma {:induction false} Blocking(m: seq<Holder>, t: Thread, w: Who, y: int)
    requires |m| == 3 && OwnedBy(m, t, w) && m[Mutex(y)] == By(w) && y >= -1 && Given(t, w) >= -1
    ensures Given(t, w) > y - 3 ==> Taken(t) > y
    ensures Taken(t) <= y <= Given(t, w) + 3 ==> y == Given(t, w) + 3
    ensures Given(t, w) >= y && Taken(t) <= y + 3 ==> y == Given(t, w)
  {
    var x :| Given(t, w) <= x < Taken(t) && Mutex(x) == Mutex(y);
    if -3 < x - y < 3 {
      Near(x, y);
    }
  }

  /** Why a thread waits for a mutex: the other thread is as far away as the ring allows. */
  lemma {:induction false} Blocked(s: State, w: Who, rounds: nat)
    requires Inv(s, rounds) && Locks(ThreadOf(s, w).pc) && !Can(s, w)
    ensures w.Child? ==> Taken(s.child) == Given(s.parent, Parent) + 3
    ensures w.Parent? ==> Taken(s.parent) == Given(s.child, Child)
  {
    TargetIs(ThreadOf(s, w), w, rounds);
    WindowMoves(s.child, s.flag, Child, rounds);
    WindowMoves(s.parent, s.flag, Parent, rounds);
    BlockedAt(s.m, s.child, s.parent, w);
  }

  lemma {:induction false} BlockedAt(m: seq<Holder>, c: Thread, p: Thread, w: Who)
    requires |m| == 3 && OwnedBy(m, c, Child) && OwnedBy(m, p, Parent)
    requires -1 <= Given(c, Child) <= Taken(c) <= Given(c, Child) + 2
    requires -1 <= Given(p, Parent) <= Taken(p) <= Given(p, Parent) + 2
    requires Given(c, Child) >= Taken(p) && Taken(c) <= Given(p, Parent) + 3
    requires m[Mutex(Taken(if w.Child? then c else p))] != Free
    ensures w.Child? ==> Taken(c) == Given(p, Parent) + 3
    ensures w.Parent? ==> Taken(p) == Given(c, Child)
  {
    if w.Child? {
      HeldByOther(m, c, Child);
      Blocking(m, p, Parent, Taken(c));
    } else {
      HeldByOther(m, p, Parent);
      Blocking(m, c, Child, Taken(p));
    }
  }

  /** A thread never waits for a mutex that it holds itself. */
  lemma {:induction false} HeldByOther(m: seq<Holder>, t: Thread, w: Who)
    requires |m| == 3 && OwnedBy(m, t, w) && -1 <= Given(t, w) <= Taken(t) <= Given(t, w) + 2
    ensures m[Mutex(Taken(t))] != By(w)
  {
    if m[Mutex(Taken(t))] == By(w) {
      Blocking(m, t, w, Taken(t));
    }
  }

  lemma {:induction false} AllPrinted(rounds: nat)
    ensures Printing(rounds * 3) == rounds
  {
    PrintingIs(rounds * 3);
  }

  /** At the end both threads have printed one line per round, in turn. */
  lemma {:induction false} Outcome(s: State, rounds: nat)
    requires Reachable(s, rounds) && Ended(s)
    ensures s.out == InTurn(rounds, rounds) && s.m == [Free, Free, Free]
  {
    ReachableInv(s, rounds);
    AllPrinted(rounds);
    assert forall j :: 0 <= j < 3 ==> s.m[j] == Free;
  }

  /** The steps a thread has left. */
  function Left(t: Thread, rounds: nat): int {
    5 * (rounds * 3 - t.i) +
    match t.pc
    case Await => 7
    case LockFirst => 6
    case TestFlag => 5
    case UnlockStart => 4
    case Head => 3
    case LockNext => 2
    case UnlockPrevious => 1
    case Write => 0
    case SetFlag => -1
    case UnlockLast => 1
    case Done => 0
  }

  function AllLeft(s: State, rounds: nat): int {
    Left(s.child, rounds) + Left(s.parent, rounds)
  }

  lemma {:induction false} LeftGoesDown(s: State, w: Who, rounds: nat)
    requires WellFormed(s) && Can(s, w) && Local(s.child, rounds) && Local(s.parent, rounds)
    ensures AllLeft(Step(s, w, rounds), rounds) < AllLeft(s, rounds)
  {
  }

  lemma {:induction false} RunsEnd(s: State, turns: seq<Who>, rounds: nat)
    requires Inv(s, rounds) && Runs(s, turns, rounds)
    ensures |turns| <= AllLeft(s, rounds)
    decreases |turns|
  {
    if turns == [] {
      assert Left(s.child, rounds) >= 0 && Left(s.parent, rounds) >= 0;
    } else {
      StepKeeps(s, turns[0], rounds);
      LeftGoesDown(s, turns[0], rounds);
      RunsEnd(Step(s, turns[0], rounds), turns[1..], rounds);
    }
  }

  /** Every run is finite: no schedule has more steps than this. */
  lemma {:induction false} EveryRunEnds(turns: seq<Who>, rounds: nat)
    requires Runs(Initial(), turns, rounds)
    ensures |turns| <= 30 * rounds + 13
  {
    InitialHolds(rounds);
    RunsEnd(Initial(), turns, rounds);
  }

  /** Whatever the schedule, when no thread can take another step both have ended, and each has
      printed one line per round, the child first. */
  lemma {:induction false} CompleteRuns(turns: seq<Who>, rounds: nat)
    requires Runs(Initial(), turns, rounds) && rounds >= 1
    requires !Can(After(Initial(), turns, rounds), Child) && !Can(After(Initial(), turns, rounds), Parent)
    ensures Ended(After(Initial(), turns, rounds))
    ensures Alternates(After(Initial(), turns, rounds).out) && |After(Initial(), turns, rounds).out| == 2 * rounds
  {
    var s := After(Initial(), turns, rounds);
    assert Reachable(s, rounds);
    NoDeadlock(s, rounds);
    Outcome(s, rounds);
    InTurnAlternates(rounds, rounds);
  }

  /** Without rounds the child never sets the flag and main waits for it for ever: a run
      comes to the end of both threads only if there is at least one round. */
  lemma {:induction false} NoRoundsNoEnd(s: State)
    requires Reachable(s, 0)
    ensures s.parent.pc.Await? && !s.flag && s.out == []
  {
    ReachableInv(s, 0);
  }
}
