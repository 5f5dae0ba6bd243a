/** The slab cache as three lists of slabs and, per slab, the chain of its free objects:
    what its operations do to live objects over whole runs. */
module SlabState {
  import opened Sequences

  /** Slabs are named by their addresses, objects by slab and index. */
  datatype State = State(free: seq<nat>, part: seq<nat>, full: seq<nat>, chain: map<nat, seq<nat>>)

  type Object = (nat, nat)

  /** Each slab is in exactly one list, and only once: the list its number of free objects
      selects. Its chain holds free objects without repeats. */
  ghost predicate Inv(st: State, n: nat) {
    && Distinct(st.free) && Distinct(st.part) && Distinct(st.full)
    && (forall b {:trigger b in st.free} :: b in st.free ==> b in st.chain && |st.chain[b]| == n)
    && (forall b {:trigger b in st.part} :: b in st.part ==> b in st.chain && 0 < |st.chain[b]| < n)
    && (forall b {:trigger b in st.full} :: b in st.full ==> b in st.chain && |st.chain[b]| == 0)
    && (forall b {:trigger Placed(st, n, b)} :: b in st.chain ==> Placed(st, n, b))
  }

  /** Slab `b` has a good chain and is in the list that the length of the chain selects. */
  ghost predicate Placed(st: State, n: nat, b: nat)
    requires b in st.chain
  {
    && GoodChain(st.chain[b], n)
    && (|st.chain[b]| == n ==> b in st.free)
    && (0 < |st.chain[b]| < n ==> b in st.part)
    && (|st.chain[b]| == 0 ==> b in st.full)
  }

  ghost predicate GoodChain(c: seq<nat>, n: nat) {
    Distinct(c) && forall i :: i in c ==> i < n
  }

  /** An object is live when it lies in a slab and is not in the slab's free chain. */
  ghost predicate Live(st: State, n: nat, o: Object) {
    o.0 in st.chain && o.1 < n && o.1 !in st.chain[o.0]
  }

  // ---- the operations ------------------------------------------------------------------------

  /** `n - 1, ..., 1, 0`: the chain of a new slab. */
  function Countdown(n: nat): (c: seq<nat>)
    ensures |c| == n
    ensures forall k :: 0 <= k < n ==> c[k] == n - 1 - k
  {
    if n == 0 then [] else [n - 1] + Countdown(n - 1)
  }

  /** A list without its element `b`. */
  function Removed(l: seq<nat>, b: nat): seq<nat> {
    if l == [] then [] else if l[0] == b then l[1..] else [l[0]] + Removed(l[1..], b)
  }

  /** A new slab is only asked for when no slab has a free object. */
  function Grown(st: State, n: nat, newSlab: nat): (r: State)
    requires n > 0 && Inv(st, n) && st.part == []
    ensures r.free != [] && r.free[0] in r.chain && r.chain[r.free[0]] != []
  {
    assert st.free != [] ==> st.free[0] in st.free;
    if st.free == []
    then st.(free := [newSlab], chain := st.chain[newSlab := Countdown(n)])
    else st
  }

  /** cache_alloc: the new state and the object handed out. */
  function Alloc(st: State, n: nat, newSlab: nat): (State, Object)
    requires n >= 2 && Inv(st, n)
  {
    if st.part != [] then TakeFromPart(st, n) else TakeFromFree(Grown(st, n, newSlab), n)
  }

  function TakeFromPart(st: State, n: nat): (State, Object)
    requires Inv(st, n) && st.part != []
  {
    var b := st.part[0];
    assert b in st.part;
    var c := st.chain[b];
    var st' := st.(chain := st.chain[b := c[1..]]);
    (if |c| == 1 then st'.(part := st.part[1..], full := [b] + st.full) else st', (b, c[0]))
  }

  function TakeFromFree(st: State, n: nat): (State, Object)
    requires n > 0 && st.free != [] && st.free[0] in st.chain && st.chain[st.free[0]] != []
  {
    var b := st.free[0];
    var c := st.chain[b];
    (st.(free := st.free[1..], part := [b] + st.part, chain := st.chain[b := c[1..]]), (b, c[0]))
  }

  /** cache_free */
  function Free(st: State, n: nat, o: Object): State
    requires o.0 in st.chain
  {
    var (b, i) := o;
    var c := [i] + st.chain[b];
    var st' := st.(chain := st.chain[b := c]);
    if |c| == n then st'.(part := Removed(st.part, b), free := [b] + st.free)
    else if |c| == 1 then st'.(full := Removed(st.full, b), part := [b] + st.part)
    else st'
  }

  /** cache_shrink */
  function Shrink(st: State): State {
    st.(free := [], chain := st.chain - set b | b in st.free)
  }

  // ---- lists -------------------------------------------------------------------------------

  lemma {:induction false} RemovedIs(l: seq<nat>, b: nat, k: nat)
    requires Distinct(l) && k < |l| && l[k] == b
    ensures Removed(l, b) == l[..k] + l[k + 1..]
    decreases |l|
  {
    AllApart(l);
    if k > 0 {
      assert l[0] != b;
      RemovedIs(l[1..], b, k - 1);
      TailTaken(l, k);
    }
  }

  lemma {:induction false} TailTaken(l: seq<nat>, k: nat)
    requires 0 < k < |l|
    ensures [l[0]] + (l[1..][..k - 1] + l[1..][k..]) == l[..k] + l[k + 1..]
  {
    assert [l[0]] + l[1..][..k - 1] == l[..k];
    assert l[1..][k..] == l[k + 1..];
  }

  lemma {:induction false} RemovedMembers(l: seq<nat>, b: nat)
    requires Distinct(l) && b in l
    ensures Distinct(Removed(l, b))
    ensures forall x :: x in Removed(l, b) <==> x in l && x != b
    decreases |l|
  {
    AllApart(l);
    assert l == [l[0]] + l[1..];
    if l[0] != b {
      RemovedMembers(l[1..], b);
      Prepended(l[0], Removed(l[1..], b));
    }
  }

  lemma {:induction false} CountdownIsGood(n: nat)
    ensures GoodChain(Countdown(n), n)
    ensures forall i :: 0 <= i < n ==> i in Countdown(n)
  {
    forall i | 0 <= i < n
      ensures i in Countdown(n)
    {
      assert Countdown(n)[n - 1 - i] == i;
    }
  }

  /** The indices below `n`. */
  ghost function Below(n: nat): (r: set<nat>)
    ensures |r| == n
    ensures forall i: nat :: i in r <==> i < n
  {
    if n == 0 then {} else Below(n - 1) + {n - 1}
  }

  ghost function Elements(c: seq<nat>): (r: set<nat>)
    ensures forall i :: i in r <==> i in c
  {
    if c == [] then {} else Elements(c[1..]) + {c[0]}
  }

  lemma {:induction false} ChainCardinality(c: seq<nat>)
    requires Distinct(c)
    ensures |Elements(c)| == |c|
    decreases |c|
  {
    AllApart(c);
    if c != [] {
      ChainCardinality(c[1..]);
      assert c[0] !in Elements(c[1..]) by {
        assert forall k :: 0 <= k < |c| - 1 ==> c[1..][k] == c[k + 1];
      }
    }
  }

  lemma {:induction false} SubsetCardinality(a: set<nat>, b: set<nat>)
    requires a <= b
    ensures |a| <= |b|
    ensures |a| == |b| ==> a == b
    decreases a
  {
    if a != {} {
      var x :| x in a;
      SubsetCardinality(a - {x}, b - {x});
      assert |a - {x}| == |a| - 1 && |b - {x}| == |b| - 1;
    }
  }

  /** A chain is never longer than its slab, and one as long holds every object of it. */
  lemma {:induction false} ChainLength(c: seq<nat>, n: nat)
    requires GoodChain(c, n)
    ensures |c| <= n
    ensures |c| == n ==> forall i: nat :: i < n ==> i in c
  {
    ChainCardinality(c);
    SubsetCardinality(Elements(c), Below(n));
  }

  // ---- every operation keeps the invariant, and changes live objects as it says ---------------

  /** A new slab may have any address that is not in use. */
  ghost predicate Fresh(st: State, newSlab: nat) {
    newSlab !in st.chain
  }

  lemma {:induction false} GrownKeeps(st: State, n: nat, newSlab: nat)
    requires n >= 2 && Inv(st, n) && Fresh(st, newSlab) && st.part == []
    ensures Inv(Grown(st, n, newSlab), n)
    ensures forall o :: Live(Grown(st, n, newSlab), n, o) <==> Live(st, n, o)
  {
    CountdownIsGood(n);
    var after := Grown(st, n, newSlab);
    forall x | x in after.chain
      ensures Placed(after, n, x)
    {
      assert x != newSlab ==> Placed(st, n, x);
    }
  }

  /** An object handed out was not live before, and it is the only one that becomes live. */
  lemma {:induction false} AllocKeeps(st: State, n: nat, newSlab: nat)
    requires n >= 2 && Inv(st, n) && Fresh(st, newSlab)
    ensures
      var (st', o) := Alloc(st, n, newSlab);
      && Inv(st', n)
      && !Live(st, n, o)
      && forall x :: Live(st', n, x) <==> Live(st, n, x) || x == o
  {
    if st.part != [] {
      TakeFromPartKeeps(st, n);
    } else {
      GrownKeeps(st, n, newSlab);
      TakeFromFreeKeeps(Grown(st, n, newSlab), n);
    }
  }

  lemma {:induction false} TakeFromPartKeeps(st: State, n: nat)
    requires n >= 2 && Inv(st, n) && st.part != []
    ensures
      var (st', o) := TakeFromPart(st, n);
      && Inv(st', n) && !Live(st, n, o)
      && forall x :: Live(st', n, x) <==> Live(st, n, x) || x == o
  {
    TakeFirst(st.part);
    TakeFromChain(st, n, st.part[0]);
    assert st.part[0] !in st.full;
    Prepended(st.part[0], st.full);
    var after := TakeFromPart(st, n).0;
    forall x | x in after.chain
      ensures Placed(after, n, x)
    {
      assert Placed(st, n, x);
    }
  }

  lemma {:induction false} TakeFromFreeKeeps(st: State, n: nat)
    requires n >= 2 && Inv(st, n) && st.free != [] && st.free[0] in st.chain && st.chain[st.free[0]] != []
    ensures
      var (st', o) := TakeFromFree(st, n);
      && Inv(st', n) && !Live(st, n, o)
      && forall x :: Live(st', n, x) <==> Live(st, n, x) || x == o
  {
    TakeFirst(st.free);
    TakeFromChain(st, n, st.free[0]);
    assert st.free[0] !in st.part;
    Prepended(st.free[0], st.part);
    var after := TakeFromFree(st, n).0;
    forall x | x in after.chain
      ensures Placed(after, n, x)
    {
      assert Placed(st, n, x);
    }
  }

  lemma {:induction false} TakeFirst(l: seq<nat>)
    requires Distinct(l) && l != []
    ensures Distinct(l[1..]) && l[0] in l && forall b :: b in l[1..] <==> b in l && b != l[0]
  {
    AllApart(l);
    assert l == [l[0]] + l[1..];
  }

  lemma {:induction false} TakeFromChain(st: State, n: nat, b: nat)
    requires Inv(st, n) && b in st.chain && st.chain[b] != []
    ensures
      var c := st.chain[b];
      var st' := st.(chain := st.chain[b := c[1..]]);
      && GoodChain(c[1..], n) && !Live(st, n, (b, c[0]))
      && forall x :: Live(st', n, x) <==> Live(st, n, x) || x == (b, c[0])
  {
    assert Placed(st, n, b);
    TakeFirst(st.chain[b]);
  }

  /** A released object is no longer live, and it is the only one. */
  lemma {:induction false} FreeKeeps(st: State, n: nat, o: Object)
    requires n >= 2 && Inv(st, n) && Live(st, n, o)
    ensures Inv(Free(st, n, o), n)
    ensures forall x :: Live(Free(st, n, o), n, x) <==> Live(st, n, x) && x != o
  {
    var (b, i) := o;
    var c := [i] + st.chain[b];
    assert Placed(st, n, b);
    Prepended(i, st.chain[b]);
    ChainLength(st.chain[b], n);
    ChainLength(c, n);
    if b in st.part {
      RemovedMembers(st.part, b);
    } else {
      Prepended(b, st.part);
    }
    if b in st.full {
      RemovedMembers(st.full, b);
    }
    assert b !in st.free;
    Prepended(b, st.free);
    var after := Free(st, n, o);
    forall x | x in after.chain
      ensures Placed(after, n, x)
    {
      assert Placed(st, n, x);
    }
  }

  /** Shrinking drops the free slabs, which hold no live object, and only those. */
  lemma {:induction false} ShrinkKeeps(st: State, n: nat)
    requires n >= 2 && Inv(st, n)
    ensures Inv(Shrink(st), n)
    ensures forall x :: Live(Shrink(st), n, x) <==> Live(st, n, x)
    ensures forall o: Object :: o.0 in st.chain && o.0 !in Shrink(st).chain ==> !Live(st, n, o)
  {
    forall o: Object | o.0 in st.free
      ensures !Live(st, n, o)
    {
      assert Placed(st, n, o.0);
      ChainLength(st.chain[o.0], n);
    }
    forall x | x in Shrink(st).chain
      ensures Placed(Shrink(st), n, x)
    {
      assert Placed(st, n, x);
    }
  }

  // ---- whole runs --------------------------------------------------------------------------

  datatype Op = DoAlloc(newSlab: nat) | DoFree(o: Object) | DoShrink

  /** What the allocator of slabs and the caller promise: a new slab's address is not in
      use, and only an object that the caller holds is released. */
  ghost predicate Allowed(st: State, n: nat, held: set<Object>, op: Op) {
    match op
    case DoAlloc(newSlab) => Fresh(st, newSlab)
    case DoFree(o) => o in held && o.0 in st.chain
    case DoShrink => true
  }

  ghost function Step(st: State, n: nat, op: Op): State
    requires n >= 2 && Inv(st, n) && (op.DoFree? ==> op.o.0 in st.chain)
  {
    match op
    case DoAlloc(newSlab) => Alloc(st, n, newSlab).0
    case DoFree(o) => Free(st, n, o)
    case DoShrink => Shrink(st)
  }

  /** The objects the caller holds after an operation. */
  ghost function HeldAfter(st: State, n: nat, held: set<Object>, op: Op): set<Object>
    requires n >= 2 && Inv(st, n)
  {
    match op
    case DoAlloc(newSlab) => held + {Alloc(st, n, newSlab).1}
    case DoFree(o) => held - {o}
    case DoShrink => held
  }

  /** The live objects are exactly those the caller holds. */
  ghost predicate Agrees(st: State, n: nat, held: set<Object>) {
    forall o :: Live(st, n, o) <==> o in held
  }

  /** One step: the caller is never handed an object it holds. */
  lemma {:induction false} StepKeeps(st: State, n: nat, held: set<Object>, op: Op)
    requires n >= 2 && Inv(st, n) && Agrees(st, n, held) && Allowed(st, n, held, op)
    ensures Inv(Step(st, n, op), n)
    ensures Agrees(Step(st, n, op), n, HeldAfter(st, n, held, op))
    ensures op.DoAlloc? ==> Alloc(st, n, op.newSlab).1 !in held
  {
    match op
    case DoAlloc(newSlab) =>
      AllocKeeps(st, n, newSlab);
    case DoFree(o) =>
      FreeKeeps(st, n, o);
    case DoShrink =>
      ShrinkKeeps(st, n);
  }

  /** A run: every operation is allowed in the state that the ones before it lead to. (That
      the invariant holds there is proved below, not asked for.) */
  ghost predicate AllowedRun(st: State, n: nat, held: set<Object>, ops: seq<Op>)
    requires n >= 2 && Inv(st, n)
    decreases |ops|
  {
    ops != [] ==>
      && Allowed(st, n, held, ops[0])
      && (Inv(Step(st, n, ops[0]), n) ==>
            AllowedRun(Step(st, n, ops[0]), n, HeldAfter(st, n, held, ops[0]), ops[1..]))
  }

  /** The cache stays in order all along a run, the live objects are always those the caller
      holds, and each object handed out is new to the caller at that moment. */
  ghost predicate NeverTwice(st: State, n: nat, held: set<Object>, ops: seq<Op>)
    requires n >= 2 && Inv(st, n) && AllowedRun(st, n, held, ops)
    decreases |ops|
  {
    Agrees(st, n, held) && (ops != [] ==>
      && (ops[0].DoAlloc? ==> Alloc(st, n, ops[0].newSlab).1 !in held)
      && Inv(Step(st, n, ops[0]), n)
      && NeverTwice(Step(st, n, ops[0]), n, HeldAfter(st, n, held, ops[0]), ops[1..]))
  }

  lemma {:induction false} RunIsSafe(st: State, n: nat, held: set<Object>, ops: seq<Op>)
    requires n >= 2 && Inv(st, n) && Agrees(st, n, held) && AllowedRun(st, n, held, ops)
    ensures NeverTwice(st, n, held, ops)
    decreases |ops|
  {
    if ops != [] {
      StepKeeps(st, n, held, ops[0]);
      RunIsSafe(Step(st, n, ops[0]), n, HeldAfter(st, n, held, ops[0]), ops[1..]);
    }
  }

  /** The state right after cache_setup: one free slab. */
  function OneSlab(b: nat, n: nat): (st: State)
    ensures n >= 2 ==> Inv(st, n) && Agrees(st, n, {})
  {
    var st := State([b], [], [], map[b := Countdown(n)]);
    if n >= 2 then OneSlabKeeps(b, n); st else st
  }

  lemma {:induction false} OneSlabKeeps(b: nat, n: nat)
    requires n >= 2
    ensures
      var st := State([b], [], [], map[b := Countdown(n)]);
      Inv(st, n) && Agrees(st, n, {})
  {
    var none := State([], [], [], map[]);
    assert Grown(none, n, b) == State([b], [], [], map[b := Countdown(n)]);
    GrownKeeps(none, n, b);
    CountdownIsGood(n);
  }

  /** Every cache that any allowed calls lead to after cache_setup is in order, and none of the
      calls has handed out an object that was still held. */
  lemma {:induction false} EveryCacheIsSafe(b: nat, n: nat, ops: seq<Op>)
    requires n >= 2 && AllowedRun(OneSlab(b, n), n, {}, ops)
    ensures NeverTwice(OneSlab(b, n), n, {}, ops)
  {
    RunIsSafe(OneSlab(b, n), n, {}, ops);
  }

  // ---- conservation --------------------------------------------------------------------------

  /** The live objects of slab `b`. */
  ghost function LiveIn(st: State, n: nat, b: nat): set<nat>
    requires b in st.chain
  {
    Below(n) - Elements(st.chain[b])
  }

  /** In each slab, live and free objects add up to the objects of the slab. */
  lemma {:induction false} NothingLost(st: State, n: nat, b: nat)
    requires Inv(st, n) && b in st.chain
    ensures |LiveIn(st, n, b)| + |st.chain[b]| == n
    ensures forall i :: i in LiveIn(st, n, b) <==> Live(st, n, (b, i))
  {
    var c := st.chain[b];
    assert Placed(st, n, b);
    ChainCardinality(c);
    assert Elements(c) <= Below(n);
    assert LiveIn(st, n, b) + Elements(c) == Below(n);
  }

  ghost function SumLive(st: State, n: nat, bs: seq<nat>): nat
    requires forall b :: b in bs ==> b in st.chain
  {
    if bs == [] then 0 else |LiveIn(st, n, bs[0])| + SumLive(st, n, bs[1..])
  }

  ghost function SumFree(st: State, bs: seq<nat>): nat
    requires forall b :: b in bs ==> b in st.chain
  {
    if bs == [] then 0 else |st.chain[bs[0]]| + SumFree(st, bs[1..])
  }

  lemma {:induction false} SumsOver(st: State, n: nat, bs: seq<nat>)
    requires Inv(st, n) && forall b :: b in bs ==> b in st.chain
    ensures SumLive(st, n, bs) + SumFree(st, bs) == |bs| * n
    decreases |bs|
  {
    if bs != [] {
      assert bs[0] in bs;
      NothingLost(st, n, bs[0]);
      SumsOver(st, n, bs[1..]);
      OneMore(|bs[1..]|, n);
    }
  }

  lemma {:induction false} OneMore(k: nat, n: nat)
    ensures (k + 1) * n == n + k * n
  {
  }

  /** The slabs of all three lists. */
  function Slabs(st: State): seq<nat> {
    st.free + st.part + st.full
  }

  /** The lists hold every slab exactly once, and live plus free objects are the number of
      slabs times the objects per slab. */
  lemma {:induction false} Conservation(st: State, n: nat)
    requires n >= 2 && Inv(st, n)
    ensures Distinct(Slabs(st)) && forall b :: b in Slabs(st) <==> b in st.chain
    ensures SumLive(st, n, Slabs(st)) + SumFree(st, Slabs(st)) == |Slabs(st)| * n
  {
    forall b | b in st.chain
      ensures b in Slabs(st)
    {
      assert Placed(st, n, b);
      ChainLength(st.chain[b], n);
    }
    forall i, j | 0 <= i < j < |Slabs(st)|
      ensures Differ(Slabs(st), i, j)
    {
      SlabsDiffer(st, n, i, j);
    }
    SumsOver(st, n, Slabs(st));
  }

  lemma {:induction false} SlabsDiffer(st: State, n: nat, i: nat, j: nat)
    requires n >= 2 && Inv(st, n) && i < j < |Slabs(st)|
    ensures Slabs(st)[i] != Slabs(st)[j]
  {
    AllApart(st.free);
    AllApart(st.part);
    AllApart(st.full);
    var f, p := |st.free|, |st.free + st.part|;
    assert i < f ==> Slabs(st)[i] == st.free[i] && st.free[i] in st.free;
    assert f <= i < p ==> Slabs(st)[i] == st.part[i - f] && st.part[i - f] in st.part;
    assert p <= i ==> Slabs(st)[i] == st.full[i - p];
    assert j < f ==> Slabs(st)[j] == st.free[j];
    assert f <= j < p ==> Slabs(st)[j] == st.part[j - f] && st.part[j - f] in st.part;
    assert p <= j ==> Slabs(st)[j] == st.full[j - p] && st.full[j - p] in st.full;
  }
}
