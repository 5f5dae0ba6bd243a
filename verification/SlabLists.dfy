/** The doubly linked slab lists and the free chains, as words of memory. */
module SlabLists {
  import opened SlabLayout
  import opened Sequences
  import opened SlabState

  type Words = map<Word, nat>

  /** Element `i` of a list, or null past its end. */
  function Nth(l: seq<nat>, i: int): nat {
    if 0 <= i < |l| then l[i] else 0
  }

  /** The next and prev words of the slabs of `l` link them in order. */
  ghost predicate Linked(ws: Words, l: seq<nat>) {
    forall i :: 0 <= i < |l| ==> LinkedHere(ws, l, i)
  }

  ghost predicate LinkedHere(ws: Words, l: seq<nat>, i: nat)
    requires i < |l|
  {
    LinkedTo(ws, l[i], Nth(l, i - 1), Nth(l, i + 1))
  }

  ghost predicate LinkedTo(ws: Words, b: nat, prev: nat, next: nat) {
    NextOf(b) in ws && ws[NextOf(b)] == next && PrevOf(b) in ws && ws[PrevOf(b)] == prev
  }

  /** The words of slab `b` count and chain the objects `c`. Only as many links as objects
      are free mean anything: in a full slab the free pointer is stale. */
  ghost predicate Chained(g: Geometry, ws: Words, b: nat, c: seq<nat>) {
    && AmountOf(b) in ws && ws[AmountOf(b)] == |c|
    && FreeOf(b) in ws && (c != [] ==> ws[FreeOf(b)] == ObjectAt(g, b, c[0]))
    && forall k :: 0 <= k < |c| - 1 ==> Link(b, c[k]) in ws && ws[Link(b, c[k])] == ObjectAt(g, b, c[k + 1])
  }

  ghost predicate NonNull(l: seq<nat>) {
    forall b :: b in l ==> b > 0
  }

  /** The stores of delete_slab_from_list. */
  ghost function Unlinked(ws: Words, l: seq<nat>, k: nat): Words {
    Bypassed(ws, Nth(l, k - 1), Nth(l, k + 1))
  }

  /** The neighbours `prev` and `next`, where they exist, linked to each other. */
  ghost function Bypassed(ws: Words, prev: nat, next: nat): Words {
    var w1 := if next != 0 then ws[PrevOf(next) := prev] else ws;
    if prev != 0 then w1[NextOf(prev) := next] else w1
  }

  lemma {:induction false} BypassedAt(ws: Words, prev: nat, next: nat, b: nat, p: nat, n: nat)
    requires LinkedTo(ws, b, p, n) && b > 0
    ensures LinkedTo(Bypassed(ws, prev, next), b, if b == next then prev else p, if b == prev then next else n)
  {
  }

  /** The stores of insert_slab_to_list. */
  ghost function Inserted(ws: Words, l: seq<nat>, b: nat): Words {
    Fronted(ws, Nth(l, 0), b)
  }

  /** Slab `b` linked in front of `head`, where that exists. */
  ghost function Fronted(ws: Words, head: nat, b: nat): Words {
    var w1 := ws[NextOf(b) := head][PrevOf(b) := 0];
    if head != 0 then w1[PrevOf(head) := b] else w1
  }

  lemma {:induction false} UnlinkedIsLinked(ws: Words, l: seq<nat>, k: nat)
    requires Linked(ws, l) && Distinct(l) && NonNull(l) && k < |l|
    ensures Linked(Unlinked(ws, l, k), l[..k] + l[k + 1..])
  {
    var m := l[..k] + l[k + 1..];
    forall i | 0 <= i < |m|
      ensures LinkedHere(Unlinked(ws, l, k), m, i)
    {
      UnlinkedAt(ws, l, k, i);
    }
  }

  lemma {:induction false} UnlinkedAt(ws: Words, l: seq<nat>, k: nat, i: nat)
    requires Linked(ws, l) && Distinct(l) && NonNull(l) && k < |l| && i < |l| - 1
    ensures
      var m := l[..k] + l[k + 1..];
      LinkedTo(Unlinked(ws, l, k), m[i], Nth(m, i - 1), Nth(m, i + 1))
  {
    var j := if i < k then i else i + 1;
    NeighboursAfter(l, k, i);
    assert LinkedHere(ws, l, j);
    SamePlace(l, j, k - 1);
    SamePlace(l, j, k + 1);
    BypassedAt(ws, Nth(l, k - 1), Nth(l, k + 1), l[j], Nth(l, j - 1), Nth(l, j + 1)) by {
      assert l[j] in l;
    }
  }

  lemma {:induction false} SamePlace(l: seq<nat>, j: nat, k: int)
    requires Distinct(l) && NonNull(l) && j < |l|
    ensures l[j] == Nth(l, k) <==> j == k
  {
    AllApart(l);
    assert l[j] in l;
  }

  /** The neighbours of an element after element `k` is gone. */
  lemma {:induction false} NeighboursAfter(l: seq<nat>, k: nat, i: nat)
    requires k < |l| && i < |l| - 1
    ensures
      var m := l[..k] + l[k + 1..];
      var j := if i < k then i else i + 1;
      && m[i] == l[j]
      && Nth(m, i - 1) == (if j == k + 1 then Nth(l, k - 1) else Nth(l, j - 1))
      && Nth(m, i + 1) == (if j == k - 1 then Nth(l, k + 1) else Nth(l, j + 1))
  {
  }

  lemma {:induction false} InsertedIsLinked(ws: Words, l: seq<nat>, b: nat)
    requires Linked(ws, l) && Distinct(l) && NonNull(l) && b !in l
    ensures Linked(Inserted(ws, l, b), [b] + l)
  {
    AllApart(l);
    assert l != [] ==> l[0] in l;
    var m := [b] + l;
    var ws' := Inserted(ws, l, b);
    forall i | 0 <= i < |m|
      ensures LinkedHere(ws', m, i)
    {
      if i > 0 {
        assert m[i] == l[i - 1] && l[i - 1] in l;
        assert LinkedHere(ws, l, i - 1);
      }
    }
  }

  /** Words that belong to slabs outside `touched` are the same. */
  ghost predicate SameOutside(ws: Words, ws': Words, touched: set<nat>) {
    forall w: Word {:trigger ws'[w]} {:trigger w in ws'} :: w.b !in touched && w in ws ==> w in ws' && ws'[w] == ws[w]
  }

  /** Only next and prev words differ. */
  ghost predicate OnlyLinks(ws: Words, ws': Words) {
    forall w: Word {:trigger ws'[w]} {:trigger w in ws'} ::
      !w.NextOf? && !w.PrevOf? && w in ws ==> w in ws' && ws'[w] == ws[w]
  }

  lemma {:induction false} UnlinkedTouches(ws: Words, l: seq<nat>, k: nat, touched: set<nat>)
    requires NonNull(l) && forall b :: b in l ==> b in touched
    ensures SameOutside(ws, Unlinked(ws, l, k), touched) && OnlyLinks(ws, Unlinked(ws, l, k))
  {
  }

  lemma {:induction false} InsertedTouches(ws: Words, l: seq<nat>, b: nat, touched: set<nat>)
    requires b in touched && forall x :: x in l ==> x in touched
    ensures SameOutside(ws, Inserted(ws, l, b), touched) && OnlyLinks(ws, Inserted(ws, l, b))
  {
  }

  lemma {:induction false} LinkedFrame(ws: Words, ws': Words, l: seq<nat>, touched: set<nat>)
    requires Linked(ws, l) && SameOutside(ws, ws', touched) && forall b :: b in l ==> b !in touched
    ensures Linked(ws', l)
  {
    forall i | 0 <= i < |l|
      ensures LinkedHere(ws', l, i)
    {
      assert LinkedHere(ws, l, i) && l[i] in l;
    }
  }

  lemma {:induction false} ChainedFrame(g: Geometry, ws: Words, ws': Words, b: nat, c: seq<nat>, touched: set<nat>)
    requires Chained(g, ws, b, c)
    requires OnlyLinks(ws, ws') || (SameOutside(ws, ws', touched) && b !in touched)
    ensures Chained(g, ws', b, c)
  {
  }

  ghost predicate Apart(l: seq<nat>, m: seq<nat>) {
    forall b :: b in l ==> b !in m
  }

  /** Slab `k` of one list moved to the front of another; a third list is not concerned. */
  lemma {:induction false} MovedIsLinked(ws: Words, from: seq<nat>, k: nat, to: seq<nat>, other: seq<nat>)
    requires Linked(ws, from) && Linked(ws, to) && Linked(ws, other)
    requires Distinct(from) && Distinct(to) && NonNull(from) && NonNull(to) && k < |from|
    requires Apart(from, to) && Apart(other, from) && Apart(other, to)
    ensures
      var ws' := Inserted(Unlinked(ws, from, k), to, from[k]);
      && Linked(ws', from[..k] + from[k + 1..])
      && Linked(ws', [from[k]] + to)
      && Linked(ws', other)
      && OnlyLinks(ws, ws')
  {
    var b, rest := from[k], from[..k] + from[k + 1..];
    var w1 := Unlinked(ws, from, k);
    var w2 := Inserted(w1, to, b);
    var inFrom := set x | x in from;
    var inTo := (set x | x in to) + {b};
    assert b in from;
    UnlinkedIsLinked(ws, from, k);
    UnlinkedTouches(ws, from, k, inFrom);
    LinkedFrame(ws, w1, to, inFrom);
    LinkedFrame(ws, w1, other, inFrom);
    InsertedIsLinked(w1, to, b);
    InsertedTouches(w1, to, b, inTo);
    LinkedFrame(w1, w2, other, inTo);
    RestApart(from, k, to);
    LinkedFrame(w1, w2, rest, inTo);
  }

  lemma {:induction false} RestApart(from: seq<nat>, k: nat, to: seq<nat>)
    requires Distinct(from) && k < |from| && Apart(from, to)
    ensures forall x :: x in from[..k] + from[k + 1..] ==> x in from && x != from[k] && x !in to
  {
    AllApart(from);
  }

  /** Taking the first object of a chain: the count goes down and, unless the chain is used
      up, the free pointer moves on along the link in the object. */
  lemma {:induction false} TakenIsChained(g: Geometry, ws: Words, b: nat, c: seq<nat>)
    requires Chained(g, ws, b, c) && c != []
    ensures
      var w1 := ws[AmountOf(b) := |c| - 1];
      if |c| == 1 then Chained(g, w1, b, c[1..])
      else Link(b, c[0]) in ws && Chained(g, w1[FreeOf(b) := ws[Link(b, c[0])]], b, c[1..])
  {
    if |c| > 1 {
      assert Link(b, c[0]) in ws && ws[Link(b, c[0])] == ObjectAt(g, b, c[1]);
      forall k | 0 <= k < |c| - 2
        ensures Link(b, c[1..][k]) in ws && ws[Link(b, c[1..][k])] == ObjectAt(g, b, c[1..][k + 1])
      {
        assert Link(b, c[k + 1]) in ws && ws[Link(b, c[k + 1])] == ObjectAt(g, b, c[k + 2]);
      }
    }
  }

  /** The words after object `i` of slab `b` is put back in front of the chain `c`. */
  ghost function PutBack(g: Geometry, ws: Words, b: nat, c: seq<nat>, i: nat): Words {
    if FreeOf(b) in ws
    then ws[Link(b, i) := ws[FreeOf(b)]][FreeOf(b) := ObjectAt(g, b, i)][AmountOf(b) := |c| + 1]
    else ws
  }

  /** Putting back object `i`: it links to the old first object and becomes the first. */
  lemma {:induction false} PutBackIsChained(g: Geometry, ws: Words, b: nat, c: seq<nat>, i: nat)
    requires Chained(g, ws, b, c) && i !in c
    ensures Chained(g, PutBack(g, ws, b, c, i), b, [i] + c)
  {
    var ws' := PutBack(g, ws, b, c, i);
    var d := [i] + c;
    forall k | 0 <= k < |d| - 1
      ensures Link(b, d[k]) in ws' && ws'[Link(b, d[k])] == ObjectAt(g, b, d[k + 1])
    {
      if k > 0 {
        assert d[k] == c[k - 1] && c[k - 1] in c;
        assert Link(b, c[k - 1]) in ws && ws[Link(b, c[k - 1])] == ObjectAt(g, b, c[k]);
      }
    }
  }

  // ---- a whole state in memory ----------------------------------------------------------------

  ghost predicate ListsShown(ws: Words, st: State) {
    Linked(ws, st.free) && Linked(ws, st.part) && Linked(ws, st.full)
  }

  ghost predicate ChainsShown(g: Geometry, ws: Words, chain: map<nat, seq<nat>>) {
    && (forall b {:trigger Chained(g, ws, b, chain[b])} {:trigger Aligned(g, b)} ::
          b in chain ==> Aligned(g, b) && Chained(g, ws, b, chain[b]))
    && (forall w :: w in ws ==> w.b in chain)
  }

  /** The lists of a state are of different slabs, and hold no null. */
  lemma {:induction false} ListsApart(g: Geometry, ws: Words, st: State, n: nat)
    requires n >= 2 && Inv(st, n) && ChainsShown(g, ws, st.chain)
    ensures Apart(st.free, st.part) && Apart(st.free, st.full) && Apart(st.part, st.full)
    ensures Apart(st.part, st.free) && Apart(st.full, st.free) && Apart(st.full, st.part)
    ensures SlabList(g, st.chain, st.free) && SlabList(g, st.chain, st.part) && SlabList(g, st.chain, st.full)
  {
    forall b | b in st.chain
      ensures Aligned(g, b)
    {
      assert Chained(g, ws, b, st.chain[b]);
    }
  }

  /** A list of slabs of the cache, none of them twice. */
  ghost predicate SlabList(g: Geometry, chain: map<nat, seq<nat>>, l: seq<nat>) {
    Distinct(l) && forall b :: b in l ==> b in chain && Aligned(g, b)
  }

  /** Words of one slab that are not list links were rewritten for a new chain. */
  ghost predicate OnlyChainOf(ws: Words, ws': Words, b: nat) {
    && SameOutside(ws, ws', {b})
    && (forall w: Word {:trigger w in ws'} :: w in ws' && w !in ws ==> w.b == b)
    && (NextOf(b) in ws ==> NextOf(b) in ws' && ws'[NextOf(b)] == ws[NextOf(b)])
    && (PrevOf(b) in ws ==> PrevOf(b) in ws' && ws'[PrevOf(b)] == ws[PrevOf(b)])
  }

  lemma {:induction false} NewChainShown(g: Geometry, ws: Words, ws': Words, st: State, b: nat, c: seq<nat>)
    requires ListsShown(ws, st) && ChainsShown(g, ws, st.chain) && b in st.chain
    requires OnlyChainOf(ws, ws', b) && Chained(g, ws', b, c)
    ensures ListsShown(ws', st) && ChainsShown(g, ws', st.chain[b := c])
  {
    LinkedSame(ws, ws', st.free, b);
    LinkedSame(ws, ws', st.part, b);
    LinkedSame(ws, ws', st.full, b);
    forall x | x in st.chain && x != b
      ensures Chained(g, ws', x, st.chain[x])
    {
      ChainedFrame(g, ws, ws', x, st.chain[x], {b});
    }
  }

  lemma {:induction false} LinkedSame(ws: Words, ws': Words, l: seq<nat>, b: nat)
    requires Linked(ws, l) && OnlyChainOf(ws, ws', b)
    ensures Linked(ws', l)
  {
    forall i | 0 <= i < |l|
      ensures LinkedHere(ws', l, i)
    {
      assert LinkedHere(ws, l, i);
    }
  }

  /** Changes of list links leave the chains as they are. */
  lemma {:induction false} ChainsKept(g: Geometry, ws: Words, ws': Words, chain: map<nat, seq<nat>>)
    requires ChainsShown(g, ws, chain) && OnlyLinks(ws, ws')
    requires forall w :: w in ws' ==> w.b in chain
    ensures ChainsShown(g, ws', chain)
  {
    forall x | x in chain
      ensures Chained(g, ws', x, chain[x])
    {
      ChainedFrame(g, ws, ws', x, chain[x], {});
    }
  }

  lemma {:induction false} MovedKeys(ws: Words, from: seq<nat>, k: nat, to: seq<nat>, chain: map<nat, seq<nat>>)
    requires k < |from| && (forall b :: b in from || b in to ==> b in chain) && forall w :: w in ws ==> w.b in chain
    ensures forall w :: w in Inserted(Unlinked(ws, from, k), to, from[k]) ==> w.b in chain
  {
    assert from[k] in from;
    assert k > 0 ==> from[k - 1] in from;
    assert k + 1 < |from| ==> from[k + 1] in from;
    assert to != [] ==> to[0] in to;
  }

  // ---- the words after each operation ------------------------------------------------------------

  ghost predicate Shown(g: Geometry, ws: Words, st: State) {
    ListsShown(ws, st) && ChainsShown(g, ws, st.chain)
  }

  /** The words after slab `from[k]` has moved to the front of `to`. */
  ghost function Moved(ws: Words, from: seq<nat>, k: nat, to: seq<nat>): Words
    requires k < |from|
  {
    Inserted(Unlinked(ws, from, k), to, from[k])
  }

  /** A slab whose chain was rewritten moves from one list to another. */
  lemma {:induction false} MoveShown(g: Geometry, ws: Words, w1: Words, st: State,
                                     from: seq<nat>, k: nat, rest: seq<nat>, to: seq<nat>, other: seq<nat>, c: seq<nat>)
    requires Shown(g, ws, st) && k < |from| && rest == from[..k] + from[k + 1..]
    requires Linked(ws, from) && Linked(ws, to) && Linked(ws, other)
    requires SlabList(g, st.chain, from) && SlabList(g, st.chain, to)
    requires Apart(from, to) && Apart(other, from) && Apart(other, to)
    requires OnlyChainOf(ws, w1, from[k]) && Chained(g, w1, from[k], c)
    ensures
      var w2 := Moved(w1, from, k, to);
      && Linked(w2, rest) && Linked(w2, [from[k]] + to) && Linked(w2, other)
      && from[k] in st.chain && ChainsShown(g, w2, st.chain[from[k] := c])
  {
    assert from[k] in from;
    NewChainShown(g, ws, w1, st, from[k], c);
    LinkedSame(ws, w1, from, from[k]);
    LinkedSame(ws, w1, to, from[k]);
    LinkedSame(ws, w1, other, from[k]);
    MovedIsLinked(w1, from, k, to, other);
    MovedKeys(w1, from, k, to, st.chain);
    ChainsKept(g, w1, Moved(w1, from, k, to), st.chain[from[k] := c]);
  }

  /** The words after the first of several objects of slab `b` is taken. */
  ghost function Advanced(ws: Words, b: nat, c: seq<nat>): Words
    requires |c| > 1
  {
    var w1 := ws[AmountOf(b) := |c| - 1];
    if Link(b, c[0]) in ws then w1[FreeOf(b) := ws[Link(b, c[0])]] else w1
  }

  lemma {:induction false} NextOfPartShown(g: Geometry, ws: Words, st: State, n: nat)
    requires n >= 2 && Inv(st, n) && Shown(g, ws, st) && st.part != []
    requires st.part[0] in st.chain && |st.chain[st.part[0]]| > 1
    ensures Shown(g, Advanced(ws, st.part[0], st.chain[st.part[0]]), TakeFromPart(st, n).0)
  {
    var b := st.part[0];
    var c := st.chain[b];
    assert Chained(g, ws, b, c);
    TakenIsChained(g, ws, b, c);
    NewChainShown(g, ws, Advanced(ws, b, c), st, b, c[1..]);
  }

  lemma {:induction false} LastOfPartShown(g: Geometry, ws: Words, st: State, n: nat)
    requires n >= 2 && Inv(st, n) && Shown(g, ws, st) && st.part != []
    requires st.part[0] in st.chain && |st.chain[st.part[0]]| == 1
    ensures Shown(g, Moved(ws[AmountOf(st.part[0]) := 0], st.part, 0, st.full), TakeFromPart(st, n).0)
  {
    var b := st.part[0];
    var c := st.chain[b];
    var w1 := ws[AmountOf(b) := 0];
    assert Chained(g, ws, b, c);
    assert Chained(g, w1, b, c[1..]);
    ListsApart(g, ws, st, n);
    MoveShown(g, ws, w1, st, st.part, 0, st.part[1..], st.full, st.free, c[1..]);
    assert TakeFromPart(st, n).0 == State(st.free, st.part[1..], [b] + st.full, st.chain[b := c[1..]]);
  }

  /** The words after cache_alloc on the first partly allocated slab. */
  ghost function PartWords(ws: Words, st: State): Words
    requires st.part != [] && st.part[0] in st.chain && st.chain[st.part[0]] != []
  {
    var b := st.part[0];
    if |st.chain[b]| == 1 then Moved(ws[AmountOf(b) := 0], st.part, 0, st.full)
    else Advanced(ws, b, st.chain[b])
  }

  lemma {:induction false} PartShown(g: Geometry, ws: Words, st: State, n: nat)
    requires n >= 2 && Inv(st, n) && Shown(g, ws, st) && st.part != []
    ensures st.part[0] in st.chain && st.chain[st.part[0]] != []
    ensures Inv(TakeFromPart(st, n).0, n) && Shown(g, PartWords(ws, st), TakeFromPart(st, n).0)
  {
    assert st.part[0] in st.part;
    if |st.chain[st.part[0]]| == 1 {
      LastOfPartShown(g, ws, st, n);
    } else {
      NextOfPartShown(g, ws, st, n);
    }
    TakeFromPartKeeps(st, n);
  }

  /** The heads of the lists after cache_alloc on the first partly allocated slab. */
  lemma {:induction false} PartHeads(st: State, n: nat)
    requires Inv(st, n) && st.part != [] && st.part[0] in st.chain
    ensures
      var last := |st.chain[st.part[0]]| == 1;
      var st' := TakeFromPart(st, n).0;
      && Nth(st'.part, 0) == (if last then Nth(st.part, 1) else st.part[0])
      && Nth(st'.full, 0) == (if last then st.part[0] else Nth(st.full, 0))
      && Nth(st'.free, 0) == Nth(st.free, 0)
  {
  }

  lemma {:induction false} FirstOfFreeShown(g: Geometry, ws: Words, st: State, n: nat)
    requires n >= 2 && Inv(st, n) && Shown(g, ws, st) && st.free != []
    requires st.free[0] in st.chain && st.chain[st.free[0]] != []
    ensures |st.chain[st.free[0]]| > 1 && Inv(TakeFromFree(st, n).0, n)
    ensures Shown(g, Moved(Advanced(ws, st.free[0], st.chain[st.free[0]]), st.free, 0, st.part), TakeFromFree(st, n).0)
  {
    var b := st.free[0];
    assert b in st.free;
    TakeFromFreeKeeps(st, n);
    var c := st.chain[b];
    assert Chained(g, ws, b, c);
    TakenIsChained(g, ws, b, c);
    ListsApart(g, ws, st, n);
    MoveShown(g, ws, Advanced(ws, b, c), st, st.free, 0, st.free[1..], st.part, st.full, c[1..]);
    assert TakeFromFree(st, n).0 == State(st.free[1..], [b] + st.part, st.full, st.chain[b := c[1..]]);
  }

  /** Where in its list the slab of a live object is found, when releasing the object moves
      the slab to another list. */
  ghost predicate Found(st: State, n: nat, o: Object, k: nat)
    requires o.0 in st.chain
  {
    && (|st.chain[o.0]| + 1 == n ==> k < |st.part| && st.part[k] == o.0)
    && (|st.chain[o.0]| == 0 ==> k < |st.full| && st.full[k] == o.0)
  }

  lemma {:induction false} Find(st: State, n: nat, o: Object) returns (k: nat)
    requires n >= 2 && Inv(st, n) && Live(st, n, o)
    ensures Found(st, n, o, k)
  {
    assert Placed(st, n, o.0);
    k := 0;
    if |st.chain[o.0]| + 1 == n {
      k :| 0 <= k < |st.part| && st.part[k] == o.0;
    } else if |st.chain[o.0]| == 0 {
      k :| 0 <= k < |st.full| && st.full[k] == o.0;
    }
  }

  /** The words after cache_free. */
  ghost function FreeWords(g: Geometry, ws: Words, st: State, n: nat, o: Object, k: nat): Words
    requires n >= 2 && o.0 in st.chain && Found(st, n, o, k)
  {
    var c := st.chain[o.0];
    var w1 := PutBack(g, ws, o.0, c, o.1);
    if |c| + 1 == n then Moved(w1, st.part, k, st.free)
    else if |c| == 0 then Moved(w1, st.full, k, st.part)
    else w1
  }

  lemma {:induction false} FreeShown(g: Geometry, ws: Words, st: State, n: nat, o: Object, k: nat)
    requires n >= 2 && Inv(st, n) && Shown(g, ws, st) && Live(st, n, o) && Found(st, n, o, k)
    ensures Inv(Free(st, n, o), n) && Shown(g, FreeWords(g, ws, st, n, o, k), Free(st, n, o))
  {
    var (b, i) := o;
    var c := st.chain[b];
    var w1 := PutBack(g, ws, b, c, i);
    assert Chained(g, ws, b, c);
    PutBackIsChained(g, ws, b, c, i);
    FreeKeeps(st, n, o);
    ListsApart(g, ws, st, n);
    if |c| + 1 == n {
      RemovedIs(st.part, b, k);
      MoveShown(g, ws, w1, st, st.part, k, Removed(st.part, b), st.free, st.full, [i] + c);
    } else if |c| == 0 {
      RemovedIs(st.full, b, k);
      MoveShown(g, ws, w1, st, st.full, k, Removed(st.full, b), st.part, st.free, [i] + c);
    } else {
      NewChainShown(g, ws, w1, st, b, [i] + c);
    }
  }

  /** The heads of the lists after cache_free. */
  lemma {:induction false} FreeHeads(st: State, n: nat, o: Object, k: nat)
    requires n >= 2 && Inv(st, n) && Live(st, n, o) && Found(st, n, o, k)
    ensures
      var toFree := |st.chain[o.0]| + 1 == n;
      var toPart := |st.chain[o.0]| == 0;
      var st' := Free(st, n, o);
      && Nth(st'.free, 0) == (if toFree then o.0 else Nth(st.free, 0))
      && Nth(st'.part, 0) == (if toPart then o.0 else if toFree && k == 0 then Nth(st.part, 1) else Nth(st.part, 0))
      && Nth(st'.full, 0) == (if toPart && k == 0 then Nth(st.full, 1) else Nth(st.full, 0))
  {
    if |st.chain[o.0]| + 1 == n {
      RemovedIs(st.part, o.0, k);
    } else if |st.chain[o.0]| == 0 {
      RemovedIs(st.full, o.0, k);
    }
  }

  /** The words that can still be relied on when the caller may have written to object `o`. */
  ghost function Forgotten(ws: Words, o: Object): Words {
    map w | w in ws && w != Link(o.0, o.1) :: ws[w]
  }

  /** Whatever becomes of the first word of an object that the caller holds, the cache is as
      before. */
  lemma {:induction false} CallerMayWrite(g: Geometry, ws: Words, st: State, n: nat, o: Object, ws': Words)
    requires Inv(st, n) && Shown(g, ws, st) && Live(st, n, o)
    requires forall w {:trigger ws'[w]} {:trigger w in ws'} :: w != Link(o.0, o.1) ==>
               (w in ws' <==> w in ws) && (w in ws ==> ws'[w] == ws[w])
    ensures Shown(g, ws', st)
  {
    var (b, i) := o;
    var c := st.chain[b];
    assert Chained(g, ws, b, c);
    forall k | 0 <= k < |c| - 1
      ensures Link(b, c[k]) in ws' && ws'[Link(b, c[k])] == ObjectAt(g, b, c[k + 1])
    {
      assert c[k] in c;
    }
    NewChainShown(g, ws, ws', st, b, c);
    assert st.chain[b := c] == st.chain;
  }

  /** No other word of the cache lies at an address inside a live object. */
  lemma {:induction false} WordsElsewhere(g: Geometry, ws: Words, st: State, o: Object, a: nat)
    requires WellShaped(g) && Shown(g, ws, st) && Live(st, g.objects, o)
    requires ObjectAt(g, o.0, o.1) <= a < ObjectAt(g, o.0, o.1) + g.objectSize
    ensures forall w {:trigger Addr(g, w)} :: w in ws && ValidWord(g, w) && w != Link(o.0, o.1) ==>
              Addr(g, w) + PTR_SIZE <= ObjectAt(g, o.0, o.1)
              || ObjectAt(g, o.0, o.1) + g.objectSize <= Addr(g, w)
  {
    assert Chained(g, ws, o.0, st.chain[o.0]);
    forall w {:trigger Addr(g, w)} | w in ws && ValidWord(g, w) && w != Link(o.0, o.1)
      ensures Addr(g, w) + PTR_SIZE <= ObjectAt(g, o.0, o.1)
              || ObjectAt(g, o.0, o.1) + g.objectSize <= Addr(g, w)
    {
      WordOutsideObject(g, w, o.0, o.1);
    }
  }

  /** What the methods need to know of slab `b` of a list and its neighbours. */
  ghost predicate Place(g: Geometry, ws: Words, b: nat, prev: nat, next: nat) {
    && Aligned(g, b) && LinkedTo(ws, b, prev, next) && prev != b && next != b
    && MaybeSlab(g, prev) && MaybeSlab(g, next)
  }

  ghost predicate MaybeSlab(g: Geometry, b: nat) {
    b != 0 ==> Aligned(g, b)
  }

  lemma {:induction false} PlaceShown(g: Geometry, ws: Words, st: State, n: nat, l: seq<nat>, k: nat)
    requires n >= 2 && Inv(st, n) && Shown(g, ws, st) && k < |l|
    requires l == st.free || l == st.part || l == st.full
    ensures Place(g, ws, l[k], Nth(l, k - 1), Nth(l, k + 1))
    ensures l[k] in st.chain && Chained(g, ws, l[k], st.chain[l[k]])
    ensures Nth(l, k - 1) == 0 <==> k == 0
  {
    AllApart(l);
    ListsApart(g, ws, st, n);
    assert SlabList(g, st.chain, l) && Linked(ws, l);
    assert LinkedHere(ws, l, k) && l[k] in l;
    assert Chained(g, ws, l[k], st.chain[l[k]]);
    assert k > 0 ==> l[k - 1] in l;
    assert k + 1 < |l| ==> l[k + 1] in l;
  }

  /** All that cache_alloc needs to know to take from the first free slab. */
  lemma {:induction false} FreeAllocReady(g: Geometry, ws: Words, st: State, n: nat)
    requires n >= 2 && Inv(st, n) && Shown(g, ws, st) && st.free != []
    requires st.free[0] in st.chain && st.chain[st.free[0]] != []
    ensures |st.chain[st.free[0]]| > 1 && Chained(g, ws, st.free[0], st.chain[st.free[0]])
    ensures Place(g, ws, st.free[0], 0, Nth(st.free, 1)) && MaybeSlab(g, Nth(st.part, 0))
  {
    assert st.free[0] in st.free;
    PlaceShown(g, ws, st, n, st.free, 0);
    HeadsShown(g, ws, st, n);
  }

  /** The heads of the lists after cache_alloc on the first free slab. */
  lemma {:induction false} FreeAllocHeads(st: State, n: nat)
    requires n > 0 && st.free != [] && st.free[0] in st.chain && st.chain[st.free[0]] != []
    ensures
      var st' := TakeFromFree(st, n).0;
      && Nth(st'.free, 0) == Nth(st.free, 1)
      && Nth(st'.part, 0) == st.free[0]
      && Nth(st'.full, 0) == Nth(st.full, 0)
  {
  }

  /** What the methods need to know of the slab of a live object. */
  ghost predicate LiveSlabPlace(g: Geometry, ws: Words, st: State, n: nat, o: Object, k: nat) {
    && o.0 in st.chain && o.1 < n && Found(st, n, o, k)
    && Aligned(g, o.0) && Chained(g, ws, o.0, st.chain[o.0])
    && (|st.chain[o.0]| + 1 == n ==> PlaceIn(g, ws, st.part, k))
    && (|st.chain[o.0]| == 0 ==> PlaceIn(g, ws, st.full, k))
  }

  ghost predicate PlaceIn(g: Geometry, ws: Words, l: seq<nat>, k: nat) {
    k < |l| && Place(g, ws, l[k], Nth(l, k - 1), Nth(l, k + 1)) && (Nth(l, k - 1) == 0 <==> k == 0)
  }

  lemma {:induction false} LiveSlab(g: Geometry, ws: Words, st: State, n: nat, o: Object, k: nat)
    requires n >= 2 && Inv(st, n) && Shown(g, ws, st) && Live(st, n, o) && Found(st, n, o, k)
    ensures LiveSlabPlace(g, ws, st, n, o, k)
  {
    assert Chained(g, ws, o.0, st.chain[o.0]);
    if |st.chain[o.0]| + 1 == n {
      PlaceShown(g, ws, st, n, st.part, k);
    } else if |st.chain[o.0]| == 0 {
      PlaceShown(g, ws, st, n, st.full, k);
    }
  }

  lemma {:induction false} HeadsShown(g: Geometry, ws: Words, st: State, n: nat)
    requires n >= 2 && Inv(st, n) && Shown(g, ws, st)
    ensures (Nth(st.free, 0) == 0 <==> st.free == []) && MaybeSlab(g, Nth(st.free, 0))
    ensures (Nth(st.part, 0) == 0 <==> st.part == []) && MaybeSlab(g, Nth(st.part, 0))
    ensures (Nth(st.full, 0) == 0 <==> st.full == []) && MaybeSlab(g, Nth(st.full, 0))
  {
    ListsApart(g, ws, st, n);
    assert st.free != [] ==> st.free[0] in st.free;
    assert st.part != [] ==> st.part[0] in st.part;
    assert st.full != [] ==> st.full[0] in st.full;
  }

  // ---- a new slab --------------------------------------------------------------------------

  /** initialize_new_free_slab with the objects above `i` chained so far: the free pointer and
      the links lead from the last object down to object `i + 1`. */
  ghost predicate Building(g: Geometry, ws0: Words, ws: Words, b: nat, n: nat, i: int) {
    && -1 <= i < n
    && AmountOf(b) in ws && ws[AmountOf(b)] == n && LinkedTo(ws, b, 0, 0)
    && (i < n - 1 ==> FreeOf(b) in ws && ws[FreeOf(b)] == ObjectAt(g, b, n - 1))
    && (forall k :: i + 1 < k < n ==> Link(b, k) in ws && ws[Link(b, k)] == ObjectAt(g, b, k - 1))
    && SameOutside(ws0, ws, {b})
    && (forall w :: w in ws && w !in ws0 ==> w.b == b)
  }

  /** The word that the next object's address goes into. */
  function LastLink(b: nat, n: nat, i: int): Word
    requires -1 <= i < n
  {
    if i == n - 1 then FreeOf(b) else Link(b, i + 1)
  }

  lemma {:induction false} BuildOne(g: Geometry, ws0: Words, ws: Words, b: nat, n: nat, i: nat)
    requires Building(g, ws0, ws, b, n, i)
    ensures Building(g, ws0, ws[LastLink(b, n, i) := ObjectAt(g, b, i)], b, n, i - 1)
  {
  }

  lemma {:induction false} Built(g: Geometry, ws0: Words, ws: Words, b: nat, n: nat)
    requires Building(g, ws0, ws, b, n, -1) && n > 0
    ensures Chained(g, ws, b, Countdown(n))
  {
    var c := Countdown(n);
    forall k | 0 <= k < n - 1
      ensures Link(b, c[k]) in ws && ws[Link(b, c[k])] == ObjectAt(g, b, c[k + 1])
    {
      assert c[k] == n - 1 - k && c[k + 1] == n - 2 - k;
    }
  }

  /** A new slab, with its own words and not in any list yet, becomes the only free slab. */
  lemma {:induction false} NewSlabShown(g: Geometry, ws: Words, ws': Words, st: State, b: nat, c: seq<nat>)
    requires Shown(g, ws, st) && st.free == [] && Aligned(g, b) && b !in st.chain
    requires SlabList(g, st.chain, st.part) && SlabList(g, st.chain, st.full)
    requires SameOutside(ws, ws', {b}) && LinkedTo(ws', b, 0, 0) && Chained(g, ws', b, c)
    requires forall w :: w in ws' && w !in ws ==> w.b == b
    ensures Shown(g, ws', st.(free := [b], chain := st.chain[b := c]))
  {
    LinkedFrame(ws, ws', st.part, {b});
    LinkedFrame(ws, ws', st.full, {b});
    forall x | x in st.chain
      ensures Aligned(g, x) && Chained(g, ws', x, st.chain[x])
    {
      assert Chained(g, ws, x, st.chain[x]);
      ChainedFrame(g, ws, ws', x, st.chain[x], {b});
    }
  }

  // ---- slabs given back --------------------------------------------------------------------

  /** The words that remain when the slabs of `l` are given back. */
  ghost function Dropped(ws: Words, l: seq<nat>): Words {
    map w | w in ws && w.b !in l :: ws[w]
  }

  lemma {:induction false} DropOne(ws: Words, l: seq<nat>, i: nat)
    requires Linked(ws, l) && Distinct(l) && i < |l|
    ensures LinkedTo(Dropped(ws, l[..i]), l[i], Nth(l, i - 1), Nth(l, i + 1))
    ensures Dropped(Dropped(ws, l[..i]), [l[i]]) == Dropped(ws, l[..i + 1])
  {
    AllApart(l);
    assert LinkedHere(ws, l, i);
    assert l[i] !in l[..i];
    assert l[..i + 1] == l[..i] + [l[i]];
  }

  lemma {:induction false} LinkedDropped(ws: Words, l: seq<nat>, m: seq<nat>)
    requires Linked(ws, m) && Apart(m, l)
    ensures Linked(Dropped(ws, l), m)
  {
    forall i | 0 <= i < |m|
      ensures LinkedHere(Dropped(ws, l), m, i)
    {
      assert LinkedHere(ws, m, i) && m[i] in m;
    }
  }

  lemma {:induction false} ShrinkShown(g: Geometry, ws: Words, st: State, n: nat)
    requires n >= 2 && Inv(st, n) && Shown(g, ws, st)
    ensures Shown(g, Dropped(ws, st.free), Shrink(st))
  {
    var ws' := Dropped(ws, st.free);
    ListsApart(g, ws, st, n);
    LinkedDropped(ws, st.free, st.part);
    LinkedDropped(ws, st.free, st.full);
    forall b | b in Shrink(st).chain
      ensures Aligned(g, b) && Chained(g, ws', b, Shrink(st).chain[b])
    {
      assert Chained(g, ws, b, st.chain[b]);
    }
  }

  /** When the slabs of all three lists are given back, no word remains. */
  lemma {:induction false} AllDropped(g: Geometry, ws: Words, st: State, n: nat)
    requires n >= 2 && Inv(st, n) && Shown(g, ws, st)
    ensures Linked(Dropped(ws, st.free), st.part)
    ensures Linked(Dropped(Dropped(ws, st.free), st.part), st.full)
    ensures Dropped(Dropped(Dropped(ws, st.free), st.part), st.full) == map[]
  {
    ListsApart(g, ws, st, n);
    LinkedDropped(ws, st.free, st.part);
    LinkedDropped(ws, st.free, st.full);
    LinkedDropped(Dropped(ws, st.free), st.part, st.full);
    forall w | w in ws
      ensures w.b in st.free || w.b in st.part || w.b in st.full
    {
      assert Placed(st, n, w.b);
      ChainLength(st.chain[w.b], n);
    }
  }

  lemma {:induction false} OneSlabShown(g: Geometry, ws: Words, b: nat, n: nat)
    requires n >= 2 && Aligned(g, b) && LinkedTo(ws, b, 0, 0) && Chained(g, ws, b, Countdown(n))
    requires forall w :: w in ws ==> w.b == b
    ensures Inv(OneSlab(b, n), n) && Shown(g, ws, OneSlab(b, n))
  {
    OneSlabKeeps(b, n);
    NewSlabShown(g, map[], ws, State([], [], [], map[]), b, Countdown(n));
  }

  /** Live objects never overlap each other or a slab header, and clearing the low bits of the
      address of one gives its slab. */
  lemma {:induction false} LiveObjectsApart(g: Geometry, ws: Words, st: State, o: Object, p: Object, b: nat)
    requires WellShaped(g) && Shown(g, ws, st) && Live(st, g.objects, o) && Live(st, g.objects, p) && b in st.chain
    ensures o != p ==> (|| ObjectAt(g, o.0, o.1) + g.objectSize <= ObjectAt(g, p.0, p.1)
                        || ObjectAt(g, p.0, p.1) + g.objectSize <= ObjectAt(g, o.0, o.1))
    ensures || ObjectAt(g, o.0, o.1) + g.objectSize <= Header(g, b)
            || Header(g, b) + SLAB_HEADER_SIZE <= ObjectAt(g, o.0, o.1)
    ensures SlabStart(g, ObjectAt(g, o.0, o.1)) == o.0
  {
    assert Chained(g, ws, o.0, st.chain[o.0]);
    assert Chained(g, ws, p.0, st.chain[p.0]);
    assert Chained(g, ws, b, st.chain[b]);
    if o != p {
      ObjectsApart(g, o.0, o.1, p.0, p.1);
    }
    ObjectFits(g, o.0, o.1);
    SlabStartRecovers(g, o.0, ObjectAt(g, o.0, o.1));
    if b < o.0 {
      SlabsApart(g, b, o.0);
    } else if o.0 < b {
      SlabsApart(g, o.0, b);
    }
  }
}
