/** The singly linked list of strings and one pass of its sorting thread: nodes are relinked in
    place, first behind the head and then the head itself. */
module ListSort {
  import opened Sequences
  import opened ByteStrings

  class Node {
    const data: Text
    var next: Node?

    constructor (data: Text, next: Node?)
      ensures this.data == data && this.next == next
    {
      this.data, this.next := data, next;
    }
  }

  // ---- lists of nodes, by value ------------------------------------------------------------

  ghost function NodeAt(ns: seq<Node>, i: nat): Node? {
    if i < |ns| then ns[i] else null
  }

  ghost predicate LinkedAt(ns: seq<Node>, i: nat)
    reads ns
  {
    i < |ns| ==> ns[i].next == NodeAt(ns, i + 1)
  }

  /** The nodes are linked in this order, none of them twice; the last one ends the list. */
  ghost predicate Linked(ns: seq<Node>)
    reads ns
  {
    Distinct(ns) && forall i {:trigger LinkedAt(ns, i)} :: 0 <= i < |ns| ==> LinkedAt(ns, i)
  }

  /** The nodes of a list are among those that an operation may relink. */
  ghost predicate Within(ns: seq<Node>, repr: set<Node>) {
    forall x :: x in ns ==> x in repr
  }

  ghost function Data(ns: seq<Node>): (r: seq<Text>)
    ensures |r| == |ns| && forall i :: 0 <= i < |ns| ==> r[i] == ns[i].data
  {
    seq(|ns|, i requires 0 <= i < |ns| => ns[i].data)
  }

  ghost function Exchange(ns: seq<Node>, a: nat, b: nat): (r: seq<Node>)
    requires a < |ns| && b < |ns|
    ensures |r| == |ns| && multiset(r) == multiset(ns)
    ensures forall k :: 0 <= k < |ns| ==> r[k] == ns[if k == a then b else if k == b then a else k]
  {
    ns[a := ns[b]][b := ns[a]]
  }

  lemma {:induction false} ExchangeIsDistinct(ns: seq<Node>, a: nat, b: nat)
    requires Distinct(ns) && a < |ns| && b < |ns|
    ensures Distinct(Exchange(ns, a, b))
  {
    var r := Exchange(ns, a, b);
    forall i, j | 0 <= i < j < |r|
      ensures Differ(r, i, j)
    {
      Apart(ns, if i == a then b else if i == b then a else i, if j == a then b else if j == b then a else j);
    }
  }

  lemma {:induction false} SameMembers(ns: seq<Node>, ms: seq<Node>, repr: set<Node>)
    requires multiset(ns) == multiset(ms) && Within(ns, repr)
    ensures |ns| == |ms| && Within(ms, repr)
  {
    assert |multiset(ns)| == |ns| && |multiset(ms)| == |ms|;
    forall x | x in ms
      ensures x in repr
    {
      assert x in multiset(ms);
      assert x in ns;
    }
  }

  // ---- order, by value -----------------------------------------------------------------------

  /** The nodes after the head are in order up to position `p`, and no later node is smaller
      than one of those. */
  ghost predicate SortedTo(ns: seq<Node>, p: nat) {
    forall a, b :: 1 <= a <= p && a < b < |ns| ==> AtMost(ns[a].data, ns[b].data)
  }

  /** The node after position `p` is the least one up to position `q`. */
  ghost predicate LeastTo(ns: seq<Node>, p: nat, q: nat) {
    p + 1 < |ns| && forall b :: p + 1 < b <= q && b < |ns| ==> AtMost(ns[p + 1].data, ns[b].data)
  }

  lemma {:induction false} KeepLeast(ns: seq<Node>, p: nat, q: nat)
    requires LeastTo(ns, p, q) && p < q && q + 1 < |ns|
    requires StrCmp(ns[p + 1].data, ns[q + 1].data) <= 0
    ensures LeastTo(ns, p, q + 1)
  {
  }

  lemma {:induction false} NewLeast(ns: seq<Node>, p: nat, q: nat)
    requires LeastTo(ns, p, q) && SortedTo(ns, p) && p < q && q + 1 < |ns|
    requires StrCmp(ns[p + 1].data, ns[q + 1].data) > 0
    ensures LeastTo(Exchange(ns, p + 1, q + 1), p, q + 1) && SortedTo(Exchange(ns, p + 1, q + 1), p)
  {
    var least, new_ := ns[p + 1].data, ns[q + 1].data;
    Total(least, new_);
    var ms := Exchange(ns, p + 1, q + 1);
    forall b | p + 1 < b <= q + 1
      ensures AtMost(ms[p + 1].data, ms[b].data)
    {
      if b <= q {
        Transitive(new_, least, ns[b].data);
      }
    }
  }

  lemma {:induction false} LeastSorts(ns: seq<Node>, p: nat)
    requires SortedTo(ns, p) && LeastTo(ns, p, |ns|)
    ensures SortedTo(ns, p + 1)
  {
  }

  /** The head put in after position `k`, which is the last one not greater than the head. */
  ghost function HeadMoved(ns: seq<Node>, k: nat): (r: seq<Node>)
    requires k < |ns|
    ensures multiset(r) == multiset(ns) && |r| == |ns|
    ensures forall i :: 0 <= i < |ns| ==> r[i] == ns[if i < k then i + 1 else if i == k then 0 else i]
  {
    assert ns == [ns[0]] + ns[1..k + 1] + ns[k + 1..];
    ns[1..k + 1] + [ns[0]] + ns[k + 1..]
  }

  lemma {:induction false} HeadMovedDistinct(ns: seq<Node>, k: nat)
    requires Distinct(ns) && k < |ns|
    ensures Distinct(HeadMoved(ns, k))
  {
    var ms := HeadMoved(ns, k);
    forall i, j | 0 <= i < j < |ms|
      ensures Differ(ms, i, j)
    {
      Apart(ns, if i < k then i + 1 else if i == k then 0 else i, if j < k then j + 1 else if j == k then 0 else j);
    }
  }

  lemma {:induction false} HeadMovedAscending(ns: seq<Node>, k: nat)
    requires k < |ns| && SortedTo(ns, |ns|)
    requires forall b :: 1 <= b <= k ==> AtMost(ns[b].data, ns[0].data)
    requires k + 1 < |ns| ==> AtMost(ns[0].data, ns[k + 1].data)
    ensures Ascending(Data(HeadMoved(ns, k)))
  {
    var ms := HeadMoved(ns, k);
    AscendingByCmp(Data(ms));
    forall i, j | 0 <= i < j < |ms|
      ensures AtMost(ms[i].data, ms[j].data)
    {
      if i == k && j > k + 1 {
        Transitive(ns[0].data, ns[k + 1].data, ns[j].data);
      }
    }
  }

  // ---- the outcome of a pass -----------------------------------------------------------------

  lemma {:induction false} WithoutMultiset<T>(s: seq<T>, j: nat)
    requires j < |s|
    ensures multiset(s) == multiset(Without(s, j)) + multiset{s[j]}
    ensures multiset(Without(s, j)) == multiset(s) - multiset{s[j]}
  {
    assert s == s[..j] + [s[j]] + s[j + 1..];
  }

  lemma {:induction false} DataWithout(ns: seq<Node>, j: nat)
    requires j < |ns|
    ensures multiset(Data(ns)) == multiset(Data(Without(ns, j))) + multiset{ns[j].data}
  {
    assert Data(Without(ns, j)) == Without(Data(ns), j);
    WithoutMultiset(Data(ns), j);
  }

  lemma {:induction false} DataPermuted(ns: seq<Node>, ms: seq<Node>)
    requires multiset(ns) == multiset(ms)
    ensures multiset(Data(ns)) == multiset(Data(ms))
    decreases |ns|
  {
    assert |multiset(ns)| == |ns| && |multiset(ms)| == |ms|;
    if ns == [] {
      assert Data(ns) == Data(ms);
    } else {
      assert ns[0] in multiset(ns) && ns[0] in multiset(ms);
      var j :| 0 <= j < |ms| && ms[j] == ns[0];
      WithoutMultiset(ns, 0);
      WithoutMultiset(ms, j);
      DataPermuted(Without(ns, 0), Without(ms, j));
      DataWithout(ns, 0);
      DataWithout(ms, j);
    }
  }

  /** Whatever order the same nodes started in, ascending order reads the same; so a pass over
      a list already in order leaves its text as it is. */
  lemma {:induction false} OneOutcome(ns: seq<Node>, ms: seq<Node>)
    requires multiset(ns) == multiset(ms) && Ascending(Data(ns)) && Ascending(Data(ms))
    ensures Data(ns) == Data(ms)
  {
    DataPermuted(ns, ms);
    OneAscendingOrder(Data(ns), Data(ms));
  }

  // ---- exchanging nodes in place -------------------------------------------------------------

  /** swap_after, of the nodes after two positions that are not neighbours. */
  method SwapAfter(lParent: Node?, rParent: Node?, ghost ns: seq<Node>, ghost i: nat, ghost j: nat)
    requires Linked(ns)
    requires lParent != null ==> i < |ns| && lParent == ns[i]
    requires rParent != null ==> j < |ns| && rParent == ns[j]
    requires lParent != null && rParent != null ==> i + 2 <= j
    modifies ns
    ensures lParent == null || rParent == null || j + 1 == |ns| ==> Linked(ns)
    ensures lParent != null && rParent != null && j + 1 < |ns| ==> Linked(Exchange(ns, i + 1, j + 1))
  {
    if lParent == null || rParent == null {
      return;
    }
    assert LinkedAt(ns, i) && LinkedAt(ns, j);
    var lChild := lParent.next;
    var rChild := rParent.next;
    if lChild == null || rChild == null {
      return;
    }
    assert LinkedAt(ns, i + 1) && LinkedAt(ns, j + 1);
    assert Differ(ns, i, i + 1) && Differ(ns, i, j) && Differ(ns, i, j + 1);
    assert Differ(ns, i + 1, j) && Differ(ns, i + 1, j + 1) && Differ(ns, j, j + 1);
    var lGrandChild := lChild.next;
    var rGrandChild := rChild.next;
    lParent.next := rChild;
    rChild.next := lGrandChild;
    rParent.next := lChild;
    lChild.next := rGrandChild;
    ghost var ms := Exchange(ns, i + 1, j + 1);
    ExchangeIsDistinct(ns, i + 1, j + 1);
    forall k | 0 <= k < |ms|
      ensures LinkedAt(ms, k)
    {
      if k !in {i, i + 1, j, j + 1} {
        assert old(LinkedAt(ns, k));
        Apart(ns, k, i);
        Apart(ns, k, i + 1);
        Apart(ns, k, j);
        Apart(ns, k, j + 1);
      }
    }
  }

  /** swap_after_neighbours, of a node that is not the last one and the node before it. */
  method SwapAfterNeighbours(lParent: Node, rParent: Node, ghost ns: seq<Node>, ghost i: nat, ghost j: nat)
    requires Linked(ns) && i < |ns| && j + 1 < |ns| && lParent == ns[i] && rParent == ns[j]
    modifies ns
    ensures j != i + 1 ==> Linked(ns)
    ensures j == i + 1 ==> Linked(Exchange(ns, i + 1, i + 2))
  {
    assert LinkedAt(ns, i) && LinkedAt(ns, j) && LinkedAt(ns, j + 1);
    if lParent.next != rParent {
      return;
    }
    if j != i + 1 {
      Apart(ns, i + 1, j);
    }
    assert Differ(ns, i, i + 1) && Differ(ns, i, i + 2) && Differ(ns, i + 1, i + 2);
    lParent.next := rParent.next;
    rParent.next := lParent.next.next;
    lParent.next.next := rParent;
    ghost var ms := Exchange(ns, i + 1, i + 2);
    ExchangeIsDistinct(ns, i + 1, i + 2);
    forall k | 0 <= k < |ms|
      ensures LinkedAt(ms, k)
    {
      if k !in {i, i + 1, i + 2} {
        assert old(LinkedAt(ns, k));
        Apart(ns, k, i);
        Apart(ns, k, i + 1);
        Apart(ns, k, i + 2);
      }
    }
  }

  /** One comparison of the inner loop, with the exchange it may call for. The node that ends
      up at position `q` is returned. */
  method CompareAndSwap(out: Node, inner: Node, ghost ns: seq<Node>, ghost p: nat, ghost q: nat)
    returns (inner': Node, ghost ms: seq<Node>)
    requires Linked(ns) && p < q && q + 1 < |ns| && out == ns[p] && inner == ns[q]
    requires SortedTo(ns, p) && LeastTo(ns, p, q)
    modifies ns
    ensures Linked(ms) && multiset(ms) == multiset(ns) && |ms| == |ns| && ms[..p + 1] == ns[..p + 1]
    ensures q < |ms| && inner' == ms[q] && SortedTo(ms, p) && LeastTo(ms, p, q + 1)
  {
    ms, inner' := ns, inner;
    assert LinkedAt(ns, p) && LinkedAt(ns, q);
    if StrCmp(out.next.data, inner.next.data) > 0 {
      NewLeast(ns, p, q);
      ms := Exchange(ns, p + 1, q + 1);
      if out.next == inner {
        assert q == p + 1 by {
          if q != p + 1 {
            Apart(ns, p + 1, q);
          }
        }
        SwapAfterNeighbours(out, inner, ns, p, q);
        assert LinkedAt(ms, p);
        inner' := out.next;
      } else {
        SwapAfter(out, inner, ns, p, q);
      }
    } else {
      KeepLeast(ns, p, q);
    }
  }

  /** The inner loop of the pass: the node after `out` becomes the least of the nodes behind
      `out`. */
  method SelectLeast(out: Node, ghost ns: seq<Node>, ghost p: nat, ghost repr: set<Node>) returns (ghost ms: seq<Node>)
    requires Linked(ns) && Within(ns, repr) && p + 1 < |ns| && out == ns[p] && SortedTo(ns, p)
    modifies repr
    ensures Linked(ms) && multiset(ms) == multiset(ns) && |ms| == |ns| && ms[..p + 1] == ns[..p + 1]
    ensures SortedTo(ms, p) && LeastTo(ms, p, |ms|)
  {
    ms := ns;
    assert LinkedAt(ns, p);
    var inner := out.next;
    ghost var q: nat := p + 1;
    assert LinkedAt(ns, q);
    while inner.next != null
      invariant Linked(ms) && multiset(ms) == multiset(ns) && |ms| == |ns| && Within(ms, repr)
      invariant p < q < |ms| && inner == ms[q] && LinkedAt(ms, q)
      invariant ms[..p + 1] == ns[..p + 1]
      invariant SortedTo(ms, p) && LeastTo(ms, p, q)
      decreases |ms| - q
    {
      ghost var before := ms;
      assert out == ms[..p + 1][p];
      inner, ms := CompareAndSwap(out, inner, ms, p, q);
      SameMembers(before, ms, repr);
      assert LinkedAt(ms, q) && LinkedAt(ms, q + 1);
      inner := inner.next;
      q := q + 1;
    }
  }

  /** The outer loop of the pass: everything behind the head gets sorted. */
  method SortBehind(head: Node, ghost ns: seq<Node>, ghost repr: set<Node>) returns (ghost ms: seq<Node>)
    requires Linked(ns) && Within(ns, repr) && ns != [] && head == ns[0]
    modifies repr
    ensures Linked(ms) && multiset(ms) == multiset(ns) && |ms| == |ns| && ms[0] == ns[0]
    ensures SortedTo(ms, |ms|)
  {
    ms := ns;
    var out := head;
    ghost var p: nat := 0;
    assert LinkedAt(ns, 0);
    while out.next != null
      invariant Linked(ms) && multiset(ms) == multiset(ns) && Within(ms, repr)
      invariant p < |ms| == |ns| && out == ms[p] && LinkedAt(ms, p) && ms[0] == ns[0]
      invariant SortedTo(ms, p)
      decreases |ms| - p
    {
      ghost var before := ms;
      ms := SelectLeast(out, before, p, repr);
      SameMembers(before, ms, repr);
      assert ms[0] == ms[..p + 1][0] && before[0] == before[..p + 1][0];
      assert ms[p] == ms[..p + 1][p] && before[p] == before[..p + 1][p];
      LeastSorts(ms, p);
      assert LinkedAt(ms, p) && LinkedAt(ms, p + 1);
      out := out.next;
      p := p + 1;
    }
  }

  /** The stores that put the head `ns[0]` in between position `k` and the node after it. */
  method InsertHead(head: Node, first: Node, ghost ns: seq<Node>, ghost k: nat) returns (newHead: Node?)
    requires Linked(ns) && 0 < k && k + 1 < |ns| && head == ns[0] && first == ns[k]
    modifies ns
    ensures Linked(HeadMoved(ns, k)) && newHead == HeadMoved(ns, k)[0]
  {
    assert LinkedAt(ns, 0) && LinkedAt(ns, k) && Differ(ns, 0, k);
    newHead := head.next;
    head.next := first.next;
    first.next := head;
    ghost var ms := HeadMoved(ns, k);
    HeadMovedDistinct(ns, k);
    forall i | 0 <= i < |ms|
      ensures LinkedAt(ms, i)
    {
      if i != k && i != k - 1 {
        ghost var j := if i < k then i + 1 else i;
        assert old(LinkedAt(ns, j));
        Apart(ns, j, 0);
        Apart(ns, j, k);
      }
    }
  }

  /** The stores that put the head at the end, also when it is the only node. */
  method AppendHead(head: Node, first: Node, ghost ns: seq<Node>, ghost k: nat) returns (newHead: Node?)
    requires Linked(ns) && k + 1 == |ns| && head == ns[0] && first == ns[k]
    modifies ns
    ensures Linked(HeadMoved(ns, k)) && newHead == HeadMoved(ns, k)[0]
  {
    assert LinkedAt(ns, 0) && LinkedAt(ns, k) && (k > 0 ==> Differ(ns, 0, k));
    first.next := head;
    newHead := head.next;
    first.next.next := null;
    ghost var ms := HeadMoved(ns, k);
    HeadMovedDistinct(ns, k);
    forall i | 0 <= i < |ms|
      ensures LinkedAt(ms, i)
    {
      if i != k && i != k - 1 {
        assert old(LinkedAt(ns, i + 1));
        Apart(ns, i + 1, 0);
        Apart(ns, i + 1, k);
      }
    }
  }

  // ---- the list ------------------------------------------------------------------------------

  class LinkedList {
    var head: Node?
    ghost var nodes: seq<Node>

    ghost predicate Valid()
      reads this, nodes
    {
      Linked(nodes) && head == NodeAt(nodes, 0)
    }

    /** l_init */
    constructor ()
      ensures Valid() && nodes == []
    {
      head, nodes := null, [];
    }

    /** l_push_front */
    method PushFront(str: Text)
      requires Valid()
      modifies this
      ensures Valid() && |nodes| == |old(nodes)| + 1 && nodes[1..] == old(nodes)
      ensures fresh(nodes[0]) && nodes[0].data == str
    {
      ghost var ns := nodes;
      var newNode := new Node(str, head);
      head := newNode;
      nodes := [newNode] + ns;
      forall i, j | 0 <= i < j < |nodes|
        ensures Differ(nodes, i, j)
      {
        if i > 0 {
          Apart(ns, i - 1, j - 1);
        }
      }
      forall i | 0 <= i < |nodes|
        ensures LinkedAt(nodes, i)
      {
        if i > 0 {
          assert old(LinkedAt(ns, i - 1));
        }
      }
    }

    /** The head is put in behind `first`, which is not the last node, unless it is the head. */
    method PutBehind(first: Node, ghost k: nat)
      requires Valid() && k + 1 < |nodes| && first == nodes[k]
      modifies this, nodes
      ensures Valid() && nodes == HeadMoved(old(nodes), k) && first.next != null
    {
      assert LinkedAt(nodes, 0) && LinkedAt(nodes, k) && (k > 0 ==> Differ(nodes, 1, k + 1));
      if first.next == head.next {
        assert k == 0;
        assert HeadMoved(nodes, 0) == nodes;
        return;
      }
      head := InsertHead(head, first, nodes, k);
      nodes := HeadMoved(nodes, k);
      assert LinkedAt(nodes, k - 1);
    }

    /** The head is put in behind `first`, which is the last node. */
    method PutAtEnd(first: Node, ghost k: nat)
      requires Valid() && k + 1 == |nodes| && first == nodes[k]
      modifies this, nodes
      ensures Valid() && nodes == HeadMoved(old(nodes), k)
    {
      head := AppendHead(head, first, nodes, k);
      nodes := HeadMoved(nodes, k);
    }

    /** The end of the pass: the head is put in where it belongs among the sorted rest. */
    method PlaceHead()
      requires Valid() && nodes != [] && SortedTo(nodes, |nodes|)
      modifies this, nodes
      ensures Valid() && multiset(nodes) == multiset(old(nodes)) && Ascending(Data(nodes))
    {
      ghost var ns := nodes;
      var first := head;
      ghost var k: nat := 0;
      assert LinkedAt(ns, 0);
      while first.next != null
        invariant Valid() && nodes == ns && k < |ns| && first == ns[k] && LinkedAt(ns, k)
        invariant forall b {:trigger ns[b]} :: 1 <= b <= k ==> AtMost(ns[b].data, ns[0].data)
        decreases |ns| - k
      {
        Total(head.data, first.next.data);
        if StrCmp(head.data, first.next.data) < 0 {
          HeadMovedAscending(ns, k);
          PutBehind(first, k);
          break;
        }
        assert LinkedAt(ns, k + 1);
        first := first.next;
        k := k + 1;
      }
      if first.next == null {
        HeadMovedAscending(ns, k);
        PutAtEnd(first, k);
      }
    }

    /** One pass of l_sort: the same nodes, linked in ascending order. */
    method SortPass()
      requires Valid()
      modifies this, nodes
      ensures Valid() && multiset(nodes) == multiset(old(nodes)) && Ascending(Data(nodes))
    {
      if head != null {
        ghost var ns := nodes;
        ghost var repr := set x | x in ns;
        nodes := SortBehind(head, ns, repr);
        SameMembers(ns, nodes, repr);
        PlaceHead();
      }
    }
  }
}
