/** Where a slab keeps its header words and its objects, and the sizes a cache chooses. */
module SlabLayout {

  const PAGE_SIZE := 4096
  const MAX_PAGE_ORDER := 10
  const PTR_SIZE := 8
  const SLAB_HEADER_SIZE := 32

  /** What cache_setup fixes for the life of a cache. */
  datatype Geometry = Geometry(objectSize: nat, order: nat, objects: nat)

  function Pow2(k: nat): (r: nat)
    ensures r > 0
  {
    if k == 0 then 1 else 2 * Pow2(k - 1)
  }

  /** Bytes of a slab, which are also its alignment. */
  function SlabSize(order: nat): (r: nat)
    ensures r > 0
  {
    PAGE_SIZE * Pow2(order)
  }

  const INT_MAX := 0x7fff_ffff

  /** A size stored in an int. */
  function ToInt(q: nat): (r: int)
    ensures -INT_MAX - 1 <= r <= INT_MAX && (q - r) % (2 * (INT_MAX + 1)) == 0
    ensures q <= INT_MAX ==> r == q
  {
    var w := q % (2 * (INT_MAX + 1));
    if w > INT_MAX then w - 2 * (INT_MAX + 1) else w
  }

  /** The pages an object needs, but none for an object smaller than a page; from 2^43 bytes on
      the quotient no longer fits an int. */
  function Pages(objectSize: nat): (q: int)
    ensures objectSize < PAGE_SIZE ==> q == 0
    ensures PAGE_SIZE <= objectSize <= PAGE_SIZE * INT_MAX ==>
              0 < q <= INT_MAX && PAGE_SIZE * (q - 1) < objectSize <= PAGE_SIZE * q
    ensures objectSize >= PAGE_SIZE ==>
              ((objectSize + PAGE_SIZE - 1) / PAGE_SIZE - q) % (2 * (INT_MAX + 1)) == 0
  {
    ToInt(objectSize / PAGE_SIZE) + if objectSize % PAGE_SIZE != 0 && objectSize > PAGE_SIZE then 1 else 0
  }

  function ObjectSize(size: nat): nat {
    if size < PTR_SIZE then PTR_SIZE else size
  }

  /** The order that cache_setup computes has not overflowed an int, and one can be shifted by
      it. */
  predicate HasOrder(size: nat) {
    0 <= Pages(ObjectSize(size)) <= INT_MAX
  }

  /** The sizes that cache_setup chooses. */
  function Setup(size: nat): Geometry
    requires HasOrder(size)
  {
    var pages := Pages(ObjectSize(size));
    var order := if pages > MAX_PAGE_ORDER then MAX_PAGE_ORDER else pages;
    Geometry(ObjectSize(size), order, ObjectsIn(Room(order), ObjectSize(size)))
  }

  /** Bytes of a slab before its header. */
  function Room(order: nat): nat {
    SlabHoldsHeader(order);
    SlabSize(order) - SLAB_HEADER_SIZE
  }

  function ObjectsIn(room: nat, objectSize: nat): nat
    requires objectSize > 0
  {
    room / objectSize
  }

  lemma {:induction false} SlabHoldsHeader(order: nat)
    ensures SlabSize(order) >= PAGE_SIZE
  {
  }

  /** Objects hold at least a pointer and end before the header. */
  ghost predicate WellShaped(g: Geometry) {
    g.objectSize >= PTR_SIZE && g.objects * g.objectSize <= SlabSize(g.order) - SLAB_HEADER_SIZE
  }

  lemma {:induction false} SetupIsWellShaped(size: nat)
    requires HasOrder(size)
    ensures WellShaped(Setup(size))
  {
    SlabHoldsHeader(Setup(size).order);
    Quotient(Room(Setup(size).order), Setup(size).objectSize);
  }

  /** A slab is filled: there is no room for one more object. */
  lemma {:induction false} SlabIsFull(size: nat)
    requires HasOrder(size)
    ensures
      var g := Setup(size);
      g.objects * g.objectSize <= SlabSize(g.order) - SLAB_HEADER_SIZE < (g.objects + 1) * g.objectSize
  {
    var g := Setup(size);
    SlabHoldsHeader(g.order);
    Filled(Room(g.order), g.objectSize);
  }

  lemma {:induction false} Filled(room: nat, objectSize: nat)
    requires objectSize > 0
    ensures ObjectsIn(room, objectSize) * objectSize <= room < (ObjectsIn(room, objectSize) + 1) * objectSize
  {
    Quotient(room, objectSize);
    OneMore(room / objectSize, objectSize);
  }

  lemma {:induction false} OneMore(q: nat, d: nat)
    ensures (q + 1) * d == q * d + d
  {
  }

  /** The sizes that cache_setup chooses, by the size asked for: objects of less than a page get
      slabs of one page, others of two to the power of the pages that one object needs, up to
      1024. */
  lemma {:induction false} SetupBySize(size: nat)
    requires size <= PAGE_SIZE * INT_MAX
    ensures HasOrder(size)
    ensures Setup(size).objectSize == if size < 8 then 8 else size
    ensures
      var order := Setup(size).order;
      && (order == 0 <==> size < 4096)
      && (forall k :: 1 <= k <= 9 ==> (order == k <==> 4096 * (k - 1) < size <= 4096 * k && size >= 4096))
      && (order == 10 <==> size > 4096 * 9)
      && order <= 10
  {
  }

  lemma {:induction false} SlabSizes()
    ensures SlabSize(0) == 4096 && SlabSize(1) == 8192 && SlabSize(10) == 4194304
    ensures forall k: nat :: SlabSize(k + 1) == 2 * SlabSize(k)
  {
    Powers();
  }

  lemma {:induction false} Powers()
    ensures Pow2(1) == 2 && Pow2(2) == 4 && Pow2(3) == 8 && Pow2(4) == 16 && Pow2(5) == 32
    ensures Pow2(6) == 64 && Pow2(7) == 128 && Pow2(8) == 256 && Pow2(9) == 512 && Pow2(10) == 1024
  {
    assert Pow2(4) == 16;
    assert Pow2(8) == 2 * (2 * (2 * (2 * Pow2(4))));
  }

  lemma {:induction false} PowerExceeds(q: nat)
    requires q >= 3
    ensures Pow2(q) >= 2 * q + 2
  {
    if q == 3 {
      Powers();
    } else {
      PowerExceeds(q - 1);
    }
  }

  /** Two objects of more than a page fit into a slab of as many pages as the power of two of
      the pages that one object needs, up to order ten. */
  lemma {:induction false} TwoLargeObjects(objectSize: nat, q: nat)
    requires PAGE_SIZE < objectSize && PAGE_SIZE * (q - 1) < objectSize <= PAGE_SIZE * q
    ensures 2 * objectSize <= Room(if q > MAX_PAGE_ORDER then MAX_PAGE_ORDER else q)
       <==> objectSize <= 8176 || 8193 <= objectSize <= 2097136
  {
    Powers();
    if q == 2 {
      assert Room(2) == 16352;
    } else if q <= MAX_PAGE_ORDER {
      PowerExceeds(q);
      assert 2 * objectSize <= Room(q);
    } else {
      assert Room(MAX_PAGE_ORDER) == 4194272;
    }
  }

  /** Two objects of at most a page fit into their slab unless they are too large for one page;
      an object of exactly one page gets a slab of two. */
  lemma {:induction false} TwoSmallObjects(objectSize: nat)
    requires PTR_SIZE <= objectSize <= PAGE_SIZE
    ensures 2 * objectSize <= Room(if objectSize == PAGE_SIZE then 1 else 0) <==> objectSize <= 2032
  {
    Powers();
    assert Room(0) == 4064 && Room(1) == 8160;
  }

  /** No slab has room for two objects of more than half the greatest slab. */
  lemma {:induction false} RoomBound(order: nat)
    requires order <= MAX_PAGE_ORDER
    ensures Room(order) <= 4194272
  {
    Powers();
  }

  /** Every size up to 2^43 less a page has an order. */
  lemma {:induction false} SmallSizesHaveOrder(size: nat)
    requires size <= PAGE_SIZE * INT_MAX
    ensures HasOrder(size)
  {
  }

  /** The object sizes for which a slab holds the two objects that the list transitions of
      the cache rely on. */
  lemma {:induction false} TwoObjectsPerSlab(size: nat)
    ensures HasOrder(size) && Setup(size).objects >= 2
       <==> size <= 2032 || 4097 <= size <= 8176 || 8193 <= size <= 2097136
  {
    if HasOrder(size) {
      var g := Setup(size);
      QuotientAtLeastTwo(Room(g.order), g.objectSize);
      if g.objectSize <= PAGE_SIZE {
        TwoSmallObjects(g.objectSize);
        assert g.order == if g.objectSize == PAGE_SIZE then 1 else 0;
      } else if g.objectSize <= PAGE_SIZE * INT_MAX {
        var q := Pages(g.objectSize);
        TwoLargeObjects(g.objectSize, q);
        assert g.order == if q > MAX_PAGE_ORDER then MAX_PAGE_ORDER else q;
      } else {
        RoomBound(g.order);
      }
    }
  }

  lemma {:induction false} QuotientAtLeastTwo(a: nat, d: nat)
    requires d > 0
    ensures a / d >= 2 <==> 2 * d <= a
  {
    Quotient(a, d);
    if a / d >= 2 {
      Multiples(2, a / d, d);
    } else {
      Multiples(a / d, 2, d);
    }
  }

  lemma {:induction false} Quotient(a: nat, d: nat)
    requires d > 0
    ensures a / d * d <= a < a / d * d + d
  {
  }

  lemma {:induction false} Multiples(i: nat, j: nat, d: nat)
    requires i <= j
    ensures i * d <= j * d
    ensures i < j ==> i * d + d <= j * d
  {
    assert j * d == i * d + (j - i) * d;
    if i < j {
      assert (j - i) * d == d + (j - i - 1) * d;
    }
  }

  lemma {:induction false} MultipleIs(b: nat, s: nat)
    requires s > 0 && b % s == 0
    ensures b == b / s * s
  {
  }

  /** `p` lies between the multiple `b` of `s` and the next one. */
  lemma {:induction false} RoundDown(b: nat, p: nat, s: nat)
    requires s > 0 && b % s == 0 && b <= p < b + s
    ensures p - p % s == b
  {
    Quotient(p, s);
    MultipleIs(b, s);
    if p / s < b / s {
      Multiples(p / s, b / s, s);
    } else if p / s > b / s {
      Multiples(b / s, p / s, s);
    }
    assert p == p / s * s + p % s;
  }

  // ---- the words of a slab -----------------------------------------------------------------

  /** The words the cache uses: four header words per slab, and the first word of each object,
      which links free objects. */
  datatype Word = FreeOf(b: nat) | AmountOf(b: nat) | NextOf(b: nat) | PrevOf(b: nat) | Link(b: nat, i: nat)

  /** GET_SLAB_HEADER */
  function Header(g: Geometry, b: nat): int {
    b + SlabSize(g.order) - SLAB_HEADER_SIZE
  }

  /** The address of object `i` of slab `b`. */
  function ObjectAt(g: Geometry, b: nat, i: nat): nat {
    b + i * g.objectSize
  }

  function Addr(g: Geometry, w: Word): int {
    match w
    case FreeOf(b) => Header(g, b)
    case AmountOf(b) => Header(g, b) + PTR_SIZE
    case NextOf(b) => Header(g, b) + 2 * PTR_SIZE
    case PrevOf(b) => Header(g, b) + 3 * PTR_SIZE
    case Link(b, i) => ObjectAt(g, b, i)
  }

  /** Objects lie in a row from the start of their slab, and the header words in a row up to its
      end. */
  lemma {:induction false} LaidOut(g: Geometry, b: nat, i: nat)
    ensures ObjectAt(g, b, 0) == b && ObjectAt(g, b, i + 1) == ObjectAt(g, b, i) + g.objectSize
    ensures Addr(g, FreeOf(b)) + 8 == Addr(g, AmountOf(b)) && Addr(g, AmountOf(b)) + 8 == Addr(g, NextOf(b))
    ensures Addr(g, NextOf(b)) + 8 == Addr(g, PrevOf(b)) && Addr(g, PrevOf(b)) + 8 == b + SlabSize(g.order)
  {
    OneMore(i, g.objectSize);
  }

  ghost predicate Aligned(g: Geometry, b: nat) {
    b > 0 && b % SlabSize(g.order) == 0
  }

  ghost predicate ValidWord(g: Geometry, w: Word) {
    Aligned(g, w.b) && (w.Link? ==> w.i < g.objects)
  }

  lemma {:induction false} ObjectFits(g: Geometry, b: nat, i: nat)
    requires WellShaped(g) && i < g.objects
    ensures b <= ObjectAt(g, b, i) && ObjectAt(g, b, i) + g.objectSize <= Header(g, b)
  {
    Multiples(i, g.objects, g.objectSize);
  }

  lemma {:induction false} SlabsApart(g: Geometry, b: nat, c: nat)
    requires Aligned(g, b) && Aligned(g, c) && b < c
    ensures b + SlabSize(g.order) <= c
  {
    var s := SlabSize(g.order);
    MultipleIs(b, s);
    MultipleIs(c, s);
    if c / s <= b / s {
      Multiples(c / s, b / s, s);
    }
    Multiples(b / s, c / s, s);
  }

  /** Every word lies within its slab. */
  lemma {:induction false} WordInSlab(g: Geometry, w: Word)
    requires WellShaped(g) && ValidWord(g, w)
    ensures w.b <= Addr(g, w) && Addr(g, w) + PTR_SIZE <= w.b + SlabSize(g.order)
  {
    SlabHoldsHeader(g.order);
    if w.Link? {
      ObjectFits(g, w.b, w.i);
    }
  }

  /** Different objects of the cache do not overlap, and no object overlaps a header. */
  lemma {:induction false} ObjectsApart(g: Geometry, b: nat, i: nat, c: nat, j: nat)
    requires WellShaped(g) && Aligned(g, b) && Aligned(g, c) && i < g.objects && j < g.objects
    requires (b, i) != (c, j)
    ensures || ObjectAt(g, b, i) + g.objectSize <= ObjectAt(g, c, j)
            || ObjectAt(g, c, j) + g.objectSize <= ObjectAt(g, b, i)
    ensures || ObjectAt(g, b, i) + g.objectSize <= Header(g, c)
            || Header(g, c) + SLAB_HEADER_SIZE <= ObjectAt(g, b, i)
  {
    ObjectFits(g, b, i);
    ObjectFits(g, c, j);
    if b < c {
      SlabsApart(g, b, c);
    } else if c < b {
      SlabsApart(g, c, b);
    } else if i < j {
      Multiples(i, j, g.objectSize);
    } else {
      Multiples(j, i, g.objectSize);
    }
  }

  /** No word but its own first one overlaps an object. */
  lemma {:induction false} WordOutsideObject(g: Geometry, w: Word, b: nat, i: nat)
    requires WellShaped(g) && ValidWord(g, w) && Aligned(g, b) && i < g.objects && w != Link(b, i)
    ensures || Addr(g, w) + PTR_SIZE <= ObjectAt(g, b, i)
            || ObjectAt(g, b, i) + g.objectSize <= Addr(g, w)
  {
    WordInSlab(g, w);
    ObjectFits(g, b, i);
    if w.b < b {
      SlabsApart(g, w.b, b);
    } else if b < w.b {
      SlabsApart(g, b, w.b);
    } else if w.Link? {
      ObjectsApart(g, b, i, w.b, w.i);
    }
  }

  /** Different words never overlap. */
  lemma {:induction false} WordsApart(g: Geometry, v: Word, w: Word)
    requires WellShaped(g) && ValidWord(g, v) && ValidWord(g, w) && v != w
    ensures Addr(g, v) + PTR_SIZE <= Addr(g, w) || Addr(g, w) + PTR_SIZE <= Addr(g, v)
  {
    WordInSlab(g, v);
    WordInSlab(g, w);
    if v.b < w.b {
      SlabsApart(g, v.b, w.b);
    } else if w.b < v.b {
      SlabsApart(g, w.b, v.b);
    } else if v.Link? && w.Link? {
      ObjectsApart(g, v.b, v.i, w.b, w.i);
    } else if v.Link? {
      ObjectFits(g, v.b, v.i);
    } else if w.Link? {
      ObjectFits(g, w.b, w.i);
    }
  }

  /** GET_SLAB_START_PTR: the address with its low bits cleared, as many as a slab size has. */
  function SlabStart(g: Geometry, p: nat): int {
    p - p % SlabSize(g.order)
  }

  /** From any address within a slab, clearing the low bits gives the slab. */
  lemma {:induction false} SlabStartRecovers(g: Geometry, b: nat, p: nat)
    requires Aligned(g, b) && b <= p < b + SlabSize(g.order)
    ensures SlabStart(g, p) == b
  {
    RoundDown(b, p, SlabSize(g.order));
  }
}
