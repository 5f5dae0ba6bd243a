/** The slab cache over memory words: its operations refine those of the abstract lists. */
module SlabCache {
  import opened SlabLayout
  import opened Sequences
  import opened SlabState
  import opened SlabLists

  class Cache {
    var freeSlabs: nat
    var partlyAllocatedSlabs: nat
    var fullyAllocatedSlabs: nat
    var objectSize: nat
    var slabOrder: nat
    var slabObjects: nat

    /** The words of memory, by address. */
    var memory: map<int, nat>

    /** The same words by what they are, as far as they have been written. */
    ghost var words: Words
    /** The lists and chains that the words stand for. */
    ghost var st: State

    function G(): Geometry
      reads `objectSize, `slabOrder, `slabObjects
    {
      Geometry(objectSize, slabOrder, slabObjects)
    }

    ghost predicate Coupled()
      reads `objectSize, `slabOrder, `slabObjects, `memory, `words
    {
      && WellShaped(G())
      && forall w {:trigger Addr(G(), w)} :: w in words ==>
           ValidWord(G(), w) && Addr(G(), w) in memory && memory[Addr(G(), w)] == words[w]
    }

    /** The three list heads and the words of all slabs stand for the lists and chains. */
    ghost predicate Represents()
      reads this
    {
      && freeSlabs == Nth(st.free, 0)
      && partlyAllocatedSlabs == Nth(st.part, 0)
      && fullyAllocatedSlabs == Nth(st.full, 0)
      && ListsShown(words, st) && ChainsShown(G(), words, st.chain)
    }

    ghost predicate Valid()
      reads this
    {
      Coupled() && slabObjects >= 2 && Inv(st, slabObjects) && Represents()
    }

    // ---- words ---------------------------------------------------------------------------

    /** A word is read; `w` says which one the address is. */
    method Load(a: int, ghost w: Word) returns (v: nat)
      requires Coupled() && w in words && a == Addr(G(), w)
      ensures v == words[w]
    {
      v := memory[a];
    }

    method Store(a: int, v: nat, ghost w: Word)
      requires Coupled() && ValidWord(G(), w) && a == Addr(G(), w)
      modifies `memory, `words
      ensures Coupled() && words == old(words)[w := v]
    {
      forall x | x in words && x != w
        ensures Addr(G(), x) != a
      {
        assert Addr(G(), x) in memory;
        WordsApart(G(), w, x);
      }
      memory := memory[a := v];
      words := words[w := v];
    }

    // ---- lists ---------------------------------------------------------------------------

    /** delete_slab_from_list: the new beginning of the list is returned. */
    method DeleteSlabFromList(listBeginning: nat, slab: nat, ghost prev: nat, ghost next: nat) returns (beginning: nat)
      requires Coupled() && Place(G(), words, slab, prev, next)
      modifies `memory, `words
      ensures Coupled() && words == Bypassed(old(words), prev, next)
      ensures beginning == if prev != 0 then listBeginning else next
    {
      var header := Header(G(), slab);
      var nextSlab := Load(header + 2 * PTR_SIZE, NextOf(slab));
      var prevSlab := Load(header + 3 * PTR_SIZE, PrevOf(slab));
      beginning := listBeginning;
      if nextSlab != 0 {
        Store(Header(G(), nextSlab) + 3 * PTR_SIZE, prevSlab, PrevOf(nextSlab));
      }
      if prevSlab != 0 {
        Store(Header(G(), prevSlab) + 2 * PTR_SIZE, nextSlab, NextOf(prevSlab));
      } else {
        beginning := nextSlab;
      }
    }

    /** insert_slab_to_list: the new beginning of the list is returned. */
    method InsertSlabToList(listBeginning: nat, slab: nat) returns (beginning: nat)
      requires Coupled() && Aligned(G(), slab) && MaybeSlab(G(), listBeginning)
      modifies `memory, `words
      ensures Coupled() && words == Fronted(old(words), listBeginning, slab)
      ensures beginning == slab
    {
      var header := Header(G(), slab);
      Store(header + 2 * PTR_SIZE, listBeginning, NextOf(slab));
      Store(header + 3 * PTR_SIZE, 0, PrevOf(slab));
      if listBeginning != 0 {
        Store(Header(G(), listBeginning) + 3 * PTR_SIZE, slab, PrevOf(listBeginning));
      }
      beginning := slab;
    }

    // ---- chains ---------------------------------------------------------------------------

    /** The first free object of a slab is read and the count goes down. */
    method TakeOne(slab: nat, ghost c: seq<nat>) returns (chunk: nat, left: nat)
      requires Coupled() && Aligned(G(), slab) && Chained(G(), words, slab, c) && c != []
      modifies `memory, `words
      ensures Coupled() && words == old(words)[AmountOf(slab) := |c| - 1]
      ensures chunk == ObjectAt(G(), slab, c[0]) && left == |c| - 1
    {
      var header := Header(G(), slab);
      chunk := Load(header, FreeOf(slab));
      var amount := Load(header + PTR_SIZE, AmountOf(slab));
      left := amount - 1;
      Store(header + PTR_SIZE, left, AmountOf(slab));
    }

    /** The free pointer moves on along the link in the object it points to. */
    method Advance(slab: nat, ghost i: nat)
      requires Coupled() && Aligned(G(), slab) && FreeOf(slab) in words && Link(slab, i) in words
      requires words[FreeOf(slab)] == ObjectAt(G(), slab, i)
      modifies `memory, `words
      ensures Coupled() && words == old(words)[FreeOf(slab) := old(words)[Link(slab, i)]]
    {
      var header := Header(G(), slab);
      var first := Load(header, FreeOf(slab));
      var second := Load(first, Link(slab, i));
      Store(header, second, FreeOf(slab));
    }

    // ---- the cache ------------------------------------------------------------------------

    /** cache_alloc: `newSlab` is what the allocator of slabs would return. */
    method CacheAlloc(newSlab: nat) returns (retChunk: nat)
      requires Valid() && Aligned(G(), newSlab) && Fresh(st, newSlab)
      modifies `memory, `words, `st, `freeSlabs, `partlyAllocatedSlabs, `fullyAllocatedSlabs
      ensures Valid()
      ensures
        var (st', o) := Alloc(old(st), slabObjects, newSlab);
        st == st' && retChunk == ObjectAt(G(), o.0, o.1)
    {
      HeadsShown(G(), words, st, slabObjects);
      if partlyAllocatedSlabs != 0 {
        retChunk := AllocFromPart();
      } else {
        GrownKeeps(st, slabObjects, newSlab);
        if freeSlabs == 0 {
          Grow(newSlab);
        }
        retChunk := AllocFromFree();
      }
    }

    /** cache_alloc when a partly allocated slab exists. */
    method AllocFromPart() returns (retChunk: nat)
      requires Valid() && st.part != []
      modifies `memory, `words, `st, `partlyAllocatedSlabs, `fullyAllocatedSlabs
      ensures Valid()
      ensures
        var (st', o) := TakeFromPart(old(st), slabObjects);
        st == st' && retChunk == ObjectAt(G(), o.0, o.1)
    {
      ghost var s, n := st, slabObjects;
      PartShown(G(), words, s, n);
      PlaceShown(G(), words, s, n, s.part, 0);
      HeadsShown(G(), words, s, n);
      PartHeads(s, n);
      retChunk := TakeFromPartly(s, s.chain[s.part[0]]);
      st := TakeFromPart(s, n).0;
    }

    /** The stores of cache_alloc on the first partly allocated slab. */
    method TakeFromPartly(ghost s: State, ghost c: seq<nat>) returns (retChunk: nat)
      requires Coupled() && s.part != [] && s.part[0] in s.chain && c == s.chain[s.part[0]] != []
      requires partlyAllocatedSlabs == s.part[0] && fullyAllocatedSlabs == Nth(s.full, 0)
      requires Chained(G(), words, s.part[0], c)
      requires Place(G(), words, s.part[0], 0, Nth(s.part, 1)) && MaybeSlab(G(), Nth(s.full, 0))
      modifies `memory, `words, `partlyAllocatedSlabs, `fullyAllocatedSlabs
      ensures Coupled() && words == PartWords(old(words), s)
      ensures retChunk == ObjectAt(G(), s.part[0], c[0])
      ensures partlyAllocatedSlabs == if |c| == 1 then Nth(s.part, 1) else s.part[0]
      ensures fullyAllocatedSlabs == if |c| == 1 then s.part[0] else Nth(s.full, 0)
    {
      var left;
      retChunk, left := TakeOne(partlyAllocatedSlabs, c);
      if left == 0 {
        var slabStart := partlyAllocatedSlabs;
        partlyAllocatedSlabs := DeleteSlabFromList(partlyAllocatedSlabs, slabStart, 0, Nth(s.part, 1));
        fullyAllocatedSlabs := InsertSlabToList(fullyAllocatedSlabs, slabStart);
      } else {
        Advance(partlyAllocatedSlabs, c[0]);
      }
    }

    /** cache_alloc when only free slabs have free objects. */
    method AllocFromFree() returns (retChunk: nat)
      requires Valid() && st.free != []
      requires st.free[0] in st.chain && st.chain[st.free[0]] != []
      modifies `memory, `words, `st, `freeSlabs, `partlyAllocatedSlabs
      ensures Valid()
      ensures
        var (st', o) := TakeFromFree(old(st), slabObjects);
        st == st' && retChunk == ObjectAt(G(), o.0, o.1)
    {
      ghost var s, n := st, slabObjects;
      FirstOfFreeShown(G(), words, s, n);
      FreeAllocReady(G(), words, s, n);
      FreeAllocHeads(s, n);
      retChunk := TakeFromFreeSlab(s.chain[s.free[0]], Nth(s.free, 1));
      st := TakeFromFree(s, n).0;
    }

    /** The stores of cache_alloc on the first free slab. */
    method TakeFromFreeSlab(ghost c: seq<nat>, ghost next: nat) returns (retChunk: nat)
      requires Coupled() && |c| > 1 && Chained(G(), words, freeSlabs, c)
      requires Place(G(), words, freeSlabs, 0, next) && MaybeSlab(G(), partlyAllocatedSlabs)
      modifies `memory, `words, `freeSlabs, `partlyAllocatedSlabs
      ensures Coupled()
      ensures
        var b := old(freeSlabs);
        && retChunk == ObjectAt(G(), b, c[0])
        && words == Fronted(Bypassed(Advanced(old(words), b, c), 0, next), old(partlyAllocatedSlabs), b)
        && freeSlabs == next && partlyAllocatedSlabs == b
    {
      var left;
      retChunk, left := TakeOne(freeSlabs, c);
      Advance(freeSlabs, c[0]);
      var slabStart := freeSlabs;
      freeSlabs := DeleteSlabFromList(freeSlabs, slabStart, 0, next);
      partlyAllocatedSlabs := InsertSlabToList(partlyAllocatedSlabs, slabStart);
    }

    /** The part of cache_alloc that takes a new slab when there is no free one. */
    method Grow(newSlab: nat)
      requires Valid() && st.part == [] && st.free == []
      requires Aligned(G(), newSlab) && Fresh(st, newSlab)
      modifies `memory, `words, `st, `freeSlabs
      ensures Valid() && st == Grown(old(st), slabObjects, newSlab)
    {
      ghost var s, ws, n := st, words, slabObjects;
      GrownKeeps(s, n, newSlab);
      ListsApart(G(), ws, s, n);
      freeSlabs := newSlab;
      InitializeNewFreeSlab();
      NewSlabShown(G(), ws, words, s, newSlab, Countdown(n));
      st := Grown(s, n, newSlab);
    }

    /** The header words of a new slab. */
    method InitializeHeader(slab: nat)
      requires Coupled() && Aligned(G(), slab)
      modifies `memory, `words
      ensures Coupled()
      ensures words == old(words)[AmountOf(slab) := slabObjects][NextOf(slab) := 0][PrevOf(slab) := 0]
    {
      var slabHeader := Header(G(), slab);
      Store(slabHeader + PTR_SIZE, slabObjects, AmountOf(slab));
      Store(slabHeader + 2 * PTR_SIZE, 0, NextOf(slab));
      Store(slabHeader + 3 * PTR_SIZE, 0, PrevOf(slab));
    }

    /** The address of object `i` is stored where `currentElem` points, and read back. */
    method ChainOne(slab: nat, currentElem: int, i: nat) returns (nextElem: int)
      requires Coupled() && Aligned(G(), slab) && i < slabObjects
      requires currentElem == Addr(G(), LastLink(slab, slabObjects, i))
      modifies `memory, `words
      ensures Coupled() && words == old(words)[LastLink(slab, slabObjects, i) := ObjectAt(G(), slab, i)]
      ensures nextElem == ObjectAt(G(), slab, i)
    {
      Store(currentElem, slab + i * objectSize, LastLink(slab, slabObjects, i));
      nextElem := Load(currentElem, LastLink(slab, slabObjects, i));
    }

    /** initialize_new_free_slab: the first free slab gets its header and its chain. */
    method InitializeNewFreeSlab()
      requires Coupled() && Aligned(G(), freeSlabs)
      modifies `memory, `words
      ensures Coupled()
      ensures LinkedTo(words, freeSlabs, 0, 0)
      ensures AmountOf(freeSlabs) in words && words[AmountOf(freeSlabs)] == slabObjects
      ensures slabObjects > 0 ==> Chained(G(), words, freeSlabs, Countdown(slabObjects))
      ensures SameOutside(old(words), words, {freeSlabs})
      ensures forall w :: w in words && w !in old(words) ==> w.b == freeSlabs
    {
      ghost var n, ws := slabObjects, words;
      InitializeHeader(freeSlabs);
      var currentElem: int := Header(G(), freeSlabs);
      var i: int := slabObjects - 1;
      while i >= 0
        invariant Coupled() && Building(G(), ws, words, freeSlabs, n, i)
        invariant currentElem == Addr(G(), LastLink(freeSlabs, n, i))
      {
        label L:
        currentElem := ChainOne(freeSlabs, currentElem, i);
        BuildOne(G(), ws, old@L(words), freeSlabs, n, i);
        i := i - 1;
      }
      if n > 0 {
        Built(G(), ws, words, freeSlabs, n);
      }
    }

    // ---- objects given back -----------------------------------------------------------------

    /** cache_free of a pointer that the caller holds. */
    method CacheFree(ptr: nat, ghost o: Object)
      requires Valid() && Live(st, slabObjects, o) && ptr == ObjectAt(G(), o.0, o.1)
      modifies `memory, `words, `st, `freeSlabs, `partlyAllocatedSlabs, `fullyAllocatedSlabs
      ensures Valid() && st == Free(old(st), slabObjects, o)
    {
      ghost var s, n := st, slabObjects;
      ghost var k := Find(s, n, o);
      FreeShown(G(), words, s, n, o, k);
      FreeHeads(s, n, o, k);
      HeadsShown(G(), words, s, n);
      LiveSlab(G(), words, s, n, o, k);
      PutBackStores(ptr, s, o, k);
      st := Free(s, n, o);
    }

    /** The stores of cache_free. */
    method PutBackStores(ptr: nat, ghost s: State, ghost o: Object, ghost k: nat)
      requires Coupled() && slabObjects >= 2 && ptr == ObjectAt(G(), o.0, o.1)
      requires LiveSlabPlace(G(), words, s, slabObjects, o, k)
      requires freeSlabs == Nth(s.free, 0) && partlyAllocatedSlabs == Nth(s.part, 0)
      requires fullyAllocatedSlabs == Nth(s.full, 0)
      requires MaybeSlab(G(), Nth(s.free, 0)) && MaybeSlab(G(), Nth(s.part, 0))
      modifies `memory, `words, `freeSlabs, `partlyAllocatedSlabs, `fullyAllocatedSlabs
      ensures Coupled() && words == FreeWords(G(), old(words), s, slabObjects, o, k)
      ensures
        var toFree := |s.chain[o.0]| + 1 == slabObjects;
        var toPart := |s.chain[o.0]| == 0;
        && freeSlabs == (if toFree then o.0 else Nth(s.free, 0))
        && partlyAllocatedSlabs == (if toPart then o.0 else if toFree && k == 0 then Nth(s.part, 1) else Nth(s.part, 0))
        && fullyAllocatedSlabs == (if toPart && k == 0 then Nth(s.full, 1) else Nth(s.full, 0))
    {
      ObjectFits(G(), o.0, o.1);
      SlabStartRecovers(G(), o.0, ptr);
      var slabStart := SlabStart(G(), ptr);
      var amount := PutOne(slabStart, ptr, o.1, s.chain[o.0]);
      if amount == slabObjects {
        partlyAllocatedSlabs :=
          DeleteSlabFromList(partlyAllocatedSlabs, slabStart, Nth(s.part, k - 1), Nth(s.part, k + 1));
        freeSlabs := InsertSlabToList(freeSlabs, slabStart);
      } else if amount == 1 {
        fullyAllocatedSlabs :=
          DeleteSlabFromList(fullyAllocatedSlabs, slabStart, Nth(s.full, k - 1), Nth(s.full, k + 1));
        partlyAllocatedSlabs := InsertSlabToList(partlyAllocatedSlabs, slabStart);
      }
    }

    /** An object becomes the first of its slab's chain and the count goes up. */
    method PutOne(slab: nat, ptr: nat, ghost i: nat, ghost c: seq<nat>) returns (amount: nat)
      requires Coupled() && Aligned(G(), slab) && i < slabObjects && ptr == ObjectAt(G(), slab, i)
      requires Chained(G(), words, slab, c)
      modifies `memory, `words
      ensures Coupled() && words == PutBack(G(), old(words), slab, c, i) && amount == |c| + 1
    {
      var header := Header(G(), slab);
      var first := Load(header, FreeOf(slab));
      Store(ptr, first, Link(slab, i));
      Store(header, ptr, FreeOf(slab));
      amount := Load(header + PTR_SIZE, AmountOf(slab));
      amount := amount + 1;
      Store(header + PTR_SIZE, amount, AmountOf(slab));
    }

    /** The caller stores a word anywhere inside an object that it holds; the link that a free object
        would have in its first word may be overwritten in part or as a whole. */
    method CallerWrite(a: nat, v: nat, ghost o: Object)
      requires Valid() && Live(st, slabObjects, o)
      requires ObjectAt(G(), o.0, o.1) <= a && a + PTR_SIZE <= ObjectAt(G(), o.0, o.1) + objectSize
      modifies `memory, `words
      ensures Valid() && words == Forgotten(old(words), o)
    {
      WordsElsewhere(G(), words, st, o, a);
      CallerMayWrite(G(), words, st, slabObjects, o, Forgotten(words, o));
      forall w | w in Forgotten(words, o)
        ensures ValidWord(G(), w) && Addr(G(), w) in memory && memory[Addr(G(), w)] == words[w]
      {
        assert Addr(G(), w) in memory;
      }
      memory := memory[a := v];
      words := Forgotten(words, o);
    }

    // ---- slabs given back -------------------------------------------------------------------

    /** free_slab: the words of the slab may not be used any more. */
    method FreeSlab(slab: nat)
      requires Coupled()
      modifies `words
      ensures Coupled() && words == Dropped(old(words), [slab])
    {
      forall w | w in words
        ensures ValidWord(G(), w) && Addr(G(), w) in memory && memory[Addr(G(), w)] == words[w]
      {
        assert Addr(G(), w) in memory;
      }
      words := Dropped(words, [slab]);
    }

    /** free_slab_chain: the next slab is read before its predecessor is given back. */
    method FreeSlabChain(chainStart: nat, ghost l: seq<nat>)
      requires Coupled() && Linked(words, l) && Distinct(l) && chainStart == Nth(l, 0)
      requires NonNull(l)
      modifies `words
      ensures Coupled() && words == Dropped(old(words), l)
    {
      var start := chainStart;
      ghost var i, ws := 0, words;
      while true
        invariant Coupled() && 0 <= i <= |l| && start == Nth(l, i) && words == Dropped(ws, l[..i])
        decreases |l| - i
      {
        assert i < |l| ==> l[i] in l;
        if start == 0 {
          assert l[..i] == l;
          return;
        }
        DropOne(ws, l, i);
        var next := Load(Header(G(), start) + 2 * PTR_SIZE, NextOf(start));
        FreeSlab(start);
        start := next;
        i := i + 1;
      }
    }

    /** cache_shrink */
    method CacheShrink()
      requires Valid()
      modifies `words, `st, `freeSlabs
      ensures Valid() && st == Shrink(old(st))
    {
      ghost var s, n := st, slabObjects;
      ListsApart(G(), words, s, n);
      ShrinkShown(G(), words, s, n);
      ShrinkKeeps(s, n);
      FreeSlabChain(freeSlabs, s.free);
      freeSlabs := 0;
      st := Shrink(s);
    }

    /** cache_release: every slab is given back. */
    method CacheRelease()
      requires Valid()
      modifies `words, `st, `freeSlabs, `partlyAllocatedSlabs, `fullyAllocatedSlabs
      ensures Valid() && words == map[] && st == State([], [], [], map[])
    {
      ghost var s, n := st, slabObjects;
      ListsApart(G(), words, s, n);
      AllDropped(G(), words, s, n);
      FreeSlabChain(freeSlabs, s.free);
      freeSlabs := 0;
      FreeSlabChain(partlyAllocatedSlabs, s.part);
      partlyAllocatedSlabs := 0;
      FreeSlabChain(fullyAllocatedSlabs, s.full);
      fullyAllocatedSlabs := 0;
      st := State([], [], [], map[]);
    }

    /** cache_setup; the operations above are for sizes of which a slab holds two objects. */
    constructor (size: nat, newSlab: nat)
      requires HasOrder(size) && Aligned(Setup(size), newSlab)
      ensures Coupled() && G() == Setup(size)
      ensures slabObjects * objectSize <= SlabSize(slabOrder) - SLAB_HEADER_SIZE < (slabObjects + 1) * objectSize
      ensures freeSlabs == newSlab && partlyAllocatedSlabs == 0 && fullyAllocatedSlabs == 0
      ensures LinkedTo(words, newSlab, 0, 0)
      ensures AmountOf(newSlab) in words && words[AmountOf(newSlab)] == slabObjects
      ensures slabObjects > 0 ==> Chained(G(), words, newSlab, Countdown(slabObjects))
      ensures slabObjects >= 2 ==> Valid() && st == OneSlab(newSlab, slabObjects)
    {
      var g := Setup(size);
      objectSize, slabOrder, slabObjects := g.objectSize, g.order, g.objects;
      freeSlabs, partlyAllocatedSlabs, fullyAllocatedSlabs := newSlab, 0, 0;
      memory, words := map[], map[];
      st := OneSlab(newSlab, g.objects);
      new;
      SetupIsWellShaped(size);
      SlabIsFull(size);
      InitializeNewFreeSlab();
      if slabObjects >= 2 {
        OneSlabShown(G(), words, newSlab, slabObjects);
      }
    }
  }
}
