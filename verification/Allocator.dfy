/** The boundary-tag allocator over a byte buffer. Pointers are offsets into the buffer;
    a null pointer is `None`. Size words are stored as eight little-endian bytes. */
module Allocator {
  import opened Common
  import opened ChunkList
  import HeapRuns

  const NOT_ALLOCATED: byte := 0
  const ALLOCATED: byte := 1
  const SIZE_INFO_SIZE := 8

  // ---- bytes and words -----------------------------------------------------------------

  /** The value of `n` bytes from `at`, least significant first. */
  function Load(mem: seq<byte>, at: nat, n: nat): (v: nat)
    requires at + n <= |mem|
    decreases n, at
  {
    if n == 0 then 0 else mem[at] as int + 256 * Load(mem, at + 1, n - 1)
  }

  /** GET_SIZE: the eight-byte word at `at`. */
  function Load64(mem: seq<byte>, at: nat): nat
    requires at + SIZE_INFO_SIZE <= |mem|
  {
    Load(mem, at, SIZE_INFO_SIZE)
  }

  /** The bytes after the `n`-byte word `v` is stored at `at`. */
  function Store(mem: seq<byte>, at: nat, n: nat, v: nat): (r: seq<byte>)
    requires at + n <= |mem|
    ensures |r| == |mem|
    decreases n, at
  {
    if n == 0 then mem else Store(mem[at := (v % 256) as byte], at + 1, n - 1, v / 256)
  }

  /** Assigning through GET_SIZE. */
  function Stored(mem: seq<byte>, at: nat, v: nat): (r: seq<byte>)
    requires at + SIZE_INFO_SIZE <= |mem|
    ensures |r| == |mem|
  {
    Store(mem, at, SIZE_INFO_SIZE, v)
  }

  function Pow256(n: nat): nat {
    if n == 0 then 1 else 256 * Pow256(n - 1)
  }

  lemma {:induction false} StoreThenLoad(mem: seq<byte>, at: nat, n: nat, v: nat)
    requires at + n <= |mem| && v < Pow256(n)
    ensures Load(Store(mem, at, n, v), at, n) == v
    ensures SameBytes(mem, Store(mem, at, n, v), 0, at)
    ensures SameBytes(mem, Store(mem, at, n, v), at + n, |mem|)
    decreases n
  {
    if n > 0 {
      StoreThenLoad(mem[at := (v % 256) as byte], at + 1, n - 1, v / 256);
    }
  }

  lemma {:induction false} LoadFrame(mem: seq<byte>, mem': seq<byte>, at: nat, n: nat)
    requires at + n <= |mem| && SameBytes(mem, mem', at, at + n)
    ensures Load(mem, at, n) == Load(mem', at, n)
    decreases n
  {
    if n > 0 {
      LoadFrame(mem, mem', at + 1, n - 1);
    }
  }

  lemma {:induction false} LoadBound(mem: seq<byte>, at: nat, n: nat)
    requires at + n <= |mem|
    ensures Load(mem, at, n) < Pow256(n)
    decreases n
  {
    if n > 0 {
      LoadBound(mem, at + 1, n - 1);
    }
  }

  lemma {:induction false} WordRange()
    ensures Pow256(SIZE_INFO_SIZE) == U64
  {
    assert Pow256(4) == 0x1_0000_0000;
    assert Pow256(8) == 256 * (256 * (256 * (256 * Pow256(4))));
  }

  /** `mem` and `mem'` hold the same bytes from `lo` up to `hi`. */
  ghost predicate SameBytes(mem: seq<byte>, mem': seq<byte>, lo: nat, hi: nat) {
    |mem| == |mem'| && hi <= |mem| && forall k :: lo <= k < hi ==> mem[k] == mem'[k]
  }

  lemma {:induction false} StoredFacts(mem: seq<byte>, at: nat, v: nat)
    requires at + SIZE_INFO_SIZE <= |mem| && v < U64
    ensures Load64(Stored(mem, at, v), at) == v
    ensures SameBytes(mem, Stored(mem, at, v), 0, at)
    ensures SameBytes(mem, Stored(mem, at, v), at + SIZE_INFO_SIZE, |mem|)
    ensures WordsKept(mem, Stored(mem, at, v), at, at + SIZE_INFO_SIZE)
  {
    WordRange();
    StoreThenLoad(mem, at, SIZE_INFO_SIZE, v);
    WordsOutside(mem, Stored(mem, at, v), at, at + SIZE_INFO_SIZE);
  }

  /** Size words that do not overlap the bytes `lo..hi` read the same in both. */
  ghost predicate WordsKept(mem: seq<byte>, mem': seq<byte>, lo: nat, hi: nat) {
    && |mem| == |mem'|
    && forall a: nat :: a + SIZE_INFO_SIZE <= |mem| && (a + SIZE_INFO_SIZE <= lo || hi <= a) ==>
         Load64(mem', a) == Load64(mem, a)
  }

  lemma {:induction false} WordsOutside(mem: seq<byte>, mem': seq<byte>, lo: nat, hi: nat)
    requires |mem| == |mem'|
    requires forall k :: 0 <= k < |mem| && !(lo <= k < hi) ==> mem[k] == mem'[k]
    ensures WordsKept(mem, mem', lo, hi)
  {
    forall a: nat | a + SIZE_INFO_SIZE <= |mem| && (a + SIZE_INFO_SIZE <= lo || hi <= a)
      ensures Load64(mem', a) == Load64(mem, a)
    {
      LoadFrame(mem, mem', a, SIZE_INFO_SIZE);
    }
  }

  // ---- what the bytes mean ---------------------------------------------------------------

  /** The bytes at `at` are those of chunk `c`: its marker and both of its size words. */
  ghost predicate ChunkAt(mem: seq<byte>, at: nat, c: Chunk) {
    && at + c.size + SPACE_BETWEEN_CHUNKS <= |mem|
    && mem[at] == (if c.free then NOT_ALLOCATED else ALLOCATED)
    && Load64(mem, at + 1) == c.size
    && Load64(mem, at + PAYLOAD + c.size) == c.size
  }

  /** The bytes from `lo` to `hi` are exactly the chunks `cs`, one after the other. */
  ghost predicate Tiles(mem: seq<byte>, lo: nat, cs: seq<Chunk>, hi: nat)
    decreases |cs|
  {
    if cs == [] then lo == hi
    else ChunkAt(mem, lo, cs[0]) && Tiles(mem, lo + cs[0].size + SPACE_BETWEEN_CHUNKS, cs[1..], hi)
  }

  /** A buffer decodes to at most one list of chunks. */
  lemma {:induction false} DecodingIsUnique(mem: seq<byte>, lo: nat, cs: seq<Chunk>, ds: seq<Chunk>)
    requires Tiles(mem, lo, cs, |mem|) && Tiles(mem, lo, ds, |mem|)
    ensures cs == ds
    decreases |cs|
  {
    if cs != [] && ds != [] {
      assert cs[0].size == ds[0].size;
      DecodingIsUnique(mem, lo + cs[0].size + SPACE_BETWEEN_CHUNKS, cs[1..], ds[1..]);
      assert cs == [cs[0]] + cs[1..] && ds == [ds[0]] + ds[1..];
    }
  }

  lemma {:induction false} TilesSpan(mem: seq<byte>, lo: nat, cs: seq<Chunk>, hi: nat)
    requires Tiles(mem, lo, cs, hi)
    ensures hi == lo + Span(cs)
    ensures cs != [] ==> hi <= |mem|
    decreases |cs|
  {
    if cs != [] {
      TilesSpan(mem, lo + cs[0].size + SPACE_BETWEEN_CHUNKS, cs[1..], hi);
    }
  }

  lemma {:induction false} TilesAppend(mem: seq<byte>, lo: nat, a: seq<Chunk>, b: seq<Chunk>, hi: nat)
    ensures Tiles(mem, lo, a + b, hi) <==>
            Tiles(mem, lo, a, lo + Span(a)) && Tiles(mem, lo + Span(a), b, hi)
    decreases |a|
  {
    if a == [] {
      assert a + b == b;
    } else {
      assert (a + b)[1..] == a[1..] + b;
      TilesAppend(mem, lo + a[0].size + SPACE_BETWEEN_CHUNKS, a[1..], b, hi);
    }
  }

  lemma {:induction false} TilesFrame(mem: seq<byte>, mem': seq<byte>, lo: nat, cs: seq<Chunk>, hi: nat)
    requires Tiles(mem, lo, cs, hi) && SameBytes(mem, mem', lo, hi)
    ensures Tiles(mem', lo, cs, hi)
    decreases |cs|
  {
    if cs != [] {
      TilesSpan(mem, lo, cs, hi);
      LoadFrame(mem, mem', lo + 1, SIZE_INFO_SIZE);
      LoadFrame(mem, mem', lo + PAYLOAD + cs[0].size, SIZE_INFO_SIZE);
      TilesFrame(mem, mem', lo + cs[0].size + SPACE_BETWEEN_CHUNKS, cs[1..], hi);
    }
  }

  /** The chunk at index `i` can be read where the list puts it. */
  lemma {:induction false} ChunkOf(mem: seq<byte>, cs: seq<Chunk>, i: nat)
    requires i < |cs| && Tiles(mem, 0, cs, |mem|)
    ensures ChunkAt(mem, Offset(cs, i), cs[i])
    ensures Offset(cs, i + 1) <= Span(cs) == |mem|
    ensures i + 1 == |cs| <==> Offset(cs, i + 1) == |mem|
  {
    assert cs == cs[..i] + cs[i..];
    TilesAppend(mem, 0, cs[..i], cs[i..], |mem|);
    OffsetIsSpan(cs, i);
    OffsetIsSpan(cs, i + 1);
    TilesSpan(mem, 0, cs, |mem|);
  }

  /** The byte in front of the head size of a chunk is 0 when the chunk is free and 1 when it is
      not. */
  lemma {:induction false} MarkerIs(mem: seq<byte>, cs: seq<Chunk>, i: nat)
    requires i < |cs| && Tiles(mem, 0, cs, |mem|)
    ensures Payload(cs, i) - 9 < |mem| && mem[Payload(cs, i) - 9] == if cs[i].free then 0 else 1
  {
    ChunkOf(mem, cs, i);
  }

  /** A scan has seen every chunk exactly when it has passed the end of the buffer. */
  lemma {:induction false} ScanEnds(mem: seq<byte>, cs: seq<Chunk>, i: nat)
    requires i <= |cs| && Tiles(mem, 0, cs, |mem|)
    ensures i == |cs| <==> Payload(cs, i) >= |mem|
  {
    if i < |cs| {
      ChunkOf(mem, cs, i);
    } else {
      OffsetIsSpan(cs, i);
      TilesSpan(mem, 0, cs, |mem|);
    }
  }

  lemma {:induction false} TilesParts(mem: seq<byte>, a: seq<Chunk>, m: seq<Chunk>, b: seq<Chunk>)
    requires Tiles(mem, 0, a + m + b, |mem|)
    ensures Tiles(mem, 0, a, Span(a))
    ensures Tiles(mem, Span(a) + Span(m), b, |mem|)
    ensures Span(a) + Span(m) <= |mem|
  {
    TilesAppend(mem, 0, a + m, b, |mem|);
    SpanAppend(a, m);
    TilesAppend(mem, 0, a, m, Span(a) + Span(m));
    TilesSpan(mem, Span(a) + Span(m), b, |mem|);
  }

  lemma {:induction false} TilesJoin(mem: seq<byte>, a: seq<Chunk>, m: seq<Chunk>, b: seq<Chunk>, hi: nat)
    requires Tiles(mem, 0, a, Span(a)) && Tiles(mem, Span(a), m, hi) && Tiles(mem, hi, b, |mem|)
    ensures Tiles(mem, 0, a + m + b, |mem|)
  {
    TilesSpan(mem, Span(a), m, hi);
    SpanAppend(a, m);
    TilesAppend(mem, 0, a, m, hi);
    TilesAppend(mem, 0, a + m, b, |mem|);
  }

  /** Rewriting the bytes of the chunks `lo..hi` into those of `mid` rewrites the list. */
  lemma {:induction false} RewriteBlock(
    mem: seq<byte>, mem': seq<byte>, cs: seq<Chunk>, lo: nat, hi: nat, mid: seq<Chunk>)
    requires lo <= hi <= |cs| && Tiles(mem, 0, cs, |mem|) && |mem'| == |mem|
    requires SameBytes(mem, mem', 0, Offset(cs, lo))
    requires SameBytes(mem, mem', Offset(cs, hi), |mem|)
    requires Tiles(mem', Offset(cs, lo), mid, Offset(cs, hi))
    ensures Tiles(mem', 0, cs[..lo] + mid + cs[hi..], |mem'|)
  {
    var a, m, b := cs[..lo], cs[lo..hi], cs[hi..];
    Cut(cs, lo, hi);
    assert Tiles(mem', 0, a, Span(a)) by {
      TilesParts(mem, a, m, b);
      TilesFrame(mem, mem', 0, a, Span(a));
    }
    assert Tiles(mem', Offset(cs, hi), b, |mem|) by {
      TilesParts(mem, a, m, b);
      TilesFrame(mem, mem', Offset(cs, hi), b, |mem|);
    }
    TilesJoin(mem', a, mid, b, Offset(cs, hi));
  }

  lemma {:induction false} TilesShort(mem: seq<byte>, at: nat, c: Chunk, d: Chunk)
    ensures ChunkAt(mem, at, c) ==> Tiles(mem, at, [c], at + c.size + SPACE_BETWEEN_CHUNKS)
    ensures ChunkAt(mem, at, c) && ChunkAt(mem, at + c.size + SPACE_BETWEEN_CHUNKS, d) ==>
            Tiles(mem, at, [c, d], at + c.size + d.size + 2 * SPACE_BETWEEN_CHUNKS)
  {
    assert [c][1..] == [] && [c, d][1..] == [d] && [d][1..] == [];
  }

  /** A byte stored inside a live payload does not change what the bytes decode to. */
  lemma {:induction false} PayloadByteStored(
    mem: seq<byte>, lo: nat, cs: seq<Chunk>, hi: nat, p: nat, k: nat, v: byte)
    requires Tiles(mem, lo, cs, hi) && hi <= |mem| && LiveSize(cs, lo, p).Some?
    requires p <= k < p + LiveSize(cs, lo, p).value && k < |mem|
    ensures Tiles(mem[k := v], lo, cs, hi)
    decreases |cs|
  {
    var next := lo + cs[0].size + SPACE_BETWEEN_CHUNKS;
    TilesSpan(mem, lo, cs, hi);
    LiveBounds(cs, lo, p);
    LiveBounds(cs[1..], next, p);
    LoadFrame(mem, mem[k := v], lo + 1, SIZE_INFO_SIZE);
    LoadFrame(mem, mem[k := v], lo + PAYLOAD + cs[0].size, SIZE_INFO_SIZE);
    if p == lo + PAYLOAD {
      TilesFrame(mem, mem[k := v], next, cs[1..], hi);
    } else {
      PayloadByteStored(mem, next, cs[1..], hi, p, k, v);
    }
  }

  /** No payload byte of a live allocation other than `except` differs. */
  ghost predicate PayloadsKept(mem: seq<byte>, mem': seq<byte>, cs: seq<Chunk>, except: Option<nat>)
    requires |mem| == |mem'| == Span(cs)
  {
    forall p: nat, k: nat ::
      LiveSize(cs, 0, p).Some? && Some(p) != except && p <= k < p + LiveSize(cs, 0, p).value && k < |mem|
      ==> mem'[k] == mem[k]
  }

  /** Live payloads do not overlap: a store in one of them leaves the others alone. */
  lemma {:induction false} KeptByStore(mem: seq<byte>, cs: seq<Chunk>, p: nat, k: nat, v: byte)
    requires |mem| == Span(cs) && LiveSize(cs, 0, p).Some? && k < |mem|
    requires p <= k < p + LiveSize(cs, 0, p).value
    ensures PayloadsKept(mem, mem[k := v], cs, Some(p))
  {
    forall q: nat | LiveSize(cs, 0, q).Some? && q != p
      ensures !(q <= k < q + LiveSize(cs, 0, q).value)
    {
      if p < q {
        LiveDisjoint(cs, 0, p, q);
      } else {
        LiveDisjoint(cs, 0, q, p);
      }
    }
  }

  // ---- the allocator -----------------------------------------------------------------------

  class Heap {
    const area: array<byte>       // logical_memory_area, logical_memory_area_size
    ghost var chunks: seq<Chunk>  // what the bytes of the area mean

    ghost predicate Valid()
      reads this, area
    {
      && area.Length < U64 / 2
      && Tiles(area[..], 0, chunks, area.Length)
      && Calm(chunks)
    }

    /** mysetup: the buffer becomes one free chunk. */
    constructor (buf: array<byte>)
      requires SPACE_BETWEEN_CHUNKS <= buf.Length < U64 / 2
      modifies buf
      ensures Valid() && area == buf
      ensures chunks == HeapRuns.Initial(buf.Length)
    {
      area := buf;
      chunks := [Chunk(true, buf.Length - SPACE_BETWEEN_CHUNKS)];
      new;
      var size := area.Length - SPACE_BETWEEN_CHUNKS;
      SetMarker(PAYLOAD, NOT_ALLOCATED);
      SetSize(PAYLOAD - SIZE_INFO_SIZE, size);
      SetSize(TailSize(PAYLOAD), size);
      TilesShort(area[..], 0, chunks[0], chunks[0]);
    }

    /** GET_SIZE */
    function GetSize(at: nat): nat
      requires at + SIZE_INFO_SIZE <= area.Length
      reads area
    {
      Load64(area[..], at)
    }

    /** GET_MARKER of a payload pointer */
    function GetMarker(p: nat): byte
      requires PAYLOAD <= p < area.Length + PAYLOAD
      reads area
    {
      area[p - PAYLOAD]
    }

    method SetMarker(p: nat, m: byte)
      requires PAYLOAD <= p < area.Length + PAYLOAD
      modifies area
      ensures area[..] == old(area[..])[p - PAYLOAD := m]
      ensures WordsKept(old(area[..]), area[..], p - PAYLOAD, p - PAYLOAD + 1)
    {
      WordsOutside(area[..], area[..][p - PAYLOAD := m], p - PAYLOAD, p - PAYLOAD + 1);
      area[p - PAYLOAD] := m;
    }

    /** Assignment through GET_SIZE: the word is stored byte by byte. */
    method SetSize(at: nat, v: nat)
      requires at + SIZE_INFO_SIZE <= area.Length && v < U64
      modifies area
      ensures Load64(area[..], at) == v
      ensures SameBytes(old(area[..]), area[..], 0, at)
      ensures SameBytes(old(area[..]), area[..], at + SIZE_INFO_SIZE, area.Length)
      ensures WordsKept(old(area[..]), area[..], at, at + SIZE_INFO_SIZE)
    {
      ghost var mem := area[..];
      var rest := v;
      for k := 0 to SIZE_INFO_SIZE
        invariant Store(mem, at, SIZE_INFO_SIZE, v) == Store(area[..], at + k, SIZE_INFO_SIZE - k, rest)
      {
        area[at + k] := (rest % 256) as byte;
        rest := rest / 256;
      }
      StoredFacts(mem, at, v);
    }

    /** myalloc: first fit, splitting the chunk when a payload byte is left over. */
    method Malloc(size: nat) returns (p: Option<nat>)
      requires Valid() && size < U64
      modifies this, area
      ensures Valid()
      ensures
        var i := FirstFit(old(chunks), size);
        if i == |old(chunks)|
        then p == None && chunks == old(chunks) && area[..] == old(area[..])
        else p == Some(Payload(old(chunks), i)) && chunks == Allocated(old(chunks), i, size)
      ensures HeapRuns.Allowed(old(chunks), HeapRuns.Op.Malloc(size))
      ensures chunks == HeapRuns.Step(old(chunks), HeapRuns.Op.Malloc(size))
      ensures Span(old(chunks)) == area.Length
      ensures PayloadsKept(old(area[..]), area[..], old(chunks), None)
    {
      TilesSpan(area[..], 0, chunks, area.Length);
      var currentAreaSize;
      ghost var i;
      p, currentAreaSize, i := Search(size);
      if p.Some? {
        Take(p.value, currentAreaSize, size, i);
      }
    }

    /** The search of myalloc for the first free chunk that is large enough. */
    method Search(size: nat) returns (p: Option<nat>, currentAreaSize: int, ghost i: nat)
      requires area.Length < U64 / 2 && Tiles(area[..], 0, chunks, area.Length) && size < U64
      ensures i == FirstFit(chunks, size)
      ensures p == if i == |chunks| then None else Some(Payload(chunks, i))
      ensures i < |chunks| ==> currentAreaSize == chunks[i].size
    {
      ScanEnds(area[..], chunks, 0);
      var currTotalSize := PAYLOAD;
      var areaStart := PAYLOAD;
      currentAreaSize := 0;
      i := 0;
      while currTotalSize < area.Length
        invariant i <= |chunks| && areaStart == currTotalSize == Payload(chunks, i)
        invariant i == |chunks| <==> currTotalSize >= area.Length
        invariant forall j :: 0 <= j < i ==> !Fits(chunks[j], size)
        decreases |chunks| - i
      {
        var fits;
        currentAreaSize, fits := LookAt(areaStart, size, i);
        if fits {
          FirstFitIs(chunks, size, i);
          return Some(areaStart), currentAreaSize, i;
        }
        currTotalSize := WrappedSum(currTotalSize, currentAreaSize);
        areaStart := currTotalSize;
        i := i + 1;
        ScanEnds(area[..], chunks, i);
      }
      FirstFitIs(chunks, size, i);
      p := None;
    }

    /** The size of a chunk that myalloc comes by, and whether it is free and holds the request. */
    method LookAt(areaStart: nat, size: nat, ghost i: nat) returns (currentAreaSize: int, fits: bool)
      requires area.Length < U64 / 2 && Tiles(area[..], 0, chunks, area.Length)
      requires i < |chunks| && areaStart == Payload(chunks, i)
      ensures currentAreaSize == chunks[i].size && (fits <==> Fits(chunks[i], size))
      ensures Offset(chunks, i + 1) <= area.Length
    {
      ChunkOf(area[..], chunks, i);
      currentAreaSize := ToSigned(GetSize(areaStart - SIZE_INFO_SIZE));
      fits := GetMarker(areaStart) == NOT_ALLOCATED && ToUnsigned(currentAreaSize) >= size;
    }

    /** The part of myalloc that marks the found chunk and splits it. */
    method Take(areaStart: nat, currentAreaSize: int, size: nat, ghost i: nat)
      requires Valid() && i < |chunks| && Fits(chunks[i], size)
      requires areaStart == Payload(chunks, i) && currentAreaSize == chunks[i].size
      modifies this, area
      ensures Valid() && chunks == Allocated(old(chunks), i, size)
      ensures |old(area[..])| == Span(old(chunks))
      ensures PayloadsKept(old(area[..]), area[..], old(chunks), None)
    {
      ghost var mem := area[..];
      ghost var cs := chunks;
      assert Calm(Allocated(cs, i, size)) by {
        AllocatedMeaning(cs, i, size);
      }
      ChunkOf(mem, cs, i);
      TilesSpan(mem, 0, cs, |mem|);
      var newSize := SignedRest(currentAreaSize, size);
      if newSize > 0 {
        Split(areaStart, newSize, size, cs[i]);
        SplitTiles(mem, area[..], cs, i, size);
        KeptOutsideFree(mem, area[..], cs, i);
      } else {
        MarkTaken(mem, cs, i, size);
        SetMarker(areaStart, ALLOCATED);
      }
      chunks := Allocated(cs, i, size);
    }

    /** The stores of myalloc when the found chunk is split. */
    method Split(areaStart: nat, newSize: nat, size: nat, ghost c: Chunk)
      requires PAYLOAD <= areaStart && ChunkAt(area[..], areaStart - PAYLOAD, c) && c.free && area.Length < U64
      requires newSize == c.size - size - SPACE_BETWEEN_CHUNKS > 0
      modifies area
      ensures ChunkAt(area[..], areaStart - PAYLOAD, Chunk(false, size))
      ensures ChunkAt(area[..], areaStart - PAYLOAD + size + SPACE_BETWEEN_CHUNKS, Chunk(true, newSize))
      ensures SameBytes(old(area[..]), area[..], 0, areaStart - PAYLOAD)
      ensures SameBytes(old(area[..]), area[..], areaStart + c.size + SIZE_INFO_SIZE, area.Length)
    {
      SplitRest(areaStart, newSize, size, c);
      SetSize(areaStart - SIZE_INFO_SIZE, size);
      SetSize(TailSize(areaStart), size);
    }

    /** The stores that mark the found chunk and set up the free one behind it. */
    method SplitRest(areaStart: nat, newSize: nat, size: nat, ghost c: Chunk)
      requires PAYLOAD <= areaStart && ChunkAt(area[..], areaStart - PAYLOAD, c) && area.Length < U64
      requires newSize == c.size - size - SPACE_BETWEEN_CHUNKS > 0
      modifies area
      ensures area[areaStart - PAYLOAD] == ALLOCATED
      ensures ChunkAt(area[..], areaStart - PAYLOAD + size + SPACE_BETWEEN_CHUNKS, Chunk(true, newSize))
      ensures SameBytes(old(area[..]), area[..], 0, areaStart - PAYLOAD)
      ensures SameBytes(old(area[..]), area[..], areaStart + c.size + SIZE_INFO_SIZE, area.Length)
    {
      SetMarker(areaStart, ALLOCATED);
      SetSize(TailSize(areaStart), newSize);
      SetSize(areaStart + size + SPACE_BETWEEN_CHUNKS - SIZE_INFO_SIZE, newSize);
      SetMarker(areaStart + size + SPACE_BETWEEN_CHUNKS, NOT_ALLOCATED);
    }

    /** The caller stores a byte in a payload that it holds. */
    method CallerWrite(k: nat, v: byte, ghost p: nat)
      requires Valid() && LiveSize(chunks, 0, p).Some?
      requires p <= k < p + LiveSize(chunks, 0, p).value && k < area.Length
      modifies area
      ensures Valid() && area[..] == old(area[..])[k := v]
      ensures |old(area[..])| == Span(chunks) && PayloadsKept(old(area[..]), area[..], chunks, Some(p))
    {
      ghost var mem := area[..];
      TilesSpan(mem, 0, chunks, area.Length);
      PayloadByteStored(mem, 0, chunks, area.Length, p, k, v);
      KeptByStore(mem, chunks, p, k, v);
      area[k] := v;
    }

    /** myfree: the chunk and its free neighbours become one free chunk. */
    method Free(p: Option<nat>)
      requires Valid()
      requires p.Some? ==> HeapRuns.IndexOf(chunks, 0, p.value) < |chunks|
      modifies this, area
      ensures Valid()
      ensures HeapRuns.Allowed(old(chunks), HeapRuns.Op.Free(p))
      ensures chunks == HeapRuns.Step(old(chunks), HeapRuns.Op.Free(p))
      ensures |old(area[..])| == Span(old(chunks))
      ensures PayloadsKept(old(area[..]), area[..], old(chunks), p)
    {
      TilesSpan(area[..], 0, chunks, area.Length);
      if p == None {
        return;
      }
      FreeChunk(p.value, HeapRuns.IndexOf(chunks, 0, p.value));
    }

    /** myfree of a pointer that is not null. */
    method FreeChunk(p: nat, ghost i: nat)
      requires Valid() && i < |chunks| && p == Payload(chunks, i)
      modifies this, area
      ensures Valid() && chunks == if old(chunks)[i].free then old(chunks) else Released(old(chunks), i)
      ensures |old(area[..])| == Span(old(chunks))
      ensures PayloadsKept(old(area[..]), area[..], old(chunks), Some(p))
    {
      TilesSpan(area[..], 0, chunks, area.Length);
      ChunkOf(area[..], chunks, i);
      if GetMarker(p) == NOT_ALLOCATED {
        return;
      }
      assert Calm(Released(chunks, i)) by {
        ReleasedMeaning(chunks, i);
      }
      Coalesce(p, i);
    }

    /** The loop of myfree: one pass joins the free neighbours, the next finds none left and
        marks the block free. Every pass that does not return lowers the chunk count. */
    method Coalesce(p: nat, ghost i0: nat)
      requires Valid() && i0 < |chunks| && p == Payload(chunks, i0) && !chunks[i0].free
      modifies this, area
      ensures Tiles(area[..], 0, chunks, area.Length)
      ensures chunks == Released(old(chunks), i0)
      ensures |old(area[..])| == Span(old(chunks))
      ensures PayloadsKept(old(area[..]), area[..], old(chunks), Some(p))
    {
      ghost var mem, cs := area[..], chunks;
      ghost var i: nat := i0;
      TilesSpan(mem, 0, cs, |mem|);
      Cut(cs, MergeFrom(cs, i0), MergeTo(cs, i0));
      var currentPtr := p;
      while true
        invariant Tiles(area[..], 0, chunks, area.Length)
        invariant UnderWay(mem, cs, i0, area[..], chunks, i) && currentPtr == Payload(chunks, i)
        decreases |chunks|
      {
        var done;
        done, currentPtr, i := OnePass(currentPtr, i, mem, cs, i0);
        if done {
          return;
        }
      }
    }

    /** One pass of the loop of myfree: it marks the block free or joins it with its free
        neighbours. */
    method OnePass(p: nat, ghost i: nat, ghost mem: seq<byte>, ghost cs: seq<Chunk>, ghost i0: nat)
      returns (done: bool, currentPtr: nat, ghost j: nat)
      requires Tiles(area[..], 0, chunks, area.Length) && area.Length < U64 / 2
      requires Calm(cs) && |mem| == Span(cs)
      requires UnderWay(mem, cs, i0, area[..], chunks, i) && p == Payload(chunks, i)
      modifies this, area
      ensures Tiles(area[..], 0, chunks, area.Length)
      ensures done ==> chunks == Released(cs, i0) && PayloadsKept(mem, area[..], cs, Some(Payload(cs, i0)))
      ensures !done ==> UnderWay(mem, cs, i0, area[..], chunks, j) && currentPtr == Payload(chunks, j)
      ensures !done ==> |chunks| < |old(chunks)|
    {
      if MergeFrom(cs, i0) != i0 || MergeTo(cs, i0) != i0 + 1 {
        PassDone(cs, i0);
      }
      var prevMarker, prevArea := LookBack(p, i);
      var nextMarker, nextArea := LookAhead(p, i);
      if (prevMarker == ALLOCATED as int || prevMarker == -1)
        && (nextMarker == ALLOCATED as int || nextMarker == -1) {
        MarkFree(p, i, mem, cs, i0);
        return true, p, i;
      }
      currentPtr, j := JoinPass(p, prevMarker, prevArea, nextMarker, nextArea, i);
      done := false;
    }

    /** The joining part of one pass of the loop of myfree. */
    method JoinPass(p: nat, prevMarker: int, prevArea: nat, nextMarker: int, nextArea: nat, ghost i: nat)
      returns (currentPtr: nat, ghost j: nat)
      requires Valid() && i < |chunks| && !chunks[i].free && p == Payload(chunks, i)
      requires prevMarker == NOT_ALLOCATED as int <==> MergeFrom(chunks, i) == i - 1
      requires nextMarker == NOT_ALLOCATED as int <==> MergeTo(chunks, i) == i + 2
      requires prevMarker == NOT_ALLOCATED as int || nextMarker == NOT_ALLOCATED as int
      requires i > 0 ==> prevArea == Payload(chunks, i - 1)
      requires i + 1 < |chunks| ==> nextArea == Payload(chunks, i + 1)
      modifies this, area
      ensures Tiles(area[..], 0, chunks, area.Length)
      ensures chunks == Passed(old(chunks), i) && j == MergeFrom(old(chunks), i) < |chunks|
      ensures currentPtr == Payload(chunks, j)
      ensures OnlyBlockDiffers(old(area[..]), area[..], old(chunks), i)
    {
      currentPtr, j := JoinPrev(p, prevMarker, prevArea, i);
      if nextMarker == NOT_ALLOCATED as int {
        Connect(currentPtr, nextArea, j);
      }
    }

    /** The part of a joining pass that joins the block with the chunk before it. */
    method JoinPrev(p: nat, prevMarker: int, prevArea: nat, ghost i: nat) returns (currentPtr: nat, ghost j: nat)
      requires Valid() && i < |chunks| && p == Payload(chunks, i)
      requires prevMarker == NOT_ALLOCATED as int <==> MergeFrom(chunks, i) == i - 1
      requires i > 0 ==> prevArea == Payload(chunks, i - 1)
      modifies this, area
      ensures Tiles(area[..], 0, chunks, area.Length)
      ensures chunks == if MergeFrom(old(chunks), i) == i then old(chunks) else Fused(old(chunks), i - 1)
      ensures j == MergeFrom(old(chunks), i) < |chunks| && |chunks| - j == |old(chunks)| - i
      ensures currentPtr == Payload(chunks, j) && Offset(chunks, j) == Offset(old(chunks), j)
      ensures i + 1 < |old(chunks)| ==>
                && Offset(chunks, j + 1) == Offset(old(chunks), i + 1)
                && Offset(chunks, j + 2) == Offset(old(chunks), i + 2)
      ensures SameBytes(old(area[..]), area[..], 0, Offset(old(chunks), j))
      ensures SameBytes(old(area[..]), area[..], Offset(old(chunks), i + 1), area.Length)
    {
      FusedOffsets(chunks, i);
      ChunkOf(area[..], chunks, i);
      currentPtr, j := p, i;
      if prevMarker == NOT_ALLOCATED as int {
        Connect(prevArea, currentPtr, j - 1);
        currentPtr, j := prevArea, j - 1;
      }
    }

    /** GET_TAIL_SIZE of a payload pointer */
    function TailSize(p: nat): nat
      requires PAYLOAD <= p <= area.Length
      reads area
    {
      p + GetSize(p - SIZE_INFO_SIZE)
    }

    /** GET_PREV_AREA */
    function PrevArea(p: nat): int
      requires SPACE_BETWEEN_CHUNKS <= p && p - PAYLOAD <= area.Length
      reads area
    {
      p - SPACE_BETWEEN_CHUNKS - GetSize(p - SPACE_BETWEEN_CHUNKS)
    }

    /** GET_NEXT_AREA */
    function NextArea(p: nat): nat
      requires PAYLOAD <= p <= area.Length
      reads area
    {
      p + SPACE_BETWEEN_CHUNKS + GetSize(p - SIZE_INFO_SIZE)
    }

    /** The step of myfree that ends the loop. */
    method MarkFree(currentPtr: nat, ghost i: nat, ghost mem: seq<byte>, ghost cs: seq<Chunk>, ghost i0: nat)
      requires Tiles(area[..], 0, chunks, area.Length) && |mem| == Span(cs)
      requires i < |chunks| && currentPtr == Payload(chunks, i)
      requires MergeFrom(chunks, i) == i && MergeTo(chunks, i) == i + 1
      requires i0 < |cs| && !cs[i0].free && OnlyBlockDiffers(mem, area[..], cs, i0)
      requires (chunks == cs && i == i0) || FirstPassDone(cs, i0, chunks, i)
      modifies this, area
      ensures Tiles(area[..], 0, chunks, area.Length)
      ensures chunks == Released(cs, i0)
      ensures PayloadsKept(mem, area[..], cs, Some(Payload(cs, i0)))
    {
      MarkReleases(mem, area[..], cs, i0, chunks, i);
      SetMarker(currentPtr, NOT_ALLOCATED);
      chunks := Released(cs, i0);
    }

    /** The step of myfree that joins two neighbours, the left one being the previous chunk
        or the current one. */
    method Connect(left: nat, right: nat, ghost i: nat)
      requires area.Length < U64 && Tiles(area[..], 0, chunks, area.Length)
      requires i + 1 < |chunks| && left == Payload(chunks, i) && right == Payload(chunks, i + 1)
      modifies this, area
      ensures Tiles(area[..], 0, chunks, area.Length)
      ensures chunks == Fused(old(chunks), i) && left == Payload(chunks, i)
      ensures SameBytes(old(area[..]), area[..], 0, Offset(old(chunks), i))
      ensures SameBytes(old(area[..]), area[..], Offset(old(chunks), i + 2), area.Length)
    {
      ghost var mem := area[..];
      ChunkOf(mem, chunks, i);
      ChunkOf(mem, chunks, i + 1);
      StoreJoint(left, right, chunks[i], chunks[i + 1]);
      JoinedTiles(mem, area[..], chunks, i);
      FusedOffsets(chunks, i + 1);
      chunks := Fused(chunks, i);
    }

    method StoreJoint(left: nat, right: nat, ghost c: Chunk, ghost d: Chunk)
      requires PAYLOAD <= left && right == left + c.size + SPACE_BETWEEN_CHUNKS
      requires ChunkAt(area[..], left - PAYLOAD, c) && ChunkAt(area[..], right - PAYLOAD, d)
      requires area.Length < U64
      modifies area
      ensures Joined(old(area[..]), area[..], left - PAYLOAD, c, d)
    {
      var total := WrappedSum(GetSize(left - SIZE_INFO_SIZE), GetSize(right - SIZE_INFO_SIZE));
      StoreSizes(left, right, total, c, d);
      SetMarker(left, ALLOCATED);
    }

    /** The size words of the joined chunk: the head of the left one, the tail of the right one. */
    method StoreSizes(left: nat, right: nat, total: nat, ghost c: Chunk, ghost d: Chunk)
      requires PAYLOAD <= left && right == left + c.size + SPACE_BETWEEN_CHUNKS && total < U64
      requires right + d.size + SIZE_INFO_SIZE <= area.Length && Load64(area[..], right - SIZE_INFO_SIZE) == d.size
      modifies area
      ensures Load64(area[..], left - SIZE_INFO_SIZE) == total
      ensures Load64(area[..], right + d.size) == total
      ensures SameBytes(old(area[..]), area[..], 0, left - PAYLOAD)
      ensures SameBytes(old(area[..]), area[..], right + d.size + SIZE_INFO_SIZE, area.Length)
    {
      SetSize(left - SIZE_INFO_SIZE, total);
      SetSize(TailSize(right), GetSize(left - SIZE_INFO_SIZE));
    }

    /** The marker of the previous chunk and its payload address, or -1 for the first chunk. */
    method LookBack(currentPtr: nat, ghost i: nat) returns (marker: int, prevArea: nat)
      requires i < |chunks| && currentPtr == Payload(chunks, i) && Tiles(area[..], 0, chunks, area.Length)
      ensures marker == if i == 0 then -1 else if chunks[i - 1].free then NOT_ALLOCATED as int else ALLOCATED as int
      ensures i > 0 ==> prevArea == Payload(chunks, i - 1)
    {
      NeighboursOf(area[..], chunks, i);
      marker, prevArea := -1, 0;
      if currentPtr - PAYLOAD > 0 {
        prevArea := PrevArea(currentPtr);
        marker := GetMarker(prevArea) as int;
      }
    }

    /** The marker of the next chunk and its payload address, or -1 for the last chunk. */
    method LookAhead(currentPtr: nat, ghost i: nat) returns (marker: int, nextArea: nat)
      requires i < |chunks| && currentPtr == Payload(chunks, i) && Tiles(area[..], 0, chunks, area.Length)
      ensures marker == if i + 1 == |chunks| then -1
                        else if chunks[i + 1].free then NOT_ALLOCATED as int else ALLOCATED as int
      ensures i + 1 < |chunks| ==> nextArea == Payload(chunks, i + 1)
    {
      NeighboursOf(area[..], chunks, i);
      marker, nextArea := -1, 0;
      if currentPtr + GetSize(TailSize(currentPtr)) + SIZE_INFO_SIZE < area.Length {
        nextArea := NextArea(currentPtr);
        marker := GetMarker(nextArea) as int;
      }
    }
  }

  // ---- joining neighbours --------------------------------------------------------------------

  /** Chunks `i` and `i + 1` as one chunk, still marked allocated. */
  ghost function Fused(cs: seq<Chunk>, i: nat): seq<Chunk>
    requires i + 1 < |cs|
  {
    cs[..i] + [Chunk(false, cs[i].size + cs[i + 1].size + SPACE_BETWEEN_CHUNKS)] + cs[i + 2..]
  }

  /** The two memories agree outside the block that releasing chunk `i` merges. */
  ghost predicate OnlyBlockDiffers(mem: seq<byte>, mem': seq<byte>, cs: seq<Chunk>, i: nat)
    requires i < |cs|
  {
    && SameBytes(mem, mem', 0, Offset(cs, MergeFrom(cs, i)))
    && SameBytes(mem, mem', Offset(cs, MergeTo(cs, i)), |mem|)
  }

  /** The loop of myfree after its joining pass: one chunk stands for the whole block, it is
      still marked, and it has no free neighbour. */
  ghost predicate FirstPassDone(cs: seq<Chunk>, i0: nat, now: seq<Chunk>, i: nat)
    requires i0 < |cs| && i < |now|
  {
    && i == MergeFrom(cs, i0) && now[..i] == cs[..i]
    && now[i := now[i].(free := true)] == Released(cs, i0)
    && MergeFrom(now, i) == i && MergeTo(now, i) == i + 1
  }

  /** The block is marked free by a store inside it. */
  lemma {:induction false} KeptByMark(mem: seq<byte>, mem': seq<byte>, cs: seq<Chunk>, i: nat, at: nat)
    requires i < |cs| && !cs[i].free && |mem| == |mem'| == Span(cs)
    requires OnlyBlockDiffers(mem, mem', cs, i)
    requires Offset(cs, MergeFrom(cs, i)) <= at < Offset(cs, MergeTo(cs, i)) && at < |mem|
    ensures PayloadsKept(mem, mem'[at := NOT_ALLOCATED], cs, Some(Payload(cs, i)))
  {
    KeptOutsideBlock(mem, mem'[at := NOT_ALLOCATED], cs, i);
  }

  /** Storing the free mark ends a release. */
  lemma {:induction false} MarkReleases(
    mem: seq<byte>, mem': seq<byte>, cs: seq<Chunk>, i0: nat, now: seq<Chunk>, i: nat)
    requires Tiles(mem', 0, now, |mem'|) && |mem| == |mem'| == Span(cs)
    requires i < |now| && MergeFrom(now, i) == i && MergeTo(now, i) == i + 1
    requires i0 < |cs| && !cs[i0].free && OnlyBlockDiffers(mem, mem', cs, i0)
    requires (now == cs && i == i0) || FirstPassDone(cs, i0, now, i)
    ensures Offset(now, i) < |mem'|
    ensures Tiles(mem'[Offset(now, i) := NOT_ALLOCATED], 0, Released(cs, i0), |mem'|)
    ensures PayloadsKept(mem, mem'[Offset(now, i) := NOT_ALLOCATED], cs, Some(Payload(cs, i0)))
  {
    ReleasedInPlace(cs, i0, now, i);
    MarkTiles(mem', now, i, NOT_ALLOCATED);
    KeptByMark(mem, mem', cs, i0, Offset(now, i));
  }

  lemma {:induction false} ReleasedInPlace(cs: seq<Chunk>, i0: nat, now: seq<Chunk>, i: nat)
    requires i0 < |cs| && i < |now| && MergeFrom(now, i) == i && MergeTo(now, i) == i + 1
    requires (now == cs && i == i0) || FirstPassDone(cs, i0, now, i)
    ensures now[i := now[i].(free := true)] == Released(cs, i0)
    ensures Offset(now, i) == Offset(cs, MergeFrom(cs, i0)) < Offset(cs, MergeTo(cs, i0))
  {
    OffsetIsSpan(now, i);
    OffsetIsSpan(cs, i);
    OffsetGrows(cs, MergeFrom(cs, i0), MergeTo(cs, i0));
    if now == cs && i == i0 {
      assert cs[i..i + 1] == [cs[i]];
      Single(cs[i], 0, 0);
    }
  }

  /** One marked chunk `c` in place of the block that releasing chunk `i` merges. */
  lemma {:induction false} BlockFused(cs: seq<Chunk>, i: nat, c: Chunk)
    requires Calm(cs) && i < |cs| && !cs[i].free && !c.free
    requires Span(cs[MergeFrom(cs, i)..MergeTo(cs, i)]) == c.size + SPACE_BETWEEN_CHUNKS
    ensures
      var lo, hi := MergeFrom(cs, i), MergeTo(cs, i);
      FirstPassDone(cs, i, cs[..lo] + [c] + cs[hi..], lo)
  {
    var lo, hi := MergeFrom(cs, i), MergeTo(cs, i);
    var now := cs[..lo] + [c] + cs[hi..];
    assert now[..lo] == cs[..lo];
    assert now[lo := c.(free := true)] == cs[..lo] + [c.(free := true)] + cs[hi..];
    assert lo > 0 ==> now[lo - 1] == cs[lo - 1] && !cs[lo - 1].free by {
      if lo > 0 && lo < i {
        assert cs[lo].free;
      }
    }
    assert hi < |cs| ==> now[lo + 1] == cs[hi] && !cs[hi].free by {
      if hi < |cs| && hi == i + 2 {
        assert cs[hi - 1].free;
      }
    }
  }

  /** Joining the free previous chunk alone yields the released block. */
  lemma {:induction false} FusedBefore(cs: seq<Chunk>, i: nat)
    requires Calm(cs) && i < |cs| && !cs[i].free && MergeFrom(cs, i) == i - 1 && MergeTo(cs, i) == i + 1
    ensures FirstPassDone(cs, i, Fused(cs, i - 1), i - 1)
  {
    assert cs[i - 1..i + 1] == [cs[i - 1], cs[i]];
    Pair(cs[i - 1], cs[i], 0, 0);
    BlockFused(cs, i, Fused(cs, i - 1)[i - 1]);
  }

  /** Joining the free next chunk alone yields the released block. */
  lemma {:induction false} FusedAfter(cs: seq<Chunk>, i: nat)
    requires Calm(cs) && i < |cs| && !cs[i].free && MergeFrom(cs, i) == i && MergeTo(cs, i) == i + 2
    ensures FirstPassDone(cs, i, Fused(cs, i), i)
  {
    assert cs[i..i + 2] == [cs[i], cs[i + 1]];
    Pair(cs[i], cs[i + 1], 0, 0);
    BlockFused(cs, i, Fused(cs, i)[i]);
  }

  /** Joining the free previous chunk and then the free next one yields the released block. */
  lemma {:induction false} FusedTwice(cs: seq<Chunk>, i: nat)
    requires Calm(cs) && i < |cs| && !cs[i].free && MergeFrom(cs, i) == i - 1 && MergeTo(cs, i) == i + 2
    ensures FirstPassDone(cs, i, Fused(Fused(cs, i - 1), i - 1), i - 1)
  {
    var c := Chunk(false, cs[i - 1].size + cs[i].size + SPACE_BETWEEN_CHUNKS);
    var once := Fused(cs, i - 1);
    var twice := Fused(once, i - 1);
    assert once[i - 1] == c && once[i] == cs[i + 1];
    assert once[..i - 1] == cs[..i - 1] && once[i + 1..] == cs[i + 2..];
    assert cs[i - 1..i + 2] == [cs[i - 1]] + [cs[i], cs[i + 1]];
    Pair(cs[i], cs[i + 1], 0, 0);
    Single(cs[i - 1], 0, 0);
    SpanAppend([cs[i - 1]], [cs[i], cs[i + 1]]);
    var whole := Chunk(false, c.size + cs[i + 1].size + SPACE_BETWEEN_CHUNKS);
    assert twice == cs[..i - 1] + [whole] + cs[i + 2..];
    BlockFused(cs, i, whole);
  }

  /** Where the loop of myfree stands: before its first pass, or after the joining one. */
  ghost predicate UnderWay(mem: seq<byte>, cs: seq<Chunk>, i0: nat, mem': seq<byte>, now: seq<Chunk>, i: nat) {
    && i0 < |cs| && !cs[i0].free && i < |now|
    && ((now == cs && mem' == mem && i == i0)
        || (now == Passed(cs, i0) && i == MergeFrom(cs, i0) && (MergeFrom(cs, i0) != i0 || MergeTo(cs, i0) != i0 + 1)))
    && OnlyBlockDiffers(mem, mem', cs, i0)
  }

  /** The list after one joining pass, whichever neighbours are free. */
  ghost function Passed(cs: seq<Chunk>, i: nat): seq<Chunk>
    requires i < |cs|
  {
    if MergeFrom(cs, i) == i then
      if MergeTo(cs, i) == i + 1 then cs else Fused(cs, i)
    else if MergeTo(cs, i) == i + 1 then Fused(cs, i - 1)
    else Fused(Fused(cs, i - 1), i - 1)
  }

  lemma {:induction false} PassDone(cs: seq<Chunk>, i: nat)
    requires Calm(cs) && i < |cs| && !cs[i].free && (MergeFrom(cs, i) != i || MergeTo(cs, i) != i + 1)
    ensures FirstPassDone(cs, i, Passed(cs, i), MergeFrom(cs, i)) && |Passed(cs, i)| < |cs|
    ensures !Passed(cs, i)[MergeFrom(cs, i)].free
  {
    if MergeFrom(cs, i) == i {
      FusedAfter(cs, i);
    } else if MergeTo(cs, i) == i + 1 {
      FusedBefore(cs, i);
    } else {
      FusedTwice(cs, i);
    }
  }

  /** What myfree reads about chunk `i` and its neighbours. */
  lemma {:induction false} NeighboursOf(mem: seq<byte>, cs: seq<Chunk>, i: nat)
    requires i < |cs| && Tiles(mem, 0, cs, |mem|)
    ensures ChunkAt(mem, Offset(cs, i), cs[i])
    ensures i == 0 <==> Offset(cs, i) == 0
    ensures i > 0 ==> ChunkAt(mem, Offset(cs, i - 1), cs[i - 1])
    ensures i + 1 == |cs| <==> Offset(cs, i + 1) == |mem|
    ensures i + 1 < |cs| ==> ChunkAt(mem, Offset(cs, i + 1), cs[i + 1]) && Offset(cs, i + 2) <= |mem|
    ensures Offset(cs, i + 1) <= |mem|
  {
    ChunkOf(mem, cs, i);
    if i > 0 {
      ChunkOf(mem, cs, i - 1);
    }
    if i + 1 < |cs| {
      ChunkOf(mem, cs, i + 1);
    }
  }

  /** The value of a signed word in a comparison with an unsigned one. */
  function ToUnsigned(w: int): (r: nat)
    ensures 0 <= w < U64 ==> r == w
  {
    w % U64
  }

  /** The size left over by a split, in the mixed signed and unsigned arithmetic of C. */
  function SignedRest(current: nat, size: nat): (r: int)
    requires size <= current < U64 / 2
    ensures r == current - size - SPACE_BETWEEN_CHUNKS
  {
    ToSigned((current - size - SPACE_BETWEEN_CHUNKS) % U64)
  }

  /** The size word of two joined chunks, in unsigned 64-bit arithmetic. */
  function WrappedSum(a: nat, b: nat): (r: nat)
    ensures r < U64
    ensures a + b + SPACE_BETWEEN_CHUNKS < U64 ==> r == a + b + SPACE_BETWEEN_CHUNKS
  {
    (a + b + SPACE_BETWEEN_CHUNKS) % U64
  }

  /** The bytes of chunks `c` and `d`, adjacent from `at`, now are one allocated chunk. */
  ghost predicate Joined(mem: seq<byte>, mem': seq<byte>, at: nat, c: Chunk, d: Chunk) {
    && ChunkAt(mem', at, Chunk(false, c.size + d.size + SPACE_BETWEEN_CHUNKS))
    && SameBytes(mem, mem', 0, at)
    && SameBytes(mem, mem', at + c.size + d.size + 2 * SPACE_BETWEEN_CHUNKS, |mem|)
  }

  /** Where the chunks of a list are after one and after two joins around chunk `i`. */
  lemma {:induction false} FusedOffsets(cs: seq<Chunk>, i: nat)
    requires i < |cs|
    ensures i > 0 ==> Offset(Fused(cs, i - 1), i - 1) == Offset(cs, i - 1)
    ensures 0 < i < |cs| - 1 ==>
      && Fused(cs, i - 1)[i - 1].size == cs[i - 1].size + cs[i].size + SPACE_BETWEEN_CHUNKS
      && Offset(Fused(cs, i - 1), i) == Offset(cs, i + 1)
      && Offset(Fused(cs, i - 1), i + 1) == Offset(cs, i + 2)
  {
    if i > 0 {
      OffsetIsSpan(cs, i - 1);
      OffsetIsSpan(Fused(cs, i - 1), i - 1);
      assert Fused(cs, i - 1)[..i - 1] == cs[..i - 1];
    }
  }

  /** Joining two neighbours in the buffer joins them in the list. */
  lemma {:induction false} JoinedTiles(mem: seq<byte>, mem': seq<byte>, cs: seq<Chunk>, i: nat)
    requires i + 1 < |cs| && Tiles(mem, 0, cs, |mem|)
    requires Joined(mem, mem', Offset(cs, i), cs[i], cs[i + 1])
    ensures Tiles(mem', 0, Fused(cs, i), |mem'|)
  {
    var c := Chunk(false, cs[i].size + cs[i + 1].size + SPACE_BETWEEN_CHUNKS);
    TilesShort(mem', Offset(cs, i), c, c);
    RewriteBlock(mem, mem', cs, i, i + 2, [c]);
  }

  lemma {:induction false} MarkedChunk(mem: seq<byte>, at: nat, c: Chunk, m: byte)
    requires ChunkAt(mem, at, c) && (m == ALLOCATED || m == NOT_ALLOCATED)
    ensures ChunkAt(mem[at := m], at, c.(free := m == NOT_ALLOCATED))
  {
    WordsOutside(mem, mem[at := m], at, at + 1);
  }

  /** Storing a marker changes the mark of one chunk and nothing else. */
  lemma {:induction false} MarkTiles(mem: seq<byte>, cs: seq<Chunk>, i: nat, m: byte)
    requires i < |cs| && Tiles(mem, 0, cs, |mem|) && (m == ALLOCATED || m == NOT_ALLOCATED)
    ensures Offset(cs, i + 1) <= |mem|
    ensures
      var mem' := mem[Offset(cs, i) := m];
      Tiles(mem', 0, cs[i := cs[i].(free := m == NOT_ALLOCATED)], |mem|)
  {
    var at, c := Offset(cs, i), cs[i].(free := m == NOT_ALLOCATED);
    ChunkOf(mem, cs, i);
    var mem' := mem[at := m];
    assert Tiles(mem', at, [c], Offset(cs, i + 1)) by {
      MarkedChunk(mem, at, cs[i], m);
      TilesShort(mem', at, c, c);
    }
    RewriteBlock(mem, mem', cs, i, i + 1, [c]);
    OneReplaced(cs, i, c);
  }

  lemma {:induction false} OneReplaced<T>(s: seq<T>, i: nat, x: T)
    requires i < |s|
    ensures s[i := x] == s[..i] + [x] + s[i + 1..]
  {
  }

  /** Taking a whole chunk only stores its marker. */
  lemma {:induction false} MarkTaken(mem: seq<byte>, cs: seq<Chunk>, i: nat, n: nat)
    requires i < |cs| && Tiles(mem, 0, cs, |mem|) && |mem| == Span(cs)
    requires cs[i].free && n <= cs[i].size <= n + SPACE_BETWEEN_CHUNKS
    ensures Offset(cs, i) < Offset(cs, i + 1) <= |mem|
    ensures Tiles(mem[Offset(cs, i) := ALLOCATED], 0, Allocated(cs, i, n), |mem|)
    ensures PayloadsKept(mem, mem[Offset(cs, i) := ALLOCATED], cs, None)
  {
    MarkTiles(mem, cs, i, ALLOCATED);
    assert Allocated(cs, i, n) == cs[i := cs[i].(free := false)];
    KeptOutsideFree(mem, mem[Offset(cs, i) := ALLOCATED], cs, i);
  }

  /** The stores of a split turn the found chunk into an allocated one of the requested
      size and a free one over the rest. */
  lemma {:induction false} SplitTiles(mem: seq<byte>, mem': seq<byte>, cs: seq<Chunk>, i: nat, n: nat)
    requires i < |cs| && |mem'| == |mem| && Tiles(mem, 0, cs, |mem|)
    requires cs[i].size > n + SPACE_BETWEEN_CHUNKS
    requires ChunkAt(mem', Offset(cs, i), Chunk(false, n))
    requires ChunkAt(mem', Offset(cs, i) + n + SPACE_BETWEEN_CHUNKS, Chunk(true, cs[i].size - n - SPACE_BETWEEN_CHUNKS))
    requires SameBytes(mem, mem', 0, Offset(cs, i))
    requires SameBytes(mem, mem', Offset(cs, i + 1), |mem|)
    ensures Tiles(mem', 0, Allocated(cs, i, n), |mem'|)
  {
    assert Tiles(mem', Offset(cs, i), Taken(cs[i], n), Offset(cs, i + 1)) by {
      TilesShort(mem', Offset(cs, i), Chunk(false, n), Chunk(true, cs[i].size - n - SPACE_BETWEEN_CHUNKS));
    }
    RewriteBlock(mem, mem', cs, i, i + 1, Taken(cs[i], n));
  }

  /** A rewrite confined to one free chunk keeps every live payload. */
  lemma {:induction false} KeptOutsideFree(mem: seq<byte>, mem': seq<byte>, cs: seq<Chunk>, i: nat)
    requires i < |cs| && cs[i].free && |mem| == |mem'| == Span(cs)
    requires SameBytes(mem, mem', 0, Offset(cs, i))
    requires SameBytes(mem, mem', Offset(cs, i + 1), |mem|)
    ensures PayloadsKept(mem, mem', cs, None)
  {
    assert cs[i..i + 1] == [cs[i]];
    forall p: nat | Some(p) != None
      ensures LiveSize(cs[i..i + 1], Offset(cs, i), p) == None
    {
      Single(cs[i], Offset(cs, i), p);
    }
    KeptOutside(mem, mem', cs, i, i + 1, None);
  }

  /** A rewrite confined to the block that a release merges keeps every other payload. */
  lemma {:induction false} KeptOutsideBlock(mem: seq<byte>, mem': seq<byte>, cs: seq<Chunk>, i: nat)
    requires i < |cs| && !cs[i].free && |mem| == |mem'| == Span(cs)
    requires OnlyBlockDiffers(mem, mem', cs, i)
    ensures PayloadsKept(mem, mem', cs, Some(Payload(cs, i)))
  {
    forall p: nat | p != Payload(cs, i)
      ensures LiveSize(cs[MergeFrom(cs, i)..MergeTo(cs, i)], Offset(cs, MergeFrom(cs, i)), p) == None
    {
      BlockLive(cs, i, p);
    }
    KeptOutside(mem, mem', cs, MergeFrom(cs, i), MergeTo(cs, i), Some(Payload(cs, i)));
  }

  /** A rewrite confined to the chunks `lo..hi`, whose only live payload is `except`, keeps
      every other live payload. */
  lemma {:induction false} KeptOutside(
    mem: seq<byte>, mem': seq<byte>, cs: seq<Chunk>, lo: nat, hi: nat, except: Option<nat>)
    requires lo <= hi <= |cs| && |mem| == |mem'| == Span(cs)
    requires SameBytes(mem, mem', 0, Offset(cs, lo))
    requires SameBytes(mem, mem', Offset(cs, hi), |mem|)
    requires forall p: nat :: Some(p) != except ==> LiveSize(cs[lo..hi], Offset(cs, lo), p) == None
    ensures PayloadsKept(mem, mem', cs, except)
  {
    Cut(cs, lo, hi);
    forall p: nat, k: nat |
      LiveSize(cs, 0, p).Some? && Some(p) != except && p <= k < p + LiveSize(cs, 0, p).value && k < |mem|
      ensures mem'[k] == mem[k]
    {
      Join3(cs[..lo], cs[lo..hi], cs[hi..], p);
      LiveBounds(cs[..lo], 0, p);
      LiveBounds(cs[hi..], Offset(cs, hi), p);
    }
  }

  lemma {:induction false} FirstFitIs(cs: seq<Chunk>, n: nat, i: nat)
    requires i <= |cs| && (i < |cs| ==> Fits(cs[i], n))
    requires forall j :: 0 <= j < i ==> !Fits(cs[j], n)
    ensures FirstFit(cs, n) == i
  {
    var f := FirstFit(cs, n);
    assert !(f < i) && !(i < f);
  }
}
