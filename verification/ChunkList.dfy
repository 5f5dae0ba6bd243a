/** The allocator's heap as the list of chunks that tile its buffer: what one
    allocation and one release do to that list, and what whole runs of them keep. */
module ChunkList {
  import opened Common

  /** Bytes of bookkeeping per chunk: one marker byte and two size words. */
  const SPACE_BETWEEN_CHUNKS := 17
  /** Distance from the first byte of a chunk to its payload. */
  const PAYLOAD := 9

  datatype Chunk = Chunk(free: bool, size: nat)

  /** Number of buffer bytes a list of chunks occupies. */
  function Span(cs: seq<Chunk>): nat {
    if cs == [] then 0 else cs[0].size + SPACE_BETWEEN_CHUNKS + Span(cs[1..])
  }

  /** No two neighbours are both free: nothing is left to defragment. */
  ghost predicate Calm(cs: seq<Chunk>) {
    forall i :: 0 <= i < |cs| - 1 ==> !(cs[i].free && cs[i + 1].free)
  }

  /** The size of the live allocation whose payload starts at address `p`, in a list laid
      out from address `lo`; `None` when no live allocation starts there. */
  function LiveSize(cs: seq<Chunk>, lo: nat, p: nat): Option<nat> {
    if cs == [] then None
    else if p == lo + PAYLOAD then
      if cs[0].free then None else Some(cs[0].size)
    else LiveSize(cs[1..], lo + cs[0].size + SPACE_BETWEEN_CHUNKS, p)
  }

  /** Where chunk `i` begins, when the list is laid out from address 0. */
  function Offset(cs: seq<Chunk>, i: nat): nat
    requires i <= |cs|
  {
    if i == 0 then 0 else Offset(cs, i - 1) + cs[i - 1].size + SPACE_BETWEEN_CHUNKS
  }

  /** The payload address of chunk `i`. */
  function Payload(cs: seq<Chunk>, i: nat): nat
    requires i <= |cs|
  {
    Offset(cs, i) + PAYLOAD
  }

  // ---- one operation -------------------------------------------------------------------

  predicate Fits(c: Chunk, n: nat) {
    c.free && c.size >= n
  }

  /** Index of the lowest chunk that can hold `n` bytes, or `|cs|` when there is none. */
  function FirstFit(cs: seq<Chunk>, n: nat): (i: nat)
    ensures i <= |cs|
    ensures i < |cs| ==> Fits(cs[i], n)
    ensures forall j :: 0 <= j < i ==> !Fits(cs[j], n)
  {
    if cs == [] || Fits(cs[0], n) then 0 else 1 + FirstFit(cs[1..], n)
  }

  /** The size chunk `c` keeps when `n` bytes are taken from it: it is split only when at
      least one payload byte is left over for the remainder. */
  function Granted(c: Chunk, n: nat): nat {
    if c.size > n + SPACE_BETWEEN_CHUNKS then n else c.size
  }

  function Taken(c: Chunk, n: nat): seq<Chunk> {
    if c.size > n + SPACE_BETWEEN_CHUNKS
    then [Chunk(false, n), Chunk(true, c.size - n - SPACE_BETWEEN_CHUNKS)]
    else [Chunk(false, c.size)]
  }

  function Allocated(cs: seq<Chunk>, i: nat, n: nat): seq<Chunk>
    requires i < |cs|
  {
    cs[..i] + Taken(cs[i], n) + cs[i + 1..]
  }

  /** The block of chunks that releasing chunk `i` turns into one: chunk `i` and each
      neighbour that is free. */
  function MergeFrom(cs: seq<Chunk>, i: nat): nat
    requires i < |cs|
  {
    if i > 0 && cs[i - 1].free then i - 1 else i
  }

  function MergeTo(cs: seq<Chunk>, i: nat): nat
    requires i < |cs|
  {
    if i + 1 < |cs| && cs[i + 1].free then i + 2 else i + 1
  }

  function Released(cs: seq<Chunk>, i: nat): seq<Chunk>
    requires i < |cs|
  {
    var lo, hi := MergeFrom(cs, i), MergeTo(cs, i);
    cs[..lo] + [Chunk(true, Span(cs[lo..hi]) - SPACE_BETWEEN_CHUNKS)] + cs[hi..]
  }

  // ---- layout lemmas -------------------------------------------------------------------

  lemma {:induction false} SpanAppend(a: seq<Chunk>, b: seq<Chunk>)
    ensures Span(a + b) == Span(a) + Span(b)
  {
    if a == [] {
      assert a + b == b;
    } else {
      assert (a + b)[1..] == a[1..] + b;
      SpanAppend(a[1..], b);
    }
  }

  lemma {:induction false} LiveAppend(a: seq<Chunk>, b: seq<Chunk>, lo: nat, p: nat)
    ensures LiveSize(a + b, lo, p)
         == if p < lo + Span(a) then LiveSize(a, lo, p) else LiveSize(b, lo + Span(a), p)
  {
    if a == [] {
      assert a + b == b;
      LiveBounds(b, lo, p);
    } else {
      assert (a + b)[1..] == a[1..] + b;
      LiveAppend(a[1..], b, lo + a[0].size + SPACE_BETWEEN_CHUNKS, p);
      LiveBounds(a[1..], lo + a[0].size + SPACE_BETWEEN_CHUNKS, p);
    }
  }

  /** Every live payload lies inside the bytes the list occupies, clear of the bookkeeping
      at both ends. */
  lemma {:induction false} LiveBounds(cs: seq<Chunk>, lo: nat, p: nat)
    ensures var s := LiveSize(cs, lo, p);
      s.Some? ==> lo + PAYLOAD <= p && p + s.value + 8 <= lo + Span(cs)
  {
    if cs != [] {
      LiveBounds(cs[1..], lo + cs[0].size + SPACE_BETWEEN_CHUNKS, p);
    }
  }

  /** Two live allocations never share a byte. */
  lemma {:induction false} LiveDisjoint(cs: seq<Chunk>, lo: nat, p: nat, q: nat)
    requires LiveSize(cs, lo, p).Some? && LiveSize(cs, lo, q).Some? && p < q
    ensures p + LiveSize(cs, lo, p).value + SPACE_BETWEEN_CHUNKS <= q
  {
    var next := lo + cs[0].size + SPACE_BETWEEN_CHUNKS;
    LiveBounds(cs[1..], next, p);
    LiveBounds(cs[1..], next, q);
    if p != lo + PAYLOAD {
      LiveDisjoint(cs[1..], next, p, q);
    }
  }

  /** A list cut in three: spans add up, and an address is looked up in the part that
      covers it. */
  lemma {:induction false} Join3(a: seq<Chunk>, m: seq<Chunk>, b: seq<Chunk>, p: nat)
    ensures Span(a + m + b) == Span(a) + Span(m) + Span(b)
    ensures LiveSize(a + m + b, 0, p)
         == if p < Span(a) then LiveSize(a, 0, p)
            else if p < Span(a) + Span(m) then LiveSize(m, Span(a), p)
            else LiveSize(b, Span(a) + Span(m), p)
  {
    SpanAppend(a, m);
    SpanAppend(a + m, b);
    LiveAppend(a + m, b, 0, p);
    LiveAppend(a, m, 0, p);
  }

  /** Chunk `i` begins where the chunks before it end. */
  lemma {:induction false} OffsetIsSpan(cs: seq<Chunk>, i: nat)
    requires i <= |cs|
    ensures Offset(cs, i) == Span(cs[..i])
    ensures Offset(cs, i) + Span(cs[i..]) == Span(cs)
  {
    if i > 0 {
      OffsetIsSpan(cs, i - 1);
      assert cs[i - 1..][1..] == cs[i..];
    }
    assert cs == cs[..i] + cs[i..];
    SpanAppend(cs[..i], cs[i..]);
  }

  lemma {:induction false} OffsetGrows(cs: seq<Chunk>, i: nat, j: nat)
    requires i < j <= |cs|
    ensures Offset(cs, i) < Offset(cs, j)
  {
    if i < j - 1 {
      OffsetGrows(cs, i, j - 1);
    }
  }

  /** A list cut at two indices. */
  lemma {:induction false} Cut(cs: seq<Chunk>, lo: nat, hi: nat)
    requires lo <= hi <= |cs|
    ensures cs == cs[..lo] + cs[lo..hi] + cs[hi..]
    ensures Span(cs[..lo]) == Offset(cs, lo)
    ensures Offset(cs, lo) + Span(cs[lo..hi]) == Offset(cs, hi) <= Span(cs)
  {
    assert cs[..hi] == cs[..lo] + cs[lo..hi];
    SpanAppend(cs[..lo], cs[lo..hi]);
    OffsetIsSpan(cs, lo);
    OffsetIsSpan(cs, hi);
  }

  lemma {:induction false} Single(c: Chunk, lo: nat, p: nat)
    ensures Span([c]) == c.size + SPACE_BETWEEN_CHUNKS
    ensures LiveSize([c], lo, p) == if p == lo + PAYLOAD && !c.free then Some(c.size) else None
  {
    assert [c][1..] == [];
  }

  lemma {:induction false} Pair(c: Chunk, d: Chunk, lo: nat, p: nat)
    ensures Span([c, d]) == c.size + d.size + 2 * SPACE_BETWEEN_CHUNKS
    ensures d.free ==>
      LiveSize([c, d], lo, p) == if p == lo + PAYLOAD && !c.free then Some(c.size) else None
    ensures c.free ==>
      LiveSize([c, d], lo, p)
      == if p == lo + c.size + SPACE_BETWEEN_CHUNKS + PAYLOAD && !d.free then Some(d.size) else None
  {
    assert [c, d][1..] == [d];
    Single(d, lo + c.size + SPACE_BETWEEN_CHUNKS, p);
  }

  /** The live allocation of chunk `i` is found at its payload address. */
  lemma {:induction false} LiveAt(cs: seq<Chunk>, i: nat)
    requires i < |cs|
    ensures LiveSize(cs, 0, Payload(cs, i)) == if cs[i].free then None else Some(cs[i].size)
  {
    OffsetIsSpan(cs, i);
    assert cs == cs[..i] + cs[i..];
    LiveAppend(cs[..i], cs[i..], 0, Payload(cs, i));
  }

  // ---- what one operation keeps and changes ----------------------------------------------

  /** An allocation from a calm heap keeps the tiling and the calm, adds exactly one live
      payload of at least the requested size, and changes no other. */
  lemma {:induction false} AllocatedMeaning(cs: seq<Chunk>, i: nat, n: nat)
    requires Calm(cs) && i < |cs| && Fits(cs[i], n)
    ensures Calm(Allocated(cs, i, n))
    ensures Span(Allocated(cs, i, n)) == Span(cs)
    ensures n <= Granted(cs[i], n) <= n + SPACE_BETWEEN_CHUNKS
    ensures LiveSize(cs, 0, Payload(cs, i)) == None
    ensures forall p: nat :: LiveSize(Allocated(cs, i, n), 0, p)
              == if p == Payload(cs, i) then Some(Granted(cs[i], n)) else LiveSize(cs, 0, p)
  {
    LiveAt(cs, i);
    forall p: nat
      ensures LiveSize(Allocated(cs, i, n), 0, p)
           == if p == Payload(cs, i) then Some(Granted(cs[i], n)) else LiveSize(cs, 0, p)
    {
      AllocatedLive(cs, i, n, p);
    }
    AllocatedLive(cs, i, n, 0);
  }

  lemma {:induction false} AllocatedLive(cs: seq<Chunk>, i: nat, n: nat, p: nat)
    requires i < |cs| && Fits(cs[i], n)
    ensures Span(Allocated(cs, i, n)) == Span(cs)
    ensures LiveSize(Allocated(cs, i, n), 0, p)
         == if p == Payload(cs, i) then Some(Granted(cs[i], n)) else LiveSize(cs, 0, p)
  {
    var t := Taken(cs[i], n);
    OffsetIsSpan(cs, i);
    assert cs == cs[..i] + [cs[i]] + cs[i + 1..];
    Join3(cs[..i], [cs[i]], cs[i + 1..], p);
    Join3(cs[..i], t, cs[i + 1..], p);
    Single(cs[i], Span(cs[..i]), p);
    if |t| == 2 {
      Pair(t[0], t[1], Span(cs[..i]), p);
      assert t == [t[0], t[1]];
    } else {
      Single(t[0], Span(cs[..i]), p);
    }
  }

  /** Releasing a live chunk of a calm heap keeps the tiling and the calm, and removes
      exactly that payload. */
  lemma {:induction false} ReleasedMeaning(cs: seq<Chunk>, i: nat)
    requires Calm(cs) && i < |cs| && !cs[i].free
    ensures Calm(Released(cs, i))
    ensures Span(Released(cs, i)) == Span(cs)
    ensures LiveSize(cs, 0, Payload(cs, i)) == Some(cs[i].size)
    ensures forall p: nat :: LiveSize(Released(cs, i), 0, p)
              == if p == Payload(cs, i) then None else LiveSize(cs, 0, p)
  {
    LiveAt(cs, i);
    forall p: nat
      ensures LiveSize(Released(cs, i), 0, p) == if p == Payload(cs, i) then None else LiveSize(cs, 0, p)
    {
      ReleasedLive(cs, i, p);
    }
    ReleasedLive(cs, i, 0);
  }

  lemma {:induction false} ReleasedLive(cs: seq<Chunk>, i: nat, p: nat)
    requires i < |cs| && !cs[i].free
    ensures Span(Released(cs, i)) == Span(cs)
    ensures LiveSize(Released(cs, i), 0, p) == if p == Payload(cs, i) then None else LiveSize(cs, 0, p)
  {
    var lo, hi := MergeFrom(cs, i), MergeTo(cs, i);
    BlockLive(cs, i, p);
    Cut(cs, lo, hi);
    BlockReplaced(cs[..lo], cs[lo..hi], cs[hi..], p);
  }

  /** One free chunk in place of a block keeps the span and what is live outside it. */
  lemma {:induction false} BlockReplaced(a: seq<Chunk>, m: seq<Chunk>, b: seq<Chunk>, p: nat)
    requires Span(m) >= SPACE_BETWEEN_CHUNKS
    ensures var whole := [Chunk(true, Span(m) - SPACE_BETWEEN_CHUNKS)];
      && Span(a + whole + b) == Span(a + m + b)
      && LiveSize(a + whole + b, 0, p)
         == if Span(a) <= p < Span(a) + Span(m) then None else LiveSize(a + m + b, 0, p)
    ensures Span(a) <= p < Span(a) + Span(m) ==> LiveSize(a + m + b, 0, p) == LiveSize(m, Span(a), p)
  {
    var whole := Chunk(true, Span(m) - SPACE_BETWEEN_CHUNKS);
    Join3(a, m, b, p);
    Single(whole, Span(a), p);
    Join3(a, [whole], b, p);
  }

  /** Within the block that a release merges, the only live payload is the released one. */
  lemma {:induction false} BlockLive(cs: seq<Chunk>, i: nat, p: nat)
    requires i < |cs| && !cs[i].free
    ensures
      var lo, hi := MergeFrom(cs, i), MergeTo(cs, i);
      && SPACE_BETWEEN_CHUNKS <= Span(cs[lo..hi])
      && LiveSize(cs[lo..hi], Offset(cs, lo), p) == (if p == Payload(cs, i) then Some(cs[i].size) else None)
      && Offset(cs, lo) <= Payload(cs, i) < Offset(cs, hi) == Offset(cs, lo) + Span(cs[lo..hi])
  {
    var lo, hi := MergeFrom(cs, i), MergeTo(cs, i);
    var base := Offset(cs, lo);
    var right := cs[i..hi];
    assert cs[lo..hi] == cs[lo..i] + right;
    SpanAppend(cs[lo..i], right);
    LiveAppend(cs[lo..i], right, base, p);
    if lo < i {
      assert cs[lo..i] == [cs[lo]];
      Single(cs[lo], base, p);
    }
    if hi == i + 2 {
      assert right == [cs[i], cs[i + 1]];
      Pair(cs[i], cs[i + 1], Offset(cs, i), p);
    } else {
      assert right == [cs[i]];
      Single(cs[i], Offset(cs, i), p);
    }
  }

  /** Releasing what was just allocated restores the exact list, split or not. */
  lemma {:induction false} ReleaseUndoesAllocate(cs: seq<Chunk>, n: nat)
    requires Calm(cs) && FirstFit(cs, n) < |cs|
    ensures Released(Allocated(cs, FirstFit(cs, n), n), FirstFit(cs, n)) == cs
  {
    var i := FirstFit(cs, n);
    if |Taken(cs[i], n)| == 2 {
      ReleaseUndoesSplit(cs, i, n);
    } else {
      ReleaseUndoesMark(cs, i, n);
    }
  }

  lemma {:induction false} ReleaseUndoesSplit(cs: seq<Chunk>, i: nat, n: nat)
    requires Calm(cs) && i < |cs| && Fits(cs[i], n) && |Taken(cs[i], n)| == 2
    ensures Released(Allocated(cs, i, n), i) == cs
  {
    var t := Taken(cs[i], n);
    var after := Allocated(cs, i, n);
    assert after[..i] == cs[..i] && after[i] == t[0] && after[i + 1] == t[1];
    assert i > 0 ==> after[i - 1] == cs[i - 1] && !cs[i - 1].free;
    assert after[i..i + 2] == [t[0], t[1]];
    Pair(t[0], t[1], 0, 0);
    assert after[i + 2..] == cs[i + 1..];
    assert cs == cs[..i] + [cs[i]] + cs[i + 1..];
  }

  lemma {:induction false} ReleaseUndoesMark(cs: seq<Chunk>, i: nat, n: nat)
    requires Calm(cs) && i < |cs| && Fits(cs[i], n) && |Taken(cs[i], n)| != 2
    ensures Released(Allocated(cs, i, n), i) == cs
  {
    var t := Taken(cs[i], n);
    var after := Allocated(cs, i, n);
    assert after[..i] == cs[..i] && after[i] == t[0];
    assert i > 0 ==> after[i - 1] == cs[i - 1] && !cs[i - 1].free;
    assert i + 1 < |cs| ==> after[i + 1] == cs[i + 1] && !cs[i + 1].free;
    assert after[i..i + 1] == [t[0]];
    Single(t[0], 0, 0);
    assert after[i + 1..] == cs[i + 1..];
    assert cs == cs[..i] + [cs[i]] + cs[i + 1..];
  }

  /** A calm heap without live allocations is one free chunk over the whole buffer. */
  lemma {:induction false} NothingLiveMeansOneChunk(cs: seq<Chunk>)
    requires Calm(cs) && cs != [] && forall p: nat :: LiveSize(cs, 0, p) == None
    ensures cs == [Chunk(true, Span(cs) - SPACE_BETWEEN_CHUNKS)]
  {
    LiveAt(cs, 0);
    if |cs| > 1 {
      LiveAt(cs, 1);
    }
    Single(cs[0], 0, 0);
    assert cs == [cs[0]];
  }
}
