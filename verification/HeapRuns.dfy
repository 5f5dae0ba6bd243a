/** Whole runs of allocations and releases, on the list of chunks. */
module HeapRuns {
  import opened Common
  import opened ChunkList

  datatype Op = Malloc(n: nat) | Free(p: Option<nat>)

  lemma {:induction false} PayloadsOfTail(cs: seq<Chunk>)
    requires cs != []
    ensures forall j {:trigger Payload(cs, j)} :: 0 < j <= |cs| ==>
              Payload(cs, j) == cs[0].size + SPACE_BETWEEN_CHUNKS + Payload(cs[1..], j - 1)
  {
    forall j {:trigger Payload(cs, j)} | 0 < j <= |cs|
      ensures Payload(cs, j) == cs[0].size + SPACE_BETWEEN_CHUNKS + Payload(cs[1..], j - 1)
    {
      OffsetOfTail(cs, j);
    }
  }

  lemma {:induction false} OffsetOfTail(cs: seq<Chunk>, j: nat)
    requires 0 < j <= |cs|
    ensures Offset(cs, j) == cs[0].size + SPACE_BETWEEN_CHUNKS + Offset(cs[1..], j - 1)
  {
    if j > 1 {
      OffsetOfTail(cs, j - 1);
    }
  }

  /** Index of the chunk whose payload starts at `p`, or `|cs|`. */
  function IndexOf(cs: seq<Chunk>, lo: nat, p: nat): (i: nat)
    ensures i <= |cs|
    ensures i < |cs| ==> p == lo + Payload(cs, i)
    ensures forall j :: 0 <= j < i ==> p != lo + Payload(cs, j)
  {
    if cs == [] || p == lo + PAYLOAD then 0
    else
      PayloadsOfTail(cs);
      1 + IndexOf(cs[1..], lo + cs[0].size + SPACE_BETWEEN_CHUNKS, p)
  }

  /** What callers may pass: a released pointer is null or the start of a current chunk. */
  predicate Allowed(cs: seq<Chunk>, op: Op) {
    op.Free? && op.p.Some? ==> IndexOf(cs, 0, op.p.value) < |cs|
  }

  function Step(cs: seq<Chunk>, op: Op): seq<Chunk>
    requires Allowed(cs, op)
  {
    match op
    case Malloc(n) =>
      var i := FirstFit(cs, n);
      if i < |cs| then Allocated(cs, i, n) else cs
    case Free(None) => cs
    case Free(Some(p)) =>
      var i := IndexOf(cs, 0, p);
      if cs[i].free then cs else Released(cs, i)
  }

  predicate AllowedRun(cs: seq<Chunk>, ops: seq<Op>)
    decreases |ops|
  {
    ops != [] ==> Allowed(cs, ops[0]) && AllowedRun(Step(cs, ops[0]), ops[1..])
  }

  function Run(cs: seq<Chunk>, ops: seq<Op>): seq<Chunk>
    requires AllowedRun(cs, ops)
    decreases |ops|
  {
    if ops == [] then cs else Run(Step(cs, ops[0]), ops[1..])
  }

  /** The heap right after set-up: one free chunk over a buffer of `total` bytes. */
  function Initial(total: nat): seq<Chunk>
    requires total >= SPACE_BETWEEN_CHUNKS
  {
    [Chunk(true, total - SPACE_BETWEEN_CHUNKS)]
  }

  function Frees(ps: seq<nat>): seq<Op> {
    seq(|ps|, i requires 0 <= i < |ps| => Free(Some(ps[i])))
  }

  /** `ps` lists every live payload address exactly once, in whatever order. */
  ghost predicate ListsLive(cs: seq<Chunk>, ps: seq<nat>) {
    && (forall p: nat :: p in ps <==> LiveSize(cs, 0, p).Some?)
    && (forall i, j :: 0 <= i < j < |ps| ==> ps[i] != ps[j])
  }

  /** `size * 8 / 9` in unsigned 64-bit arithmetic: the demo's last request. */
  function MaxSize(size: nat): nat {
    (size * 8 % U64) / 9
  }

  lemma {:induction false} StepKeeps(cs: seq<Chunk>, op: Op)
    requires Calm(cs) && Allowed(cs, op)
    ensures Calm(Step(cs, op)) && Span(Step(cs, op)) == Span(cs)
  {
    match op
    case Malloc(n) =>
      var i := FirstFit(cs, n);
      if i < |cs| { AllocatedMeaning(cs, i, n); }
    case Free(None) =>
    case Free(Some(p)) =>
      var i := IndexOf(cs, 0, p);
      if !cs[i].free { ReleasedMeaning(cs, i); }
  }

  /** No reachable heap has two adjacent free chunks, and the chunks always tile the buffer. */
  lemma {:induction false} RunKeeps(cs: seq<Chunk>, ops: seq<Op>)
    requires Calm(cs) && AllowedRun(cs, ops)
    ensures Calm(Run(cs, ops)) && Span(Run(cs, ops)) == Span(cs)
    decreases |ops|
  {
    if ops != [] {
      StepKeeps(cs, ops[0]);
      RunKeeps(Step(cs, ops[0]), ops[1..]);
    }
  }

  /** A live pointer is always accepted by a release, and the release takes away that
      pointer and no other. */
  lemma {:induction false} FreeLive(cs: seq<Chunk>, p: nat)
    requires Calm(cs) && LiveSize(cs, 0, p).Some?
    ensures Allowed(cs, Free(Some(p)))
    ensures forall q: nat :: LiveSize(Step(cs, Free(Some(p))), 0, q) == if q == p then None else LiveSize(cs, 0, q)
  {
    LiveIsChunk(cs, 0, p);
    var i := IndexOf(cs, 0, p);
    LiveAt(cs, i);
    ReleasedMeaning(cs, i);
  }

  lemma {:induction false} LiveIsChunk(cs: seq<Chunk>, lo: nat, p: nat)
    requires LiveSize(cs, lo, p).Some?
    ensures IndexOf(cs, lo, p) < |cs|
  {
    if p != lo + PAYLOAD {
      LiveIsChunk(cs[1..], lo + cs[0].size + SPACE_BETWEEN_CHUNKS, p);
    }
  }

  /** Releasing all live payloads of a calm heap, in any order, leaves one free chunk. */
  lemma {:induction false} FreeAll(cs: seq<Chunk>, ps: seq<nat>)
    requires Calm(cs) && Span(cs) >= SPACE_BETWEEN_CHUNKS && ListsLive(cs, ps)
    ensures AllowedRun(cs, Frees(ps))
    ensures Run(cs, Frees(ps)) == Initial(Span(cs))
    decreases |ps|
  {
    if ps == [] {
      NothingLiveMeansOneChunk(cs);
    } else {
      assert ps[0] in ps;
      FreeLive(cs, ps[0]);
      var next := Step(cs, Free(Some(ps[0])));
      StepKeeps(cs, Free(Some(ps[0])));
      assert forall p :: p in ps[1..] <==> p in ps && p != ps[0];
      FreeAll(next, ps[1..]);
      assert Frees(ps)[1..] == Frees(ps[1..]);
    }
  }

  /** After any allowed run on a fresh buffer, releasing every live payload in any order
      restores the fresh heap exactly. */
  lemma {:induction false} AnyRunThenFreeAll(total: nat, ops: seq<Op>, ps: seq<nat>)
    requires total >= SPACE_BETWEEN_CHUNKS && AllowedRun(Initial(total), ops)
    requires ListsLive(Run(Initial(total), ops), ps)
    ensures AllowedRun(Run(Initial(total), ops), Frees(ps))
    ensures Run(Run(Initial(total), ops), Frees(ps)) == Initial(total)
  {
    Single(Initial(total)[0], 0, 0);
    RunKeeps(Initial(total), ops);
    FreeAll(Run(Initial(total), ops), ps);
  }

  /** On a defragmented buffer the request for 8/9 of it succeeds exactly when the buffer
      has at least 145 bytes, also where `size * 8` wraps around. */
  lemma {:induction false} FinalRequest(total: nat)
    requires SPACE_BETWEEN_CHUNKS <= total < U64 / 2
    ensures FirstFit(Initial(total), MaxSize(total)) < |Initial(total)| <==> total >= 145
    ensures MaxSize(total) == total * 8 / 9 <==> total * 8 < U64
  {
    if total * 8 < U64 {
      assert total * 8 % U64 == total * 8;
    } else {
      assert MaxSize(total) < U64 / 9 + 1;
    }
  }
}
