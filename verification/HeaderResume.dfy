/** Parsing a header block whose bytes arrive in pieces: what more input can and cannot
    change, and when a resumed call agrees with a fresh one. */
module HeaderResume {
  import opened Common
  import opened HeaderGrammar

  // ---- more input never changes a decision -------------------------------------------------

  lemma {:induction false} NameMore(s: seq<byte>, t: seq<byte>, p: nat)
    requires s <= t && !NameEnd(s, p).Partial?
    ensures NameEnd(t, p) == NameEnd(s, p)
    decreases |s| - p
  {
    if s[p] != COLON && IsToken(s[p]) {
      NameMore(s, t, p + 1);
    }
  }

  lemma {:induction false} BlanksMore(s: seq<byte>, t: seq<byte>, p: nat)
    requires s <= t && !SkipBlanks(s, p).Partial?
    ensures SkipBlanks(t, p) == SkipBlanks(s, p)
    decreases |s| - p
  {
    if IsBlank(s[p]) {
      BlanksMore(s, t, p + 1);
    }
  }

  lemma {:induction false} ValueMore(s: seq<byte>, t: seq<byte>, p: nat)
    requires s <= t && !ValueEnd(s, p).Partial?
    ensures ValueEnd(t, p) == ValueEnd(s, p)
    decreases |s| - p
  {
    if !IsControl(s[p]) {
      ValueMore(s, t, p + 1);
    }
  }

  lemma {:induction false} TrimMore(s: seq<byte>, t: seq<byte>, lo: nat, hi: nat)
    requires s <= t && lo <= hi <= |s|
    ensures TrimEnd(t, lo, hi) == TrimEnd(s, lo, hi)
  {
    if hi > lo && IsBlank(s[hi - 1]) {
      TrimMore(s, t, lo, hi - 1);
    }
  }

  lemma {:induction false} ValueAtMore(s: seq<byte>, t: seq<byte>, p: nat)
    requires s <= t && !ValueAt(s, p).Partial?
    ensures ValueAt(t, p) == ValueAt(s, p)
  {
    ValueMore(s, t, p);
    ValueBounds(s, p);
    if ValueEnd(s, p).Found? {
      TrimMore(s, t, p, ValueEnd(s, p).value);
    }
  }

  lemma {:induction false} HeaderMore(s: seq<byte>, t: seq<byte>, p: nat, first: bool)
    requires s <= t && p < |s| && !HeaderAt(s, p, first).Partial?
    ensures HeaderAt(t, p, first) == HeaderAt(s, p, first)
  {
    if !first && IsBlank(s[p]) {
      ValueAtMore(s, t, p);
    } else {
      NameMore(s, t, p);
      if NameEnd(s, p).Found? && NameEnd(s, p).value != p {
        var c := NameEnd(s, p).value;
        BlanksMore(s, t, c + 1);
        BlankBounds(s, c + 1);
        ValueAtMore(s, t, SkipBlanks(s, c + 1).value);
      }
    }
  }

  /** A success or a failure never changes when bytes are appended. */
  lemma {:induction false} HeadersMore(s: seq<byte>, t: seq<byte>, p: nat, n: nat, max: nat)
    requires s <= t && !Headers(s, p, n, max).Partial?
    ensures Headers(t, p, n, max) == Headers(s, p, n, max)
    decreases |s| - p
  {
    if s[p] != CR && s[p] != LF && n != max {
      HeaderMore(s, t, p, n == 0);
      HeaderBounds(s, p, n == 0);
      if HeaderAt(s, p, n == 0).Found? {
        HeadersMore(s, t, HeaderAt(s, p, n == 0).next, n + 1, max);
      }
    }
  }

  lemma {:induction false} HeadersEnd(s: seq<byte>, p: nat, n: nat, max: nat)
    ensures Headers(s, p, n, max).Found? ==> p < Headers(s, p, n, max).next <= |s|
    decreases |s| - p
  {
    if p < |s| && s[p] != CR && s[p] != LF && n != max && HeaderAt(s, p, n == 0).Found? {
      HeaderBounds(s, p, n == 0);
      HeadersEnd(s, HeaderAt(s, p, n == 0).next, n + 1, max);
    }
  }

  /** Every strict prefix of a complete block is incomplete. */
  lemma {:induction false} StrictPrefixIsPartial(s: seq<byte>, max: nat, k: nat)
    requires Headers(s, 0, 0, max).Found? && k < Headers(s, 0, 0, max).next
    ensures k <= |s| && Headers(s[..k], 0, 0, max) == Partial
  {
    HeadersEnd(s, 0, 0, max);
    if Headers(s[..k], 0, 0, max) != Partial {
      HeadersMore(s[..k], s, 0, 0, max);
      HeadersEnd(s[..k], 0, 0, max);
      assert false;
    }
  }

  // ---- lines and blank lines -----------------------------------------------------------------

  /** No line end begins from `p` up to `end`. */
  ghost predicate OneLine(s: seq<byte>, p: nat, end: nat) {
    end <= |s| && forall k :: p <= k < end ==> s[k] != CR && s[k] != LF
  }

  /** Where the line of the header at `p` ends. */
  ghost function HeaderEol(s: seq<byte>, p: nat, first: bool): nat
    requires p < |s| && HeaderAt(s, p, first).Found?
  {
    if !first && IsBlank(s[p]) then ValueEnd(s, p).value
    else ValueEnd(s, SkipBlanks(s, NameEnd(s, p).value + 1).value).value
  }

  lemma {:induction false} HeaderIsOneLine(s: seq<byte>, p: nat, first: bool)
    requires p < |s| && HeaderAt(s, p, first).Found?
    ensures
      var end := HeaderEol(s, p, first);
      && p < end < |s| && OneLine(s, p, end) && LineEnd(s, end) == Found(end, HeaderAt(s, p, first).next)
  {
    if !first && IsBlank(s[p]) {
      ValueBounds(s, p);
    } else {
      NameBounds(s, p);
      var c := NameEnd(s, p).value;
      BlankBounds(s, c + 1);
      ValueBounds(s, SkipBlanks(s, c + 1).value);
    }
  }

  /** The input ends within one line: at most its last byte begins a line end. */
  ghost predicate OpenLine(s: seq<byte>, p: nat) {
    OneLine(s, p, |s|) || (p < |s| && OneLine(s, p, |s| - 1) && s[|s| - 1] == CR)
  }

  lemma {:induction false} ValueIsOpen(s: seq<byte>, p: nat)
    requires p <= |s| && ValueEnd(s, p) == Partial
    ensures OpenLine(s, p)
    decreases |s| - p
  {
    if p < |s| && !IsControl(s[p]) {
      ValueIsOpen(s, p + 1);
    }
  }

  lemma {:induction false} NameIsOpen(s: seq<byte>, p: nat)
    requires p <= |s| && NameEnd(s, p) == Partial
    ensures OneLine(s, p, |s|)
    decreases |s| - p
  {
    if p < |s| {
      NameIsOpen(s, p + 1);
    }
  }

  lemma {:induction false} BlanksAreOpen(s: seq<byte>, p: nat)
    requires p <= |s| && SkipBlanks(s, p) == Partial
    ensures OneLine(s, p, |s|)
    decreases |s| - p
  {
    if p < |s| {
      BlanksAreOpen(s, p + 1);
    }
  }

  lemma {:induction false} PartialHeaderIsOpen(s: seq<byte>, p: nat, first: bool)
    requires p < |s| && HeaderAt(s, p, first) == Partial
    ensures OpenLine(s, p)
  {
    if !first && IsBlank(s[p]) {
      ValueIsOpen(s, p);
    } else if NameEnd(s, p) == Partial {
      NameIsOpen(s, p);
    } else {
      NameBounds(s, p);
      var c := NameEnd(s, p).value;
      BlankBounds(s, c + 1);
      if SkipBlanks(s, c + 1) == Partial {
        BlanksAreOpen(s, c + 1);
      } else {
        ValueIsOpen(s, SkipBlanks(s, c + 1).value);
      }
    }
  }

  /** Within a line, the search for a blank line goes on to the end of the line, whatever
      came before. */
  lemma {:induction false} SearchLine(s: seq<byte>, p: nat, end: nat, count: nat)
    requires p < end && OneLine(s, p, end)
    ensures BlankLine(s, p, count) == BlankLine(s, end, 0)
    decreases end - p
  {
    if p + 1 < end {
      SearchLine(s, p + 1, end, 0);
    }
  }

  /** From anywhere in a line, also between CR and LF, the search reaches the next line. */
  lemma {:induction false} SearchToNext(s: seq<byte>, p: nat, end: nat, next: nat, q: nat)
    requires p <= q < next && end < |s| && OneLine(s, p, end) && LineEnd(s, end) == Found(end, next)
    ensures BlankLine(s, q, 0) == BlankLine(s, next, 1)
  {
    if q < end {
      SearchLine(s, q, end, 0);
    }
  }

  lemma {:induction false} SearchOpenLine(s: seq<byte>, p: nat, count: nat)
    requires p <= |s| && OpenLine(s, p)
    ensures BlankLine(s, p, count) == Partial
    decreases |s| - p
  {
    if p < |s| && s[p] != CR {
      SearchOpenLine(s, p + 1, 0);
    }
  }

  /** At the start of a line, with a line end just seen, the search for a blank line finds
      the end of the block exactly as the parse does. */
  lemma {:induction false} SearchFromLine(s: seq<byte>, p: nat, n: nat, max: nat)
    requires p <= |s| && !Headers(s, p, n, max).Bad?
    ensures
      match Headers(s, p, n, max)
      case Found(_, end) => BlankLine(s, p, 1) == Found((), end)
      case Partial => BlankLine(s, p, 1) == Partial
      case Bad => false
    decreases |s| - p
  {
    if p < |s| && s[p] != CR && s[p] != LF {
      if HeaderAt(s, p, n == 0).Found? {
        var end, next := HeaderEol(s, p, n == 0), HeaderAt(s, p, n == 0).next;
        HeaderIsOneLine(s, p, n == 0);
        HeaderBounds(s, p, n == 0);
        SearchLine(s, p, end, 1);
        SearchFromLine(s, next, n + 1, max);
      } else {
        PartialHeaderIsOpen(s, p, n == 0);
        SearchOpenLine(s, p, 1);
      }
    }
  }

  /** Started anywhere in the block before its last two bytes, or at the start of its first
      header, the search neither misses nor mistakes the end of the block. */
  lemma {:induction false} SearchFromInside(s: seq<byte>, p: nat, n: nat, max: nat, q: nat)
    requires p <= q && Headers(s, p, n, max).Found?
    requires q + 2 < Headers(s, p, n, max).next || (q == p && Headers(s, p, n, max).value != [])
    ensures BlankLine(s, q, 0) == Found((), Headers(s, p, n, max).next)
    decreases |s| - p
  {
    if s[p] != CR && s[p] != LF {
      var end, next := HeaderEol(s, p, n == 0), HeaderAt(s, p, n == 0).next;
      HeaderIsOneLine(s, p, n == 0);
      HeaderBounds(s, p, n == 0);
      if q < next {
        SearchToNext(s, p, end, next, q);
        SearchFromLine(s, next, n + 1, max);
      } else {
        SearchFromInside(s, next, n + 1, max, q);
      }
    }
  }

  /** In an incomplete block, the search finds nothing wherever it starts. */
  lemma {:induction false} SearchInPartial(s: seq<byte>, p: nat, n: nat, max: nat, q: nat)
    requires p <= q <= |s| && Headers(s, p, n, max) == Partial
    ensures BlankLine(s, q, 0) == Partial
    decreases |s| - p
  {
    if p < |s| && s[p] != CR && s[p] != LF {
      if HeaderAt(s, p, n == 0).Found? {
        var end, next := HeaderEol(s, p, n == 0), HeaderAt(s, p, n == 0).next;
        HeaderIsOneLine(s, p, n == 0);
        HeaderBounds(s, p, n == 0);
        if q < next {
          SearchToNext(s, p, end, next, q);
          SearchFromLine(s, next, n + 1, max);
        } else {
          SearchInPartial(s, next, n + 1, max, q);
        }
      } else {
        PartialHeaderIsOpen(s, p, n == 0);
        SearchOpenLine(s, q, 0);
      }
    }
  }

  // ---- resumed and fresh calls -----------------------------------------------------------------

  /** A block that starts with its empty line: it has no headers. */
  predicate StartsEmpty(s: seq<byte>) {
    s != [] && (s[0] == CR || s[0] == LF)
  }

  /** Where a resumed call starts to look for the end of the block. */
  function SearchStart(lastLen: nat): nat {
    if lastLen < 3 then 0 else lastLen - 3
  }

  /** When the first `lastLen` bytes do not hold a complete block, a call resumed after them
      and a fresh call on a block that does not start with its empty line succeed on the same
      inputs, with the same headers and length. An incomplete block stays incomplete. On a
      malformed one the resumed call says incomplete while its search for a blank line does not
      come to an end, and malformed otherwise. */
  lemma {:induction false} ResumedAgrees(s: seq<byte>, max: nat, lastLen: nat)
    requires 0 < lastLen <= |s| && !Headers(s[..lastLen], 0, 0, max).Found?
    requires !StartsEmpty(s)
    ensures Block(s, max, lastLen).Found? <==> Block(s, max, 0).Found?
    ensures !Block(s, max, 0).Bad? ==> Block(s, max, lastLen) == Block(s, max, 0)
    ensures Block(s, max, 0).Bad? ==>
              Block(s, max, lastLen) == if BlankLine(s, SearchStart(lastLen), 0).Partial? then Partial else Bad
  {
    var q := SearchStart(lastLen);
    match Headers(s, 0, 0, max)
    case Partial => SearchInPartial(s, 0, 0, max, q);
    case Bad =>
    case Found(fs, end) =>
      HeadersEnd(s, 0, 0, max);
      if end <= lastLen {
        PrefixIsFound(s, max, end, lastLen);
        assert false;
      }
      SearchFromInside(s, 0, 0, max, q);
  }

  /** A complete block is found in every prefix that holds it. */
  lemma {:induction false} PrefixIsFound(s: seq<byte>, max: nat, end: nat, k: nat)
    requires Headers(s, 0, 0, max).Found? && Headers(s, 0, 0, max).next == end <= k <= |s|
    ensures Headers(s[..k], 0, 0, max) == Headers(s, 0, 0, max)
  {
    if Headers(s[..k], 0, 0, max) == Partial {
      SearchInPartial(s[..k], 0, 0, max, 0);
      SearchFromLine(s[..k], 0, 0, max);
      SearchFromLine(s, 0, 0, max);
      BlankLineLocal(s, s[..k], 0, 1);
      assert false;
    }
    HeadersMore(s[..k], s, 0, 0, max);
  }

  /** The search only looks at the bytes up to the end it finds. */
  lemma {:induction false} BlankLineLocal(s: seq<byte>, t: seq<byte>, p: nat, count: nat)
    requires t <= s && BlankLine(s, p, count).Found? && BlankLine(s, p, count).next <= |t|
    ensures BlankLine(t, p, count) == BlankLine(s, p, count)
    decreases |s| - p
  {
    BlankLineEnd(s, p, count);
    if s[p] == CR || s[p] == LF {
      if count + 1 != 2 {
        BlankLineLocal(s, t, LineEnd(s, p).next, count + 1);
      }
    } else {
      BlankLineLocal(s, t, p + 1, 0);
    }
  }

  lemma {:induction false} BlankLineEnd(s: seq<byte>, p: nat, count: nat)
    ensures BlankLine(s, p, count).Found? ==> p < BlankLine(s, p, count).next <= |s|
    ensures BlankLine(s, p, count).Found? && (s[p] == CR || s[p] == LF) ==>
              LineEnd(s, p).next <= BlankLine(s, p, count).next
    decreases |s| - p
  {
    if p < |s| {
      if s[p] == CR || s[p] == LF {
        if LineEnd(s, p).Found? && count + 1 != 2 {
          BlankLineEnd(s, LineEnd(s, p).next, count + 1);
        }
      } else {
        BlankLineEnd(s, p + 1, 0);
      }
    }
  }

  /** On a block that starts with its empty line the two calls agree exactly when that line
      does not end right after the bytes seen before, or another blank line is found: a fresh
      call accepts such a block, while a resumed one waits for two line ends in a row. */
  lemma {:induction false} ResumedOnEmptyBlock(s: seq<byte>, max: nat, lastLen: nat)
    requires 0 < lastLen <= |s| && Headers(s[..lastLen], 0, 0, max) == Partial
    requires StartsEmpty(s)
    ensures lastLen == 1 && s[0] == CR
    ensures Block(s, max, 1) == Block(s, max, 0) <==>
            !(|s| > 1 && s[1] == LF && !BlankLine(s, 2, 1).Found?)
  {
    assert s[..lastLen][0] == s[0];
  }

  /** The smallest such input: CR, then LF. */
  lemma {:induction false} ResumedCanDiffer()
    ensures Headers([CR], 0, 0, 0) == Partial
    ensures Block([CR, LF], 0, 0) == Found([], 2)
    ensures Block([CR, LF], 0, 1) == Partial
  {
    assert BlankLine([CR, LF], 2, 1) == Partial;
  }

  /** The calls of a reader that passes ever longer prefixes, each time with the length it
      passed before, and has been told "incomplete" every time. */
  ghost predicate AllPartial(s: seq<byte>, max: nat, lens: seq<nat>) {
    && (forall i :: 0 <= i < |lens| ==> 0 < lens[i] <= |s|)
    && (forall i :: 0 <= i < |lens| - 1 ==> lens[i] <= lens[i + 1])
    && (forall i :: 0 <= i < |lens| ==>
          Block(s[..lens[i]], max, if i == 0 then 0 else lens[i - 1]) == Partial)
  }

  lemma {:induction false} NeverFoundBefore(s: seq<byte>, max: nat, lens: seq<nat>, i: nat)
    requires AllPartial(s, max, lens) && i < |lens| && !StartsEmpty(s)
    ensures !Headers(s[..lens[i]], 0, 0, max).Found?
  {
    var t := s[..lens[i]];
    assert Block(t, max, 0) == Headers(t, 0, 0, max);
    if i == 0 {
      assert Block(t, max, 0) == Partial;
    } else {
      NeverFoundBefore(s, max, lens, i - 1);
      assert t[..lens[i - 1]] == s[..lens[i - 1]];
      assert t[0] == s[0];
      assert Block(t, max, lens[i - 1]) == Partial;
      ResumedAgrees(t, max, lens[i - 1]);
    }
  }

  /** However a block with at least one header arrives, the last call succeeds exactly when one
      call on the whole input does, with the same result, and says incomplete when that one does;
      if that one says malformed, the last call does so once its search for a blank line comes to
      an end. */
  lemma {:induction false} AnyArrivalAgrees(s: seq<byte>, max: nat, lens: seq<nat>)
    requires AllPartial(s, max, lens) && lens != [] && !StartsEmpty(s)
    ensures Block(s, max, lens[|lens| - 1]).Found? <==> Block(s, max, 0).Found?
    ensures !Block(s, max, 0).Bad? ==> Block(s, max, lens[|lens| - 1]) == Block(s, max, 0)
    ensures Block(s, max, 0).Bad? ==>
              Block(s, max, lens[|lens| - 1])
              == if BlankLine(s, SearchStart(lens[|lens| - 1]), 0).Partial? then Partial else Bad
  {
    NeverFoundBefore(s, max, lens, |lens| - 1);
    ResumedAgrees(s, max, lens[|lens| - 1]);
  }

  /** A block that starts with a CR and then something else than a LF is refused as soon as two
      of its bytes have arrived. */
  lemma {:induction false} OneByteOnly(s: seq<byte>, max: nat, lens: seq<nat>, i: nat)
    requires AllPartial(s, max, lens) && i < |lens| && StartsEmpty(s)
    ensures s[0] == CR
    ensures lens[i] > 1 ==> s[1] == LF
  {
    var t := s[..lens[i]];
    assert t[0] == s[0] && (lens[i] > 1 ==> t[1] == s[1]);
    if i == 0 {
      assert Block(t, max, 0) == Headers(t, 0, 0, max) == Partial;
    } else {
      OneByteOnly(s, max, lens, i - 1);
      assert Block(t, max, lens[i - 1]) == Partial;
    }
  }

  /** However a block that starts with its empty line arrives, the last call says what one call on
      the whole input says if and only if that empty line is incomplete or malformed or the
      search from where the last call starts finds a blank line. */
  lemma {:induction false} AnyArrivalOfEmptyBlock(s: seq<byte>, max: nat, lens: seq<nat>)
    requires AllPartial(s, max, lens) && lens != [] && StartsEmpty(s)
    ensures s[0] == CR
    ensures
      var last := lens[|lens| - 1];
      Block(s, max, last) == Block(s, max, 0)
      <==> |s| == 1 || s[1] != LF || BlankLine(s, SearchStart(last), 0).Found?
  {
    OneByteOnly(s, max, lens, |lens| - 1);
  }
}
