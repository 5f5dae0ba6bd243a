/** Exactly which inputs the chunked decoder accepts, which it refuses, and for which it asks for
    more, in terms of the encodings of `ChunkedCoding`. */
module ChunkedLanguage {
  import opened Common
  import opened ChunkedMachine
  import opened ChunkedCoding

  /** Some message's encoding is a prefix of `s`. */
  ghost predicate StartsWithMessage(s: seq<byte>, consumeTrailer: bool) {
    exists m {:trigger Encoded(m, consumeTrailer)} :: ValidMessage(m) && Encoded(m, consumeTrailer) <= s
  }

  // ---- what an input begins with -----------------------------------------------------------------

  /** The first place of a byte that is not `c`. */
  function Past(s: seq<byte>, c: byte): (n: nat)
    ensures n <= |s| && (forall k :: 0 <= k < n ==> s[k] == c) && (n < |s| ==> s[n] != c)
  {
    if s == [] || s[0] != c then 0 else 1 + Past(s[1..], c)
  }

  /** The first place of `c`. */
  function Find(s: seq<byte>, c: byte): (n: nat)
    ensures n <= |s| && c !in s[..n] && (n < |s| ==> s[n] == c)
  {
    if s == [] || s[0] == c then 0
    else
      assert s[..1 + Find(s[1..], c)] == [s[0]] + s[1..][..Find(s[1..], c)];
      1 + Find(s[1..], c)
  }

  /** How many digits `s` begins with. */
  function Digits(s: seq<byte>): (n: nat)
    ensures n <= |s| && AllDigits(s[..n]) && (n < |s| ==> DecodeHex(s[n]) == -1)
  {
    if s == [] || DecodeHex(s[0]) == -1 then 0
    else
      assert s[..1 + Digits(s[1..])] == [s[0]] + s[1..][..Digits(s[1..])];
      1 + Digits(s[1..])
  }

  lemma {:induction false} CrsAre(s: seq<byte>, n: nat)
    requires n <= |s| && forall k :: 0 <= k < n ==> s[k] == CR
    ensures s[..n] == Crs(n)
  {
    if n > 0 {
      CrsAre(s[1..], n - 1);
      assert s[..n] == [s[0]] + s[1..][..n - 1];
    }
  }

  // ---- an input that does not begin with a message is never complete ---------------------------

  /** Some bytes have been read; the rest decides. */
  lemma {:induction false} RestDecides(d: Decoder, a: seq<byte>, out: seq<byte>, e: Decoder, b: seq<byte>)
    requires Reads(d, a, out, e)
    ensures Run(d, a + b).verdict == Run(e, b).verdict
  {
  }

  /** What a size line needs: digits, not too many of them, and a line feed. */
  lemma {:induction false} NeedsSizeLine(d: Decoder, s: seq<byte>)
    requires d == Start(d.consumeTrailer) && Run(d, s).verdict == Complete
    ensures
      var k := Digits(s);
      && 1 <= k <= MAX_DIGITS
      && var e := Find(s[k..], LF);
         k + e < |s| && ValidExt(s[k..][..e]) && s == s[..k] + (s[k..][..e] + [LF]) + s[k + e + 1..]
  {
    var k := Digits(s);
    if k > MAX_DIGITS {
      TooManyDigits(d, s);
    } else if k > 0 {
      NeedsLineFeed(d, s, k);
    }
  }

  lemma {:induction false} TooManyDigits(d: Decoder, s: seq<byte>)
    requires d == Start(d.consumeTrailer) && Digits(s) > MAX_DIGITS
    ensures Run(d, s).verdict == Failed
  {
    var digits := s[..MAX_DIGITS];
    assert s[MAX_DIGITS] in s[..Digits(s)];
    assert AllDigits(digits) by {
      assert forall x :: x in digits ==> x in s[..Digits(s)];
    }
    ReadsDigits(d, digits);
    assert s == digits + s[MAX_DIGITS..];
    RestDecides(d, digits, [], AfterDigits(d, digits), s[MAX_DIGITS..]);
  }

  lemma {:induction false} NeedsLineFeed(d: Decoder, s: seq<byte>, k: nat)
    requires d == Start(d.consumeTrailer) && k == Digits(s) && 1 <= k <= MAX_DIGITS && Run(d, s).verdict == Complete
    ensures
      var e := Find(s[k..], LF);
      k + e < |s| && ValidExt(s[k..][..e]) && s == s[..k] + (s[k..][..e] + [LF]) + s[k + e + 1..]
  {
    var e := Find(s[k..], LF);
    var ext := s[k..][..e];
    assert ext != [] ==> ext[0] == s[k];
    ExtMeans(ext);
    ReadsSizeLine(d, s[..k], ext);
    if k + e == |s| {
      assert s == s[..k] + ext + [];
      RestDecides(d, s[..k] + ext, [], SizeRead(d, s[..k], ext), []);
      assert false;
    }
    assert s == s[..k] + (ext + [LF]) + s[k + e + 1..];
  }

  /** What a chunk's data needs: as many bytes as the size says, and a line end. */
  lemma {:induction false} NeedsData(d: Decoder, s: seq<byte>)
    requires d.state == ChunkData && d.bytesLeft > 0 && Run(d, s).verdict == Complete
    ensures
      && d.bytesLeft < |s|
      && var n := Past(s[d.bytesLeft..], CR);
         d.bytesLeft + n < |s| && s == s[..d.bytesLeft] + Eol(n) + s[d.bytesLeft + n + 1..]
  {
    var size := d.bytesLeft;
    if |s| < size {
      RunPartOfData(d, s);
      assert false;
    }
    var e := d.(bytesLeft := 0, state := ChunkCrlf);
    var r := s[size..];
    ReadsData(d, s[..size]);
    assert s == s[..size] + r;
    RestDecides(d, s[..size], s[..size], e, r);
    NeedsEol(e, r);
    assert s == s[..size] + Eol(Past(r, CR)) + s[size + Past(r, CR) + 1..];
  }

  lemma {:induction false} NeedsEol(e: Decoder, r: seq<byte>)
    requires e.state == ChunkCrlf && Run(e, r).verdict == Complete
    ensures
      var n := Past(r, CR);
      n < |r| && r == Eol(n) + r[n + 1..]
  {
    var n := Past(r, CR);
    CrsAre(r, n);
    ReadsSkipped(e, Crs(n));
    assert r == Crs(n) + r[n..];
    RestDecides(e, Crs(n), [], e, r[n..]);
    assert r[n..] != [] && r[n..][0] == LF;
    assert r == Crs(n) + [LF] + r[n + 1..];
  }

  /** Behind the carriage returns at the front of a trailer line something must follow. */
  lemma {:induction false} NeedsMore(t: Decoder, s: seq<byte>)
    requires t.state == TrailersLineHead && Run(t, s).verdict == Complete
    ensures
      var n := Past(s, CR);
      n < |s| && s[..n] == Crs(n)
  {
    var n := Past(s, CR);
    CrsAre(s, n);
    ReadsSkipped(t, Crs(n));
    assert s == Crs(n) + s[n..];
    RestDecides(t, Crs(n), [], t, s[n..]);
  }

  /** A trailer line needs a line feed, and more behind it. */
  lemma {:induction false} NeedsTrailerLine(t: Decoder, s: seq<byte>)
    requires t.state == TrailersLineHead && Run(t, s).verdict == Complete
    requires Past(s, CR) < |s| && s[Past(s, CR)] != LF
    ensures
      var e := Find(s, LF);
      && e < |s| && ValidLine(s[..e]) && s == s[..e] + [LF] + s[e + 1..]
      && Run(t, s[e + 1..]).verdict == Complete
  {
    var n, e := Past(s, CR), Find(s, LF);
    if e == |s| {
      assert s[..e] == s;
      NeverEnds(t, s, n);
      assert false;
    }
    var line := s[..e];
    assert e > n;
    assert s[n] in line;
    ReadsLine(t, line);
    assert s == line + [LF] + s[e + 1..];
    RestDecides(t, line + [LF], [], t, s[e + 1..]);
  }

  lemma {:induction false} LineInFront(line: seq<byte>, more: seq<seq<byte>>, n: nat, rest: seq<byte>)
    requires EncodeLines(more) + Eol(n) <= rest
    ensures EncodeLines([line] + more) + Eol(n) <= line + [LF] + rest
  {
    assert ([line] + more)[1..] == more;
    assert EncodeLines([line] + more) + Eol(n) == line + [LF] + (EncodeLines(more) + Eol(n));
  }

  /** What a trailer needs: lines, and one of nothing but carriage returns that ends them. */
  lemma {:induction false} NeedsTrailer(t: Decoder, s: seq<byte>) returns (lines: seq<seq<byte>>, n: nat)
    requires t.state == TrailersLineHead && Run(t, s).verdict == Complete
    ensures forall line :: line in lines ==> ValidLine(line)
    ensures EncodeLines(lines) + Eol(n) <= s
    decreases |s|
  {
    NeedsMore(t, s);
    n := Past(s, CR);
    if s[n] == LF {
      lines := [];
      assert s == EncodeLines([]) + Eol(n) + s[n + 1..];
    } else {
      NeedsTrailerLine(t, s);
      var e := Find(s, LF);
      var more;
      more, n := NeedsTrailer(t, s[e + 1..]);
      lines := [s[..e]] + more;
      LineInFront(s[..e], more, n, s[e + 1..]);
    }
  }

  /** A trailer line without its line feed. */
  lemma {:induction false} NeverEnds(t: Decoder, s: seq<byte>, n: nat)
    requires t.state == TrailersLineHead && LF !in s && n == Past(s, CR) < |s|
    ensures Run(t, s).verdict == Incomplete
  {
    var e := t.(state := TrailersLineMiddle);
    CrsAre(s, n);
    ReadsSkipped(t, Crs(n));
    ReadsByte(t, s[n]);
    assert forall c :: c in s[n + 1..] ==> c in s;
    ReadsSkipped(e, s[n + 1..]);
    ReadsBoth(t, Crs(n), [], t, [s[n]], [], e);
    ReadsBoth(t, Crs(n) + [s[n]], [], e, s[n + 1..], [], e);
    assert s == Crs(n) + [s[n]] + s[n + 1..] + [];
    RestDecides(t, Crs(n) + [s[n]] + s[n + 1..], [], e, []);
  }

  lemma {:induction false} ChunkInFront(c: Chunk, m: Message, consumeTrailer: bool)
    requires ValidChunk(c) && ValidMessage(m)
    ensures
      var all := m.(chunks := [c] + m.chunks);
      ValidMessage(all) && Encoded(all, consumeTrailer) == EncodeChunk(c) + Encoded(m, consumeTrailer)
  {
    var all := m.(chunks := [c] + m.chunks);
    assert all.chunks[1..] == m.chunks;
    assert EncodeHead(all) == EncodeChunk(c) + EncodeHead(m);
  }

  /** A complete input begins with the encoding of a message. */
  lemma {:induction false} CompleteIsMessage(s: seq<byte>, consumeTrailer: bool) returns (m: Message)
    requires Run(Start(consumeTrailer), s).verdict == Complete
    ensures ValidMessage(m) && Encoded(m, consumeTrailer) <= s
    decreases |s|
  {
    var d := Start(consumeTrailer);
    NeedsSizeLine(d, s);
    var k := Digits(s);
    var e := Find(s[k..], LF);
    var digits, ext, rest := s[..k], s[k..][..e], s[k + e + 1..];
    if Accumulate(0, digits) == 0 {
      m := LastChunk(s, consumeTrailer, digits, ext, rest);
    } else {
      var c, after := FirstChunk(s, consumeTrailer, digits, ext, rest);
      var m' := CompleteIsMessage(after, consumeTrailer);
      m := m'.(chunks := [c] + m'.chunks);
      ChunkInFront(c, m', consumeTrailer);
    }
  }

  lemma {:induction false} LastChunk(
    s: seq<byte>, consumeTrailer: bool, digits: seq<byte>, ext: seq<byte>, rest: seq<byte>)
    returns (m: Message)
    requires Run(Start(consumeTrailer), s).verdict == Complete && s == digits + (ext + [LF]) + rest
    requires 1 <= |digits| <= MAX_DIGITS && AllDigits(digits) && Accumulate(0, digits) == 0 && ValidExt(ext)
    ensures ValidMessage(m) && Encoded(m, consumeTrailer) <= s
  {
    var d := Start(consumeTrailer);
    SpellsMeans(digits, 0);
    if consumeTrailer {
      ReadsZero(d, digits, ext);
      RestDecides(d, digits + (ext + [LF]), [], d.(state := TrailersLineHead), rest);
      var lines, n := NeedsTrailer(d.(state := TrailersLineHead), rest);
      m := Message([], digits, ext, lines, n);
      assert Encoded(m, true) == digits + (ext + [LF]) + EncodeTrailer(m);
    } else {
      m := Message([], digits, ext, [], 0);
      assert Encoded(m, false) == digits + (ext + [LF]);
    }
  }

  lemma {:induction false} FirstChunk(
    s: seq<byte>, consumeTrailer: bool, digits: seq<byte>, ext: seq<byte>, rest: seq<byte>)
    returns (c: Chunk, after: seq<byte>)
    requires Run(Start(consumeTrailer), s).verdict == Complete && s == digits + (ext + [LF]) + rest
    requires 1 <= |digits| <= MAX_DIGITS && AllDigits(digits) && Accumulate(0, digits) > 0 && ValidExt(ext)
    ensures ValidChunk(c) && s == EncodeChunk(c) + after
    ensures Run(Start(consumeTrailer), after).verdict == Complete
  {
    var d := Start(consumeTrailer);
    var e := d.(bytesLeft := Accumulate(0, digits), state := ChunkData);
    ReadsSize(d, digits, ext);
    SpellsMeans(digits, e.bytesLeft);
    RestDecides(d, digits + (ext + [LF]), [], e, rest);
    NeedsData(e, rest);
    var n := Past(rest[e.bytesLeft..], CR);
    c := Chunk(digits, ext, rest[..e.bytesLeft], n);
    after := rest[e.bytesLeft + n + 1..];
    ChunkAndRest(s, c, after, rest);
    ReadsChunk(d, c);
    RestDecides(d, EncodeChunk(c), c.data, d, after);
  }

  lemma {:induction false} ChunkAndRest(s: seq<byte>, c: Chunk, after: seq<byte>, rest: seq<byte>)
    requires s == c.digits + (c.ext + [LF]) + rest && rest == c.data + Eol(c.crs) + after
    ensures s == EncodeChunk(c) + after
  {
  }

  // ---- the three verdicts ------------------------------------------------------------------------

  /** The decoder is done exactly when the input begins with the encoding of a message; the output
      and the number of bytes used up are then those of that message. */
  lemma {:induction false} CompleteExactlyWhen(s: seq<byte>, consumeTrailer: bool)
    ensures Run(Start(consumeTrailer), s).verdict == Complete <==> StartsWithMessage(s, consumeTrailer)
    ensures forall m {:trigger Encoded(m, consumeTrailer)} :: ValidMessage(m) && Encoded(m, consumeTrailer) <= s ==>
              && Run(Start(consumeTrailer), s).out == Body(m.chunks)
              && Run(Start(consumeTrailer), s).consumed == |Encoded(m, consumeTrailer)|
  {
    if Run(Start(consumeTrailer), s).verdict == Complete {
      var m := CompleteIsMessage(s, consumeTrailer);
      assert Encoded(m, consumeTrailer) <= s;
    }
    forall m | ValidMessage(m) && Encoded(m, consumeTrailer) <= s
      ensures Run(Start(consumeTrailer), s).out == Body(m.chunks)
      ensures Run(Start(consumeTrailer), s).consumed == |Encoded(m, consumeTrailer)|
      ensures Run(Start(consumeTrailer), s).verdict == Complete
    {
      DecodingUndoesEncoding(m, consumeTrailer, s[|Encoded(m, consumeTrailer)|..]);
      assert s == Encoded(m, consumeTrailer) + s[|Encoded(m, consumeTrailer)|..];
    }
  }

  function Zeros(n: nat): (r: seq<byte>)
    ensures |r| == n
  {
    if n == 0 then [] else [0] + Zeros(n - 1)
  }

  /** The last chunk without its size digit, and no trailer. */
  function LastLine(consumeTrailer: bool): seq<byte> {
    if consumeTrailer then [LF, LF] else [LF]
  }

  lemma {:induction false} EndsAtOnce(d: Decoder)
    requires d.bytesLeft == 0 && (d.state == ChunkExt || (d.state == ChunkSize && d.hexCount > 0))
    ensures Run(d, LastLine(d.consumeTrailer)).verdict == Complete
  {
    if d.consumeTrailer {
      var t := d.(hexCount := 0, state := TrailersLineHead);
      assert LastLine(true)[1..] == [LF];
      assert OneByte(d, LF) == Next(if d.state == ChunkExt then t.(hexCount := d.hexCount) else t, []);
    }
  }

  /** At the start of a size line, `0` and a line end will do. */
  lemma {:induction false} EndsWithZero(d: Decoder)
    requires d.state == ChunkSize && d.bytesLeft == 0 && d.hexCount == 0
    ensures Run(d, [Octet('0')] + LastLine(d.consumeTrailer)).verdict == Complete
  {
    var e := d.(hexCount := 1);
    assert OneByte(d, Octet('0')) == Next(e, []);
    ReadsByte(d, Octet('0'));
    RestDecides(d, [Octet('0')], [], e, LastLine(d.consumeTrailer));
    EndsAtOnce(e);
  }

  /** At the end of chunk data, a line feed and the last chunk will do. */
  lemma {:induction false} EndsAfterData(d: Decoder)
    requires d.state == ChunkCrlf && d.bytesLeft == 0 && d.hexCount == 0
    ensures Run(d, [LF] + ([Octet('0')] + LastLine(d.consumeTrailer))).verdict == Complete
  {
    var e := d.(state := ChunkSize);
    ReadsByte(d, LF);
    RestDecides(d, [LF], [], e, [Octet('0')] + LastLine(d.consumeTrailer));
    EndsWithZero(e);
  }

  lemma {:induction false} EndsInData(d: Decoder) returns (t: seq<byte>)
    requires d.state == ChunkData && d.bytesLeft > 0 && d.hexCount == 0
    ensures Run(d, t).verdict == Complete
  {
    var e := d.(bytesLeft := 0, state := ChunkCrlf);
    var data := Zeros(d.bytesLeft);
    var rest := [LF] + ([Octet('0')] + LastLine(d.consumeTrailer));
    ReadsData(d, data);
    RestDecides(d, data, data, e, rest);
    EndsAfterData(e);
    t := data + rest;
  }

  /** A decoder that has not failed can always be brought to an end. */
  lemma {:induction false} CanEnd(d: Decoder) returns (t: seq<byte>)
    requires WellFormed(d)
    ensures Run(d, t).verdict == Complete
  {
    if d.state == ChunkData {
      t := EndsInData(d);
    } else if d.state == ChunkCrlf {
      EndsAfterData(d);
      t := [LF] + ([Octet('0')] + LastLine(d.consumeTrailer));
    } else if d.state == TrailersLineHead {
      t := [LF];
    } else if d.state == TrailersLineMiddle {
      assert [LF, LF][1..] == [LF];
      t := [LF, LF];
    } else if d.state == ChunkSize && d.hexCount == 0 {
      assert Pow16(0) == 1;
      EndsWithZero(d);
      t := [Octet('0')] + LastLine(d.consumeTrailer);
    } else if d.bytesLeft == 0 {
      EndsAtOnce(d);
      t := LastLine(d.consumeTrailer);
    } else {
      var e := d.(hexCount := 0, state := ChunkData);
      assert OneByte(d, LF) == Next(e, []);
      ReadsByte(d, LF);
      var more := EndsInData(e);
      RestDecides(d, [LF], [], e, more);
      t := [LF] + more;
    }
  }

  /** The decoder fails exactly when no bytes after the input could make it begin with the encoding
      of a message. */
  lemma {:induction false} FailedExactlyWhen(s: seq<byte>, consumeTrailer: bool)
    ensures Run(Start(consumeTrailer), s).verdict == Failed <==>
            forall t {:trigger s + t} :: !StartsWithMessage(s + t, consumeTrailer)
  {
    var d := Start(consumeTrailer);
    var r := Run(d, s);
    forall t: seq<byte>
      ensures r.verdict == Failed ==> !StartsWithMessage(s + t, consumeTrailer)
    {
      SplittingDoesNotMatter(d, s, t);
      CompleteExactlyWhen(s + t, consumeTrailer);
    }
    if r.verdict == Complete {
      CompleteExactlyWhen(s, consumeTrailer);
      assert s + [] == s;
    } else if r.verdict == Incomplete {
      RunKeeps(d, s);
      var t := CanEnd(r.d);
      SplittingDoesNotMatter(d, s, t);
      CompleteExactlyWhen(s + t, consumeTrailer);
    }
  }

  /** The decoder asks for more exactly when more bytes can, and must, come to make the input begin
      with the encoding of a message. */
  lemma {:induction false} IncompleteExactlyWhen(s: seq<byte>, consumeTrailer: bool)
    ensures Run(Start(consumeTrailer), s).verdict == Incomplete <==>
            && !StartsWithMessage(s, consumeTrailer)
            && exists t {:trigger s + t} :: StartsWithMessage(s + t, consumeTrailer)
  {
    CompleteExactlyWhen(s, consumeTrailer);
    FailedExactlyWhen(s, consumeTrailer);
  }
}
