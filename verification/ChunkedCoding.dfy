/** Chunked encoding (section 4.1 of RFC 7230) and the proof that decoding undoes it. */
module ChunkedCoding {
  import opened Common
  import opened ChunkedMachine

  const LOWER := "0123456789abcdef"
  const UPPER := "0123456789ABCDEF"

  /** The first place of a character in a string, or the length. */
  function Position(s: string, c: char): nat {
    if s == "" || s[0] == c then 0 else 1 + Position(s[1..], c)
  }

  /** The place of a hexadecimal digit among the digits, in either case, or 16. */
  function DigitValue(x: byte): nat {
    var p := Position(LOWER, x as int as char);
    if p < 16 then p else Position(UPPER, x as int as char)
  }

  /** One chunk as a sender may spell it: size digits, the rest of the size line, data, and how
      many carriage returns stand before the line feed after the data. */
  datatype Chunk = Chunk(digits: seq<byte>, ext: seq<byte>, data: seq<byte>, crs: nat)

  /** A whole body: data chunks, the last chunk of size zero, the trailer lines, and the carriage
      returns before the line feed that ends them. */
  datatype Message = Message(
    chunks: seq<Chunk>, zeros: seq<byte>, lastExt: seq<byte>, trailer: seq<seq<byte>>, crs: nat)

  /** The number that `digits` append to the number `n`. */
  function Value(n: nat, digits: seq<byte>): nat
    decreases |digits|
  {
    if digits == [] then n else Value(n * 16 + DigitValue(digits[0]), digits[1..])
  }

  /** One to sixteen hexadecimal digits, in either case and with any leading zeros, that
      spell `n`. */
  predicate Spells(digits: seq<byte>, n: nat) {
    1 <= |digits| <= MAX_DIGITS && (forall x :: x in digits ==> DigitValue(x) < 16) && Value(0, digits) == n
  }

  /** The rest of a size line: anything without a line feed, as `;name=value` and a carriage
      return. */
  predicate ValidExt(ext: seq<byte>) {
    Octet('\n') !in ext && (ext != [] ==> DigitValue(ext[0]) == 16)
  }

  predicate ValidChunk(c: Chunk) {
    c.data != [] && Spells(c.digits, |c.data|) && ValidExt(c.ext)
  }

  /** A trailer line: anything without a line feed that is not just carriage returns. */
  predicate ValidLine(line: seq<byte>) {
    Octet('\n') !in line && exists x :: x in line && x != Octet('\r')
  }

  predicate ValidMessage(m: Message) {
    && (forall c :: c in m.chunks ==> ValidChunk(c))
    && Spells(m.zeros, 0) && ValidExt(m.lastExt)
    && (forall line :: line in m.trailer ==> ValidLine(line))
  }

  /** A line feed after `n` carriage returns. */
  function Eol(n: nat): seq<byte> {
    Crs(n) + [Octet('\n')]
  }

  function Crs(n: nat): (r: seq<byte>)
    ensures |r| == n
    ensures forall c :: c in r ==> c == Octet('\r')
  {
    if n == 0 then [] else [Octet('\r')] + Crs(n - 1)
  }

  function EncodeChunk(c: Chunk): seq<byte> {
    c.digits + (c.ext + [Octet('\n')]) + (c.data + Eol(c.crs))
  }

  function EncodeChunks(cs: seq<Chunk>): seq<byte> {
    if cs == [] then [] else EncodeChunk(cs[0]) + EncodeChunks(cs[1..])
  }

  function EncodeLines(lines: seq<seq<byte>>): seq<byte> {
    if lines == [] then [] else lines[0] + [Octet('\n')] + EncodeLines(lines[1..])
  }

  /** Everything up to the end of the zero-chunk line. */
  function EncodeHead(m: Message): seq<byte> {
    EncodeChunks(m.chunks) + (m.zeros + (m.lastExt + [Octet('\n')]))
  }

  /** The trailer lines and the empty line that ends them. */
  function EncodeTrailer(m: Message): seq<byte> {
    EncodeLines(m.trailer) + Eol(m.crs)
  }

  function Body(cs: seq<Chunk>): seq<byte> {
    if cs == [] then [] else cs[0].data + Body(cs[1..])
  }

  // ---- digits --------------------------------------------------------------------------------

  lemma {:induction false} PositionIs(s: string, c: char, k: nat)
    requires k <= |s| && (k < |s| ==> s[k] == c) && forall j :: 0 <= j < k ==> s[j] != c
    ensures Position(s, c) == k
  {
    if k > 0 {
      PositionIs(s[1..], c, k - 1);
    }
  }

  /** The decimal digits, and then six letters from `a` on. */
  ghost predicate Alphabet(s: string, a: char) {
    |s| == 16 && forall k :: 0 <= k < 16 ==> s[k] as int == if k < 10 then '0' as int + k else a as int + k - 10
  }

  lemma {:induction false} Alphabets()
    ensures Alphabet(LOWER, 'a') && Alphabet(UPPER, 'A')
  {
  }

  lemma {:induction false} PositionInAlphabet(s: string, a: char, c: char)
    requires Alphabet(s, a) && '9' < a <= 'a'
    ensures
      Position(s, c) == if '0' <= c <= '9' then c as int - '0' as int
                        else if a as int <= c as int < a as int + 6 then c as int - a as int + 10 else 16
  {
    PositionIs(s, c, if '0' <= c <= '9' then c as int - '0' as int
                     else if a as int <= c as int < a as int + 6 then c as int - a as int + 10 else 16);
  }

  /** decode_hex gives the place of a digit among the digits, and -1 to every other byte. */
  lemma {:induction false} DecodeHexMeans(x: byte)
    ensures DecodeHex(x) == if DigitValue(x) < 16 then DigitValue(x) else -1
    ensures DigitValue(x) <= 16
  {
    Alphabets();
    PositionInAlphabet(LOWER, 'a', x as int as char);
    PositionInAlphabet(UPPER, 'A', x as int as char);
  }

  /** The digits in their order are worth 0 to 15, in either case. */
  lemma {:induction false} DigitsInOrder(k: nat)
    requires k < 16
    ensures DecodeHex(Octet("0123456789abcdef"[k])) == k && DecodeHex(Octet("0123456789ABCDEF"[k])) == k
  {
    Alphabets();
  }

  predicate AllDigits(s: seq<byte>) {
    forall x :: x in s ==> DecodeHex(x) != -1
  }

  /** The same number, as the decoder reads the digits. */
  function Accumulate(n: nat, digits: seq<byte>): nat
    requires AllDigits(digits)
    decreases |digits|
  {
    if digits == [] then n else Accumulate(n * 16 + DecodeHex(digits[0]), digits[1..])
  }

  lemma {:induction false} ValueIs(n: nat, digits: seq<byte>)
    requires AllDigits(digits)
    ensures Value(n, digits) == Accumulate(n, digits)
    decreases |digits|
  {
    if digits != [] {
      DecodeHexMeans(digits[0]);
      ValueIs(n * 16 + DecodeHex(digits[0]), digits[1..]);
    }
  }

  lemma {:induction false} SpellsMeans(digits: seq<byte>, n: nat)
    ensures Spells(digits, n) <==> 1 <= |digits| <= MAX_DIGITS && AllDigits(digits) && Accumulate(0, digits) == n
  {
    forall x | x in digits
      ensures DigitValue(x) < 16 <==> DecodeHex(x) != -1
    {
      DecodeHexMeans(x);
    }
    if AllDigits(digits) {
      ValueIs(0, digits);
    }
  }

  lemma {:induction false} ExtMeans(ext: seq<byte>)
    ensures ValidExt(ext) <==> LF !in ext && (ext != [] ==> DecodeHex(ext[0]) == -1)
  {
    if ext != [] {
      DecodeHexMeans(ext[0]);
    }
  }

  // ---- the machine on each part of an encoding --------------------------------------------

  /** Whatever follows `s`, the machine reads all of `s` from decoder `d`, yields `out` and
      goes on from decoder `e`. */
  ghost predicate Reads(d: Decoder, s: seq<byte>, out: seq<byte>, e: Decoder) {
    forall rest {:trigger Run(d, s + rest)} :: Run(d, s + rest) == After(out, |s|, Run(e, rest))
  }

  lemma {:induction false} ReadsNothing(d: Decoder)
    ensures Reads(d, [], [], d)
  {
    forall rest: seq<byte>
      ensures Run(d, [] + rest) == After([], 0, Run(d, rest))
    {
      assert [] + rest == rest && [] + Run(d, rest).out == Run(d, rest).out;
    }
  }

  lemma {:induction false} ReadsByte(d: Decoder, c: byte)
    requires OneByte(d, c).Next?
    ensures Reads(d, [c], OneByte(d, c).out, OneByte(d, c).d)
  {
    forall rest: seq<byte>
      ensures Run(d, [c] + rest) == After(OneByte(d, c).out, 1, Run(OneByte(d, c).d, rest))
    {
      assert ([c] + rest)[0] == c && ([c] + rest)[1..] == rest;
    }
  }

  lemma {:induction false} ReadsBoth(
    d: Decoder, a: seq<byte>, outA: seq<byte>, e: Decoder, b: seq<byte>, outB: seq<byte>, f: Decoder)
    requires Reads(d, a, outA, e) && Reads(e, b, outB, f)
    ensures Reads(d, a + b, outA + outB, f)
  {
    forall rest: seq<byte>
      ensures Run(d, (a + b) + rest) == After(outA + outB, |a + b|, Run(f, rest))
    {
      assert (a + b) + rest == a + (b + rest);
      AfterTwice(outA, |a|, outB, |b|, Run(e, b + rest), Run(f, rest));
    }
  }

  lemma {:induction false} AfterTwice(outA: seq<byte>, m: nat, outB: seq<byte>, n: nat, q: Outcome, r: Outcome)
    requires q == After(outB, n, r)
    ensures After(outA, m, q) == After(outA + outB, m + n, r)
  {
    assert outA + (outB + r.out) == (outA + outB) + r.out;
  }

  /** Bytes that each leave the decoder as it is, without output. */
  lemma {:induction false} ReadsSkipped(d: Decoder, s: seq<byte>)
    requires forall c :: c in s ==> OneByte(d, c) == Next(d, [])
    ensures Reads(d, s, [], d)
    decreases |s|
  {
    if s == [] {
      ReadsNothing(d);
    } else {
      assert s[0] in s && s == [s[0]] + s[1..];
      ReadsByte(d, s[0]);
      ReadsSkipped(d, s[1..]);
      ReadsBoth(d, [s[0]], [], d, s[1..], [], d);
    }
  }

  /** The decoder after size digits. */
  function AfterDigits(d: Decoder, digits: seq<byte>): Decoder
    requires AllDigits(digits)
  {
    d.(bytesLeft := Accumulate(d.bytesLeft, digits), hexCount := d.hexCount + |digits|)
  }

  /** The decoder after one more digit. */
  function OneMore(d: Decoder, x: byte): Decoder
    requires DecodeHex(x) != -1
  {
    d.(bytesLeft := d.bytesLeft * 16 + DecodeHex(x), hexCount := d.hexCount + 1)
  }

  lemma {:induction false} FirstDigit(d: Decoder, digits: seq<byte>)
    requires WellFormed(d) && d.state == ChunkSize && digits != [] && d.hexCount + |digits| <= MAX_DIGITS
    requires AllDigits(digits)
    ensures
      var d1 := OneMore(d, digits[0]);
      && WellFormed(d1) && Reads(d, [digits[0]], [], d1)
      && AllDigits(digits[1..])
      && AfterDigits(d1, digits[1..]) == AfterDigits(d, digits)
  {
    var x := digits[0];
    SizeNeverWraps(d, x);
    OneByteKeeps(d, x);
    assert OneByte(d, x) == Next(OneMore(d, x), []);
    ReadsByte(d, x);
    OtherDigits(d, digits);
  }

  lemma {:induction false} OtherDigits(d: Decoder, digits: seq<byte>)
    requires digits != [] && AllDigits(digits)
    ensures
      var d1 := OneMore(d, digits[0]);
      AllDigits(digits[1..]) && AfterDigits(d1, digits[1..]) == AfterDigits(d, digits)
  {
  }

  lemma {:induction false} ReadsDigits(d: Decoder, digits: seq<byte>)
    requires WellFormed(d) && d.state == ChunkSize && d.hexCount + |digits| <= MAX_DIGITS
    requires AllDigits(digits)
    ensures Reads(d, digits, [], AfterDigits(d, digits))
    ensures WellFormed(AfterDigits(d, digits))
    decreases |digits|
  {
    if digits == [] {
      ReadsNothing(d);
    } else {
      var d1 := OneMore(d, digits[0]);
      FirstDigit(d, digits);
      ReadsDigits(d1, digits[1..]);
      ReadsBoth(d, [digits[0]], [], d1, digits[1..], [], AfterDigits(d, digits));
      assert digits == [digits[0]] + digits[1..];
    }
  }

  /** The decoder behind the digits of a size line, before its line feed. */
  function SizeRead(d: Decoder, digits: seq<byte>, ext: seq<byte>): Decoder
    requires AllDigits(digits)
  {
    if ext == [] then d.(bytesLeft := Accumulate(0, digits), hexCount := |digits|)
    else d.(bytesLeft := Accumulate(0, digits), state := ChunkExt)
  }

  /** The rest of a size line, when there is one, is skipped. */
  lemma {:induction false} ReadsExt(d: Decoder, ext: seq<byte>)
    requires d.state == ChunkSize && d.hexCount > 0 && ValidExt(ext) && ext != []
    ensures Reads(d, ext, [], d.(hexCount := 0, state := ChunkExt))
  {
    var e := d.(hexCount := 0, state := ChunkExt);
    ExtMeans(ext);
    assert ext[0] in ext;
    ReadsByte(d, ext[0]);
    assert forall c :: c in ext[1..] ==> c in ext;
    ReadsSkipped(e, ext[1..]);
    ReadsBoth(d, [ext[0]], [], e, ext[1..], [], e);
    assert ext == [ext[0]] + ext[1..];
  }

  /** A size line up to its line feed. */
  lemma {:induction false} ReadsSizeLine(d: Decoder, digits: seq<byte>, ext: seq<byte>)
    requires d == Start(d.consumeTrailer) && 1 <= |digits| <= MAX_DIGITS && AllDigits(digits) && ValidExt(ext)
    ensures Reads(d, digits + ext, [], SizeRead(d, digits, ext))
  {
    ReadsDigits(d, digits);
    if ext == [] {
      assert digits + ext == digits;
    } else {
      ReadsExt(AfterDigits(d, digits), ext);
      ReadsBoth(d, digits, [], AfterDigits(d, digits), ext, [], SizeRead(d, digits, ext));
    }
  }

  /** The line feed of a size line. */
  lemma {:induction false} SizeLineEnds(d: Decoder, digits: seq<byte>, ext: seq<byte>)
    requires d == Start(d.consumeTrailer) && digits != [] && AllDigits(digits)
    ensures
      OneByte(SizeRead(d, digits, ext), LF) == StepExt(d.(bytesLeft := Accumulate(0, digits), state := ChunkExt), LF)
  {
  }

  lemma {:induction false} ReadsData(d: Decoder, data: seq<byte>)
    requires d.state == ChunkData && d.bytesLeft == |data| > 0
    ensures Reads(d, data, data, d.(bytesLeft := 0, state := ChunkCrlf))
  {
    forall rest: seq<byte>
      ensures Run(d, data + rest) == After(data, |data|, Run(d.(bytesLeft := 0, state := ChunkCrlf), rest))
    {
      RunAllData(d, data, rest);
    }
  }

  /** A size line with a size other than zero, with its line feed. */
  lemma {:induction false} ReadsSize(d: Decoder, digits: seq<byte>, ext: seq<byte>)
    requires d == Start(d.consumeTrailer) && 1 <= |digits| <= MAX_DIGITS && AllDigits(digits) && ValidExt(ext)
    requires Accumulate(0, digits) > 0
    ensures Reads(d, digits + (ext + [LF]), [], d.(bytesLeft := Accumulate(0, digits), state := ChunkData))
  {
    var e := d.(bytesLeft := Accumulate(0, digits), state := ChunkData);
    ReadsSizeLine(d, digits, ext);
    SizeLineEnds(d, digits, ext);
    ReadsByte(SizeRead(d, digits, ext), LF);
    ReadsBoth(d, digits + ext, [], SizeRead(d, digits, ext), [LF], [], e);
    assert digits + ext + [LF] == digits + (ext + [LF]);
  }

  /** The size line of the last chunk, with its line feed, when the trailer is read as well. */
  lemma {:induction false} ReadsZero(d: Decoder, digits: seq<byte>, ext: seq<byte>)
    requires d == Start(true) && 1 <= |digits| <= MAX_DIGITS && AllDigits(digits) && ValidExt(ext)
    requires Accumulate(0, digits) == 0
    ensures Reads(d, digits + (ext + [LF]), [], d.(state := TrailersLineHead))
  {
    ReadsSizeLine(d, digits, ext);
    SizeLineEnds(d, digits, ext);
    ReadsByte(SizeRead(d, digits, ext), LF);
    ReadsBoth(d, digits + ext, [], SizeRead(d, digits, ext), [LF], [], d.(state := TrailersLineHead));
    assert digits + ext + [LF] == digits + (ext + [LF]);
  }

  lemma {:induction false} ReadsChunk(d: Decoder, c: Chunk)
    requires d == Start(d.consumeTrailer) && ValidChunk(c)
    ensures Reads(d, EncodeChunk(c), c.data, d)
  {
    var e := d.(bytesLeft := |c.data|, state := ChunkData);
    var line := c.digits + (c.ext + [LF]);
    SpellsMeans(c.digits, |c.data|);
    ReadsSize(d, c.digits, c.ext);
    ReadsDataLine(e, c.data, c.crs);
    ReadsBoth(d, line, [], e, c.data + Eol(c.crs), c.data, d);
    assert EncodeChunk(c) == line + (c.data + Eol(c.crs));
    assert [] + c.data == c.data;
  }

  lemma {:induction false} ReadsDataLine(d: Decoder, data: seq<byte>, crs: nat)
    requires d.state == ChunkData && d.bytesLeft == |data| > 0
    ensures Reads(d, data + Eol(crs), data, d.(bytesLeft := 0, state := ChunkSize))
  {
    var e, f := d.(bytesLeft := 0, state := ChunkCrlf), d.(bytesLeft := 0, state := ChunkSize);
    ReadsData(d, data);
    ReadsSkipped(e, Crs(crs));
    ReadsByte(e, LF);
    ReadsBoth(e, Crs(crs), [], e, [LF], [], f);
    ReadsBoth(d, data, data, e, Eol(crs), [], f);
    assert data + [] == data;
  }

  lemma {:induction false} ReadsChunks(d: Decoder, cs: seq<Chunk>)
    requires d == Start(d.consumeTrailer) && forall c :: c in cs ==> ValidChunk(c)
    ensures Reads(d, EncodeChunks(cs), Body(cs), d)
    decreases |cs|
  {
    if cs == [] {
      ReadsNothing(d);
    } else {
      assert cs[0] in cs;
      ReadsChunk(d, cs[0]);
      ReadsChunks(d, cs[1..]);
      ReadsBoth(d, EncodeChunk(cs[0]), cs[0].data, d, EncodeChunks(cs[1..]), Body(cs[1..]), d);
    }
  }

  /** The carriage returns at the front of a trailer line. */
  function LeadingCrs(line: seq<byte>): (n: nat)
    ensures n <= |line| && (forall k :: 0 <= k < n ==> line[k] == CR) && (n < |line| ==> line[n] != CR)
  {
    if line == [] || line[0] != CR then 0 else 1 + LeadingCrs(line[1..])
  }

  /** A trailer line is skipped up to and including its line feed. */
  lemma {:induction false} ReadsLine(d: Decoder, line: seq<byte>)
    requires d.state == TrailersLineHead && ValidLine(line)
    ensures Reads(d, line + [LF], [], d)
  {
    var n := LeadingCrs(line);
    var e := d.(state := TrailersLineMiddle);
    assert n < |line| by {
      var x :| x in line && x != CR;
    }
    assert line[n] in line;
    ReadsSkipped(d, line[..n]);
    ReadsByte(d, line[n]);
    ReadsBoth(d, line[..n], [], d, [line[n]], [], e);
    assert forall c :: c in line[n + 1..] ==> c in line;
    ReadsSkipped(e, line[n + 1..]);
    ReadsBoth(d, line[..n] + [line[n]], [], e, line[n + 1..], [], e);
    assert line == line[..n] + [line[n]] + line[n + 1..];
    ReadsByte(e, LF);
    ReadsBoth(d, line, [], e, [LF], [], d);
  }

  lemma {:induction false} ReadsLines(d: Decoder, lines: seq<seq<byte>>)
    requires d.state == TrailersLineHead && forall line :: line in lines ==> ValidLine(line)
    ensures Reads(d, EncodeLines(lines), [], d)
    decreases |lines|
  {
    if lines == [] {
      ReadsNothing(d);
    } else {
      assert lines[0] in lines;
      ReadsLine(d, lines[0]);
      ReadsLines(d, lines[1..]);
      ReadsBoth(d, lines[0] + [LF], [], d, EncodeLines(lines[1..]), [], d);
    }
  }

  // ---- decoding undoes encoding --------------------------------------------------------------

  /** When a prefix is read and the next byte completes the message, nothing after matters. */
  lemma {:induction false} CompleteAt(d: Decoder, s: seq<byte>, out: seq<byte>, e: Decoder, tail: seq<byte>)
    requires Reads(d, s, out, e) && OneByte(e, LF).Stop? && OneByte(e, LF).verdict == Complete
    requires OneByte(e, LF).consumed == 1
    ensures Run(d, s + [LF] + tail) == Outcome(OneByte(e, LF).d, out, |s| + 1, Complete)
  {
    assert s + [LF] + tail == s + ([LF] + tail);
    assert ([LF] + tail)[0] == LF;
    assert out + [] == out;
  }

  /** The trailer, up to the line feed that ends it. */
  lemma {:induction false} ReadsTrailer(t: Decoder, m: Message)
    requires t.state == TrailersLineHead && ValidMessage(m)
    ensures Reads(t, EncodeLines(m.trailer) + Crs(m.crs), [], t)
    ensures EncodeTrailer(m) == EncodeLines(m.trailer) + Crs(m.crs) + [LF]
  {
    ReadsLines(t, m.trailer);
    ReadsSkipped(t, Crs(m.crs));
    ReadsBoth(t, EncodeLines(m.trailer), [], t, Crs(m.crs), [], t);
  }

  /** What the decoder uses up of an encoding: everything up to the end of the zero-chunk line when
      the trailer is left to the caller, else also the trailer and the line that ends it. */
  function Encoded(m: Message, consumeTrailer: bool): seq<byte> {
    EncodeHead(m) + if consumeTrailer then EncodeTrailer(m) else []
  }

  /** Everything up to the line feed that ends the trailer. */
  lemma {:induction false} ReadsWithTrailer(m: Message, d: Decoder)
    requires d == Start(true) && ValidMessage(m)
    ensures
      var t := d.(state := TrailersLineHead);
      Reads(d, EncodeHead(m) + (EncodeLines(m.trailer) + Crs(m.crs)), Body(m.chunks), t)
  {
    var t := d.(state := TrailersLineHead);
    SpellsMeans(m.zeros, 0);
    ReadsChunks(d, m.chunks);
    ReadsZero(d, m.zeros, m.lastExt);
    ReadsBoth(d, EncodeChunks(m.chunks), Body(m.chunks), d, m.zeros + (m.lastExt + [LF]), [], t);
    ReadsTrailer(t, m);
    assert Body(m.chunks) + [] == Body(m.chunks);
    ReadsBoth(d, EncodeHead(m), Body(m.chunks), t, EncodeLines(m.trailer) + Crs(m.crs), [], t);
  }

  /** Everything up to the line feed of the zero-chunk line. */
  lemma {:induction false} ReadsWithoutTrailer(m: Message, d: Decoder)
    requires d == Start(false) && ValidMessage(m)
    ensures AllDigits(m.zeros) && Accumulate(0, m.zeros) == 0
    ensures
      Reads(d, EncodeChunks(m.chunks) + (m.zeros + m.lastExt), Body(m.chunks), SizeRead(d, m.zeros, m.lastExt))
  {
    SpellsMeans(m.zeros, 0);
    ReadsChunks(d, m.chunks);
    ReadsSizeLine(d, m.zeros, m.lastExt);
    ReadsBoth(d, EncodeChunks(m.chunks), Body(m.chunks), d, m.zeros + m.lastExt, [], SizeRead(d, m.zeros, m.lastExt));
    assert Body(m.chunks) + [] == Body(m.chunks);
  }

  /** An encoding ends with a line feed. */
  lemma {:induction false} EncodedEnds(m: Message)
    ensures Encoded(m, true) == EncodeHead(m) + (EncodeLines(m.trailer) + Crs(m.crs)) + [LF]
    ensures Encoded(m, false) == EncodeChunks(m.chunks) + (m.zeros + m.lastExt) + [LF]
  {
  }

  /** Whatever follows the encoding, the decoder yields the body and stops behind it. */
  lemma {:induction false} DecodingUndoesEncoding(m: Message, consumeTrailer: bool, tail: seq<byte>)
    requires ValidMessage(m)
    ensures
      var r := Run(Start(consumeTrailer), Encoded(m, consumeTrailer) + tail);
      && r.out == Body(m.chunks) && r.verdict == Complete
      && r.consumed == |Encoded(m, consumeTrailer)|
  {
    var d := Start(consumeTrailer);
    EncodedEnds(m);
    if consumeTrailer {
      var s := EncodeHead(m) + (EncodeLines(m.trailer) + Crs(m.crs));
      ReadsWithTrailer(m, d);
      CompleteAt(d, s, Body(m.chunks), d.(state := TrailersLineHead), tail);
    } else {
      var s := EncodeChunks(m.chunks) + (m.zeros + m.lastExt);
      ReadsWithoutTrailer(m, d);
      SizeLineEnds(d, m.zeros, m.lastExt);
      CompleteAt(d, s, Body(m.chunks), SizeRead(d, m.zeros, m.lastExt), tail);
    }
  }

  // ---- the usual spelling exists for every body ------------------------------------------------

  function HexDigit(v: nat): (c: byte)
    requires v < 16
    ensures DecodeHex(c) == v
  {
    (if v < 10 then '0' as int + v else 'a' as int + (v - 10)) as byte
  }

  /** `n` in lower-case hexadecimal without leading zeros. */
  function ToHex(n: nat): seq<byte> {
    (if n < 16 then [] else ToHex(n / 16)) + [HexDigit(n % 16)]
  }

  lemma {:induction false} AccumulateAppend(n: nat, a: seq<byte>, x: byte)
    requires AllDigits(a) && DecodeHex(x) != -1
    ensures AllDigits(a + [x]) && Accumulate(n, a + [x]) == Accumulate(n, a) * 16 + DecodeHex(x)
    decreases |a|
  {
    if a == [] {
      assert a + [x] == [x] && [x][1..] == [];
    } else {
      assert (a + [x])[1..] == a[1..] + [x];
      AccumulateAppend(n * 16 + DecodeHex(a[0]), a[1..], x);
    }
  }

  lemma {:induction false} OneDigitLess(n: nat, k: nat)
    requires 16 <= n < Pow16(k + 1)
    ensures k > 0 && n / 16 < Pow16(k)
  {
  }

  lemma {:induction false} ToHexAdds(n: nat, k: nat)
    requires n < Pow16(k + 1)
    ensures 1 <= |ToHex(n)| <= k + 1
    ensures AllDigits(ToHex(n)) && Accumulate(0, ToHex(n)) == n
    decreases k
  {
    if n < 16 {
      assert ToHex(n) == [] + [HexDigit(n)] == [HexDigit(n)];
      assert [HexDigit(n)][1..] == [];
    } else {
      OneDigitLess(n, k);
      ToHexAdds(n / 16, k - 1);
      AccumulateAppend(0, ToHex(n / 16), HexDigit(n % 16));
    }
  }

  lemma {:induction false} ToHexSpells(n: nat, k: nat)
    requires n < Pow16(k + 1) && k < MAX_DIGITS
    ensures |ToHex(n)| <= k + 1 && Spells(ToHex(n), n)
  {
    ToHexAdds(n, k);
    SpellsMeans(ToHex(n), n);
  }

  /** Any cut of a body into chunks, each with its size in plain hexadecimal and CR LF at the line
      ends. */
  function Plain(parts: seq<seq<byte>>): seq<Chunk> {
    if parts == [] then [] else [Chunk(ToHex(|parts[0]|), [CR], parts[0], 1)] + Plain(parts[1..])
  }

  /** The plain encoding of any body, cut into non-empty chunks in any way, is a valid one. */
  lemma {:induction false} PlainIsValid(parts: seq<seq<byte>>)
    requires forall p :: p in parts ==> 0 < |p| < U64
    ensures ValidMessage(Message(Plain(parts), ToHex(0), [CR], [], 1))
    ensures Body(Plain(parts)) == Joined(parts)
    decreases |parts|
  {
    SizeRange();
    ToHexSpells(0, MAX_DIGITS - 1);
    ExtMeans([CR]);
    if parts != [] {
      assert parts[0] in parts;
      ToHexSpells(|parts[0]|, MAX_DIGITS - 1);
      PlainIsValid(parts[1..]);
      assert Plain(parts)[1..] == Plain(parts[1..]);
    }
  }
}
