/** Chunked transfer coding (section 4.1 of RFC 7230) as a machine that reads one byte at a
    time: the reference for the decoder that works in place on whole buffers. */
module ChunkedMachine {
  import opened Common

  const CR: byte := 13
  const LF: byte := 10
  /** Hexadecimal digits of a 64-bit size. */
  const MAX_DIGITS := 16

  datatype State =
    | ChunkSize | ChunkExt | ChunkData | ChunkCrlf | TrailersLineHead | TrailersLineMiddle

  datatype Decoder = Decoder(bytesLeft: nat, consumeTrailer: bool, hexCount: nat, state: State)

  datatype Verdict = Incomplete | Failed | Complete

  /** What became of an input: the decoder reached, the decoded bytes, how many input bytes
      were used up, and why decoding stopped. */
  datatype Outcome = Outcome(d: Decoder, out: seq<byte>, consumed: nat, verdict: Verdict)

  /** What one byte does: it is used up with some output, or it stops the machine. */
  datatype Step = Next(d: Decoder, out: seq<byte>) | Stop(d: Decoder, verdict: Verdict, consumed: nat)

  predicate IsHexDigit(ch: byte) {
    var c := ch as int as char;
    '0' <= c <= '9' || 'A' <= c <= 'F' || 'a' <= c <= 'f'
  }

  /** The value of a hexadecimal digit, or -1. */
  function DecodeHex(ch: byte): (v: int)
    ensures -1 <= v < 16
    ensures v == -1 <==> !IsHexDigit(ch)
  {
    var x := ch as int;
    if '0' as int <= x <= '9' as int then x - '0' as int
    else if 'A' as int <= x <= 'F' as int then x - 'A' as int + 10
    else if 'a' as int <= x <= 'f' as int then x - 'a' as int + 10
    else -1
  }

  /** A chunk size with one more digit, in unsigned 64-bit arithmetic. */
  function AppendDigit(n: nat, v: nat): (r: nat)
    ensures n * 16 + v < U64 ==> r == n * 16 + v
  {
    (n * 16 + v) % U64
  }

  function StepExt(d: Decoder, c: byte): Step {
    if c != LF then Next(d, [])
    else if d.bytesLeft != 0 then Next(d.(state := ChunkData), [])
    else if d.consumeTrailer then Next(d.(state := TrailersLineHead), [])
    else Stop(d, Complete, 1)
  }

  function StepCrlf(d: Decoder, c: byte): Step {
    if c == CR then Next(d, [])
    else if c == LF then Next(d.(state := ChunkSize), [])
    else Stop(d, Failed, 0)
  }

  function OneByte(d: Decoder, c: byte): Step {
    match d.state
    case ChunkSize =>
      var v := DecodeHex(c);
      if v == -1 then
        if d.hexCount == 0 then Stop(d, Failed, 0)
        else StepExt(d.(hexCount := 0, state := ChunkExt), c)
      else if d.hexCount == MAX_DIGITS then Stop(d, Failed, 0)
      else Next(d.(bytesLeft := AppendDigit(d.bytesLeft, v), hexCount := d.hexCount + 1), [])
    case ChunkExt => StepExt(d, c)
    case ChunkData =>
      if d.bytesLeft == 0 then StepCrlf(d.(state := ChunkCrlf), c)
      else if d.bytesLeft == 1 then Next(d.(bytesLeft := 0, state := ChunkCrlf), [c])
      else Next(d.(bytesLeft := d.bytesLeft - 1), [c])
    case ChunkCrlf => StepCrlf(d, c)
    case TrailersLineHead =>
      if c == CR then Next(d, [])
      else if c == LF then Stop(d, Complete, 1)
      else Next(d.(state := TrailersLineMiddle), [])
    case TrailersLineMiddle =>
      if c == LF then Next(d.(state := TrailersLineHead), []) else Next(d, [])
  }

  /** `r` seen from `consumed` bytes earlier, when those bytes yielded `out`. */
  function After(out: seq<byte>, consumed: nat, r: Outcome): Outcome {
    Outcome(r.d, out + r.out, consumed + r.consumed, r.verdict)
  }

  function Run(d: Decoder, s: seq<byte>): Outcome
    decreases |s|
  {
    if s == [] then Outcome(d, [], 0, Incomplete)
    else
      match OneByte(d, s[0])
      case Next(d', out) => After(out, 1, Run(d', s[1..]))
      case Stop(d', verdict, n) => Outcome(d', [], n, verdict)
  }

  // ---- the state between calls -----------------------------------------------------------

  function Pow16(n: nat): (r: nat)
    ensures r >= 1
  {
    if n == 0 then 1 else 16 * Pow16(n - 1)
  }

  /** What holds of a decoder that starts zero-filled and is only changed by decoding. */
  ghost predicate WellFormed(d: Decoder) {
    && d.hexCount <= MAX_DIGITS
    && d.bytesLeft < U64
    && (d.state == ChunkSize ==> d.bytesLeft < Pow16(d.hexCount))
    && (d.state != ChunkSize ==> d.hexCount == 0)
    && (d.state == ChunkData ==> d.bytesLeft > 0)
    && (d.state.ChunkCrlf? || d.state.TrailersLineHead? || d.state.TrailersLineMiddle? ==> d.bytesLeft == 0)
  }

  function Start(consumeTrailer: bool): (d: Decoder)
    ensures WellFormed(d)
  {
    Decoder(0, consumeTrailer, 0, ChunkSize)
  }

  lemma {:induction false} Pow16Grows(m: nat, n: nat)
    requires m <= n
    ensures Pow16(m) <= Pow16(n)
  {
    if m < n {
      Pow16Grows(m, n - 1);
    }
  }

  lemma {:induction false} SizeRange()
    ensures Pow16(MAX_DIGITS) == U64
  {
    assert Pow16(4) == 0x1_0000;
    assert Pow16(8) == 16 * (16 * (16 * (16 * Pow16(4))));
    assert Pow16(12) == 16 * (16 * (16 * (16 * Pow16(8))));
    assert Pow16(16) == 16 * (16 * (16 * (16 * Pow16(12))));
  }

  /** A chunk size never wraps: while digits are read, it is below 16 to their number. */
  lemma {:induction false} SizeNeverWraps(d: Decoder, c: byte)
    requires WellFormed(d) && d.state == ChunkSize && d.hexCount < MAX_DIGITS && DecodeHex(c) != -1
    ensures d.bytesLeft * 16 + DecodeHex(c) < Pow16(d.hexCount + 1) <= U64
    ensures OneByte(d, c) == Next(d.(bytesLeft := d.bytesLeft * 16 + DecodeHex(c), hexCount := d.hexCount + 1), [])
  {
    Pow16Grows(d.hexCount + 1, MAX_DIGITS);
    SizeRange();
  }

  lemma {:induction false} OneByteKeeps(d: Decoder, c: byte)
    requires WellFormed(d)
    ensures WellFormed(OneByte(d, c).d)
    ensures OneByte(d, c).d.consumeTrailer == d.consumeTrailer
  {
    if d.state == ChunkSize && DecodeHex(c) != -1 {
      if d.hexCount < MAX_DIGITS {
        SizeNeverWraps(d, c);
      }
    } else if d.state == ChunkSize {
      EndOfSizeKeeps(d, c);
    } else {
      LaterByteKeeps(d, c);
    }
  }

  lemma {:induction false} EndOfSizeKeeps(d: Decoder, c: byte)
    requires WellFormed(d) && d.state == ChunkSize && DecodeHex(c) == -1
    ensures WellFormed(OneByte(d, c).d)
    ensures OneByte(d, c).d.consumeTrailer == d.consumeTrailer
  {
  }

  lemma {:induction false} LaterByteKeeps(d: Decoder, c: byte)
    requires WellFormed(d) && d.state != ChunkSize
    ensures WellFormed(OneByte(d, c).d)
    ensures OneByte(d, c).d.consumeTrailer == d.consumeTrailer
  {
    assert Pow16(0) == 1;
  }

  lemma {:induction false} RunKeeps(d: Decoder, s: seq<byte>)
    requires WellFormed(d)
    ensures WellFormed(Run(d, s).d)
    decreases |s|
  {
    if s != [] {
      OneByteKeeps(d, s[0]);
      if OneByte(d, s[0]).Next? {
        RunKeeps(OneByte(d, s[0]).d, s[1..]);
      }
    }
  }

  /** Decoding never yields more bytes than it uses up, and "incomplete" means that all of
      the input was used up. */
  lemma {:induction false} RunBounds(d: Decoder, s: seq<byte>)
    ensures |Run(d, s).out| <= Run(d, s).consumed <= |s|
    ensures Run(d, s).verdict == Incomplete ==> Run(d, s).consumed == |s|
    decreases |s|
  {
    if s != [] && OneByte(d, s[0]).Next? {
      RunBounds(OneByte(d, s[0]).d, s[1..]);
    }
  }

  // ---- cutting the input -----------------------------------------------------------------

  /** Decoding `a` and then, if that was incomplete, `b`. */
  function TwoCalls(d: Decoder, a: seq<byte>, b: seq<byte>): Outcome {
    var r := Run(d, a);
    if r.verdict == Incomplete then After(r.out, r.consumed, Run(r.d, b)) else r
  }

  lemma {:induction false} SplittingDoesNotMatter(d: Decoder, a: seq<byte>, b: seq<byte>)
    ensures Run(d, a + b) == TwoCalls(d, a, b)
    decreases |a|
  {
    if a == [] {
      assert a + b == b;
      assert [] + Run(d, b).out == Run(d, b).out;
    } else {
      assert (a + b)[0] == a[0] && (a + b)[1..] == a[1..] + b;
      match OneByte(d, a[0])
      case Next(d', out) =>
        SplittingDoesNotMatter(d', a[1..], b);
        var r := Run(d', a[1..]);
        assert (out + r.out) + Run(r.d, b).out == out + (r.out + Run(r.d, b).out);
      case Stop(_, _, _) =>
    }
  }

  function Joined(parts: seq<seq<byte>>): seq<byte> {
    if parts == [] then [] else parts[0] + Joined(parts[1..])
  }

  /** Calls with the parts of an input, one after the other, until one is not incomplete. */
  function Calls(d: Decoder, parts: seq<seq<byte>>): Outcome
    decreases |parts|
  {
    if parts == [] then Outcome(d, [], 0, Incomplete)
    else
      var r := Run(d, parts[0]);
      if r.verdict == Incomplete then After(r.out, r.consumed, Calls(r.d, parts[1..])) else r
  }

  /** However an input is cut into calls, output, final state, verdict and number of bytes
      used up are those of one call. */
  lemma {:induction false} AnyCutIsOneCall(d: Decoder, parts: seq<seq<byte>>)
    ensures Calls(d, parts) == Run(d, Joined(parts))
    decreases |parts|
  {
    if parts != [] {
      SplittingDoesNotMatter(d, parts[0], Joined(parts[1..]));
      AnyCutIsOneCall(Run(d, parts[0]).d, parts[1..]);
    }
  }

  /** In the data of a chunk the machine copies bytes: here, fewer than are left of it. */
  lemma {:induction false} RunPartOfData(d: Decoder, s: seq<byte>)
    requires d.state == ChunkData && |s| < d.bytesLeft
    ensures Run(d, s) == Outcome(d.(bytesLeft := d.bytesLeft - |s|), s, |s|, Incomplete)
    decreases |s|
  {
    if s != [] {
      assert s == [s[0]] + s[1..];
      RunPartOfData(d.(bytesLeft := d.bytesLeft - 1), s[1..]);
    }
  }

  /** In the data of a chunk the machine copies bytes: here, all that are left of it. */
  lemma {:induction false} RunAllData(d: Decoder, data: seq<byte>, rest: seq<byte>)
    requires d.state == ChunkData && |data| == d.bytesLeft > 0
    ensures Run(d, data + rest) == After(data, |data|, Run(d.(bytesLeft := 0, state := ChunkCrlf), rest))
    decreases |data|
  {
    var s := data + rest;
    assert s[0] == data[0] && s[1..] == data[1..] + rest;
    var r := Run(d.(bytesLeft := 0, state := ChunkCrlf), rest);
    if |data| == 1 {
      assert data == [data[0]] && s[1..] == rest;
    } else {
      RunAllData(d.(bytesLeft := d.bytesLeft - 1), data[1..], rest);
      assert [data[0]] + (data[1..] + r.out) == data + r.out;
    }
  }
}
