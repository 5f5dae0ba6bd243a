/** The in-place chunked decoder: it copies whole runs of chunk data down the buffer that
    holds the encoded input, and resumes across calls. */
module ChunkedDecoder {
  import opened Common
  import opened ChunkedMachine

  class PhrChunkedDecoder {
    var bytesLeftInChunk: nat
    var consumeTrailer: bool
    var hexCount: nat
    var state: State

    /** The decoder as a value of the byte machine. */
    function View(): Decoder
      reads this
    {
      Decoder(bytesLeftInChunk, consumeTrailer, hexCount, state)
    }

    /** A decoder whose fields are all zero, apart from the choice to consume the trailer. */
    constructor (consume: bool)
      ensures View() == Start(consume)
    {
      bytesLeftInChunk, consumeTrailer, hexCount, state := 0, consume, 0, ChunkSize;
    }

    /** phr_decode_chunked: returns what the C function returns and the new value of `*bufsz`. */
    method Decode(buf: array<byte>, bufsz: nat) returns (ret: int, size: nat)
      requires bufsz <= buf.Length && WellFormed(View())
      modifies this, buf
      ensures WellFormed(View())
      ensures
        var input := old(buf[..bufsz]);
        var r := Run(old(View()), input);
        && View() == r.d
        && size == |r.out| <= r.consumed <= bufsz
        && buf[..size] == r.out
        && buf[size..size + (bufsz - r.consumed)] == input[r.consumed..]
        && ret == match r.verdict
                  case Incomplete => -2
                  case Failed => -1
                  case Complete => bufsz - r.consumed
      ensures forall k :: bufsz <= k < buf.Length ==> buf[k] == old(buf[k])
    {
      ghost var input := buf[..bufsz];
      RunKeeps(View(), input);
      RunBounds(View(), input);
      var src;
      ret, src, size := Scan(buf, bufsz);
      assert buf[src..bufsz] == input[src..];
      MoveDown(buf, size, src, bufsz - src);
      assert buf[..size + (bufsz - src)][size..] == input[src..];
      assert buf[..size + (bufsz - src)][..size] == buf[..size];
    }

    /** The loop of phr_decode_chunked, up to its exit: `src` is how far the input was read
        and `dst` how far the output was written. A state's case falls through to the next
        case by setting the next state. */
    method Scan(buf: array<byte>, bufsz: nat) returns (ret: int, src: nat, dst: nat)
      requires bufsz <= buf.Length && WellFormed(View())
      modifies this, buf
      ensures dst <= src <= bufsz
      ensures Ended(Run(old(View()), old(buf[..bufsz])), old(buf[..bufsz]), buf[..dst], src, View(), ret)
      ensures forall k :: src <= k < buf.Length ==> buf[k] == old(buf[k])
    {
      ghost var input := buf[..bufsz];
      ghost var whole := Run(View(), input);
      src, dst := 0, 0;
      assert After([], 0, whole).out == whole.out;
      var stop;
      while true
        invariant dst <= src <= bufsz
        invariant InStep(whole, input, buf[..dst], src, View())
        invariant forall k :: src <= k < buf.Length ==> buf[k] == old(buf[k])
        decreases bufsz - src
      {
        if state in {TrailersLineHead, TrailersLineMiddle} {
          stop, ret, src := InTrailers(buf, bufsz, src, whole, input, buf[..dst]);
        } else {
          stop, ret, src, dst := InChunk(buf, bufsz, src, dst, whole, input);
        }
        if stop {
          return;
        }
      }
    }

    /** The cases of the switch for chunks, each falling through to the next. */
    method InChunk(buf: array<byte>, bufsz: nat, from: nat, to: nat, ghost whole: Outcome, ghost input: seq<byte>)
      returns (stop: bool, ret: int, src: nat, dst: nat)
      requires to <= from && Unread(buf, bufsz, from, input)
      requires state in {ChunkSize, ChunkExt, ChunkData, ChunkCrlf} && InStep(whole, input, buf[..to], from, View())
      modifies this, buf
      ensures from <= src <= bufsz && dst <= src
      ensures stop ==> Ended(whole, input, buf[..dst], src, View(), ret)
      ensures !stop ==> from < src && InStep(whole, input, buf[..dst], src, View())
      ensures forall k :: src <= k < buf.Length ==> buf[k] == old(buf[k])
    {
      src, dst, stop := from, to, false;
      if state == ChunkSize {
        stop, ret, src := InChunkSize(buf, bufsz, src, whole, input, buf[..dst]);
        if stop { return; }
      }
      if state == ChunkExt {
        stop, ret, src := InChunkExt(buf, bufsz, src, whole, input, buf[..dst]);
        if stop || state == TrailersLineHead { return; }
      }
      if state == ChunkData {
        stop, ret, src, dst := InChunkData(buf, bufsz, src, dst, whole, input);
        if stop { return; }
      }
      stop, ret, src := InChunkCrlf(buf, bufsz, src, whole, input, buf[..dst]);
    }

    /** The cases of the switch for the trailer. */
    method InTrailers(
      buf: array<byte>, bufsz: nat, from: nat, ghost whole: Outcome, ghost input: seq<byte>, ghost out: seq<byte>)
      returns (stop: bool, ret: int, src: nat)
      requires Unread(buf, bufsz, from, input)
      requires state in {TrailersLineHead, TrailersLineMiddle} && InStep(whole, input, out, from, View())
      modifies this
      ensures from <= src <= bufsz
      ensures stop ==> Ended(whole, input, out, src, View(), ret)
      ensures !stop ==> from < src && InStep(whole, input, out, src, View())
    {
      src, stop := from, false;
      if state == TrailersLineHead {
        stop, ret, src := InTrailersLineHead(buf, bufsz, src, whole, input, out);
        if stop { return; }
      }
      stop, ret, src := InTrailersLineMiddle(buf, bufsz, src, whole, input, out);
    }

    // Each case of the switch: it stops as the byte machine does, or it moves on.

    method InChunkSize(
      buf: array<byte>, bufsz: nat, from: nat, ghost whole: Outcome, ghost input: seq<byte>, ghost out: seq<byte>)
      returns (stop: bool, ret: int, src: nat)
      requires Unread(buf, bufsz, from, input)
      requires state == ChunkSize && InStep(whole, input, out, from, View())
      modifies this
      ensures from <= src <= bufsz
      ensures stop ==> Ended(whole, input, out, src, View(), ret)
      ensures !stop ==> state == ChunkExt && src < bufsz && InStep(whole, input, out, src, View())
    {
      src, stop, ret := from, false, -2;
      while true
        invariant state == ChunkSize && from <= src && InStep(whole, input, out, src, View())
        decreases bufsz - src
      {
        if src == bufsz {
          AtEnd(whole, input, out, src, View());
          return true, -2, src;
        }
        var v := DecodeHex(buf[src]);
        if v == -1 {
          if hexCount == 0 {
            ReadOne(whole, input, out, src, View());
            return true, -1, src;
          }
          break;
        }
        if hexCount == MAX_DIGITS {
          ReadOne(whole, input, out, src, View());
          return true, -1, src;
        }
        AddDigit(v, whole, input, out, src);
        src := src + 1;
      }
      EndOfDigits(input, src, View());
      hexCount := 0;
      state := ChunkExt;
    }

    method AddDigit(v: nat, ghost whole: Outcome, ghost input: seq<byte>, ghost out: seq<byte>, ghost src: nat)
      requires state == ChunkSize && InStep(whole, input, out, src, View())
      requires src < |input| && DecodeHex(input[src]) == v && hexCount < MAX_DIGITS
      modifies this
      ensures state == ChunkSize && InStep(whole, input, out, src + 1, View())
    {
      ReadDigit(whole, input, out, src, View());
      bytesLeftInChunk := AppendDigit(bytesLeftInChunk, v);
      hexCount := hexCount + 1;
    }

    method InChunkExt(
      buf: array<byte>, bufsz: nat, from: nat, ghost whole: Outcome, ghost input: seq<byte>, ghost out: seq<byte>)
      returns (stop: bool, ret: int, src: nat)
      requires Unread(buf, bufsz, from, input)
      requires state == ChunkExt && InStep(whole, input, out, from, View())
      modifies this
      ensures from < src <= bufsz || (stop && src == from)
      ensures stop ==> Ended(whole, input, out, src, View(), ret)
      ensures !stop ==> state in {TrailersLineHead, ChunkData} && InStep(whole, input, out, src, View())
    {
      src, stop, ret := from, false, -2;
      while true
        invariant state == ChunkExt && from <= src && InStep(whole, input, out, src, View())
        decreases bufsz - src
      {
        if src == bufsz {
          AtEnd(whole, input, out, src, View());
          return true, -2, src;
        }
        ReadOne(whole, input, out, src, View());
        if buf[src] == LF {
          break;
        }
        src := src + 1;
      }
      src := src + 1;
      if bytesLeftInChunk == 0 {
        if consumeTrailer {
          state := TrailersLineHead;
          return;
        } else {
          return true, bufsz - src, src;
        }
      }
      state := ChunkData;
    }

    method InChunkData(buf: array<byte>, bufsz: nat, from: nat, to: nat, ghost whole: Outcome, ghost input: seq<byte>)
      returns (stop: bool, ret: int, src: nat, dst: nat)
      requires to <= from && Unread(buf, bufsz, from, input)
      requires state == ChunkData && InStep(whole, input, buf[..to], from, View())
      modifies this, buf
      ensures from <= src <= bufsz && dst <= src
      ensures stop ==> Ended(whole, input, buf[..dst], src, View(), ret)
      ensures !stop ==> state == ChunkCrlf && from < src && InStep(whole, input, buf[..dst], src, View())
      ensures forall k :: src <= k < buf.Length ==> buf[k] == old(buf[k])
    {
      var avail := bufsz - from;
      if avail < bytesLeftInChunk {
        CopyRest(buf, bufsz, from, to, whole, input);
        stop, ret, src, dst := true, -2, bufsz, to + avail;
      } else {
        src, dst := from + bytesLeftInChunk, to + bytesLeftInChunk;
        CopyChunk(buf, bufsz, from, to, whole, input);
        stop, ret := false, -2;
      }
    }

    /** All of the unread input belongs to the current chunk, which is not complete with it. */
    method CopyRest(buf: array<byte>, bufsz: nat, src: nat, dst: nat, ghost whole: Outcome, ghost input: seq<byte>)
      requires dst <= src && Unread(buf, bufsz, src, input) && bufsz - src < bytesLeftInChunk
      requires state == ChunkData && InStep(whole, input, buf[..dst], src, View())
      modifies this, buf
      ensures Ended(whole, input, buf[..dst + (bufsz - src)], bufsz, View(), -2)
      ensures forall k :: bufsz <= k < buf.Length ==> buf[k] == old(buf[k])
    {
      CopyPart(whole, input, buf[..dst], src, View());
      MoveInput(buf, dst, src, bufsz - src, input);
      bytesLeftInChunk := bytesLeftInChunk - (bufsz - src);
    }

    /** The rest of the current chunk is in the unread input. */
    method CopyChunk(buf: array<byte>, bufsz: nat, src: nat, dst: nat, ghost whole: Outcome, ghost input: seq<byte>)
      requires dst <= src && Unread(buf, bufsz, src, input) && bufsz - src >= bytesLeftInChunk
      requires state == ChunkData && InStep(whole, input, buf[..dst], src, View())
      modifies this, buf
      ensures dst + old(bytesLeftInChunk) <= buf.Length
      ensures state == ChunkCrlf
      ensures InStep(whole, input, buf[..dst + old(bytesLeftInChunk)], src + old(bytesLeftInChunk), View())
      ensures forall k :: src + old(bytesLeftInChunk) <= k < buf.Length ==> buf[k] == old(buf[k])
    {
      CopyAll(whole, input, buf[..dst], src, View());
      MoveChunk(buf, src, dst, input);
    }

    /** The stores that move the rest of the current chunk. */
    method MoveChunk(buf: array<byte>, src: nat, dst: nat, ghost input: seq<byte>)
      requires dst <= src && src + bytesLeftInChunk <= |input| && Unread(buf, |input|, src, input)
      modifies this, buf
      ensures dst + old(bytesLeftInChunk) <= buf.Length
      ensures View() == old(View()).(bytesLeft := 0, state := ChunkCrlf)
      ensures buf[..dst + old(bytesLeftInChunk)] == old(buf[..dst]) + input[src..src + old(bytesLeftInChunk)]
      ensures forall k :: src + old(bytesLeftInChunk) <= k < buf.Length ==> buf[k] == old(buf[k])
    {
      MoveInput(buf, dst, src, bytesLeftInChunk, input);
      bytesLeftInChunk := 0;
      state := ChunkCrlf;
    }

    method InChunkCrlf(
      buf: array<byte>, bufsz: nat, from: nat, ghost whole: Outcome, ghost input: seq<byte>, ghost out: seq<byte>)
      returns (stop: bool, ret: int, src: nat)
      requires Unread(buf, bufsz, from, input)
      requires state == ChunkCrlf && InStep(whole, input, out, from, View())
      modifies this
      ensures from <= src <= bufsz
      ensures stop ==> Ended(whole, input, out, src, View(), ret)
      ensures !stop ==> state == ChunkSize && from < src && InStep(whole, input, out, src, View())
    {
      src, stop, ret := from, false, -2;
      while true
        invariant state == ChunkCrlf && from <= src && InStep(whole, input, out, src, View())
        decreases bufsz - src
      {
        if src == bufsz {
          AtEnd(whole, input, out, src, View());
          return true, -2, src;
        }
        ReadOne(whole, input, out, src, View());
        if buf[src] != CR {
          break;
        }
        src := src + 1;
      }
      if buf[src] != LF {
        return true, -1, src;
      }
      src := src + 1;
      state := ChunkSize;
    }

    method InTrailersLineHead(
      buf: array<byte>, bufsz: nat, from: nat, ghost whole: Outcome, ghost input: seq<byte>, ghost out: seq<byte>)
      returns (stop: bool, ret: int, src: nat)
      requires Unread(buf, bufsz, from, input)
      requires state == TrailersLineHead && InStep(whole, input, out, from, View())
      modifies this
      ensures from <= src <= bufsz
      ensures stop ==> Ended(whole, input, out, src, View(), ret)
      ensures !stop ==> state == TrailersLineMiddle && from < src && InStep(whole, input, out, src, View())
    {
      src, stop, ret := from, false, -2;
      while true
        invariant state == TrailersLineHead && from <= src && InStep(whole, input, out, src, View())
        decreases bufsz - src
      {
        if src == bufsz {
          AtEnd(whole, input, out, src, View());
          return true, -2, src;
        }
        ReadOne(whole, input, out, src, View());
        if buf[src] != CR {
          break;
        }
        src := src + 1;
      }
      src := src + 1;
      if buf[src - 1] == LF {
        return true, bufsz - src, src;
      }
      state := TrailersLineMiddle;
    }

    method InTrailersLineMiddle(
      buf: array<byte>, bufsz: nat, from: nat, ghost whole: Outcome, ghost input: seq<byte>, ghost out: seq<byte>)
      returns (stop: bool, ret: int, src: nat)
      requires Unread(buf, bufsz, from, input)
      requires state == TrailersLineMiddle && InStep(whole, input, out, from, View())
      modifies this
      ensures from <= src <= bufsz
      ensures stop ==> Ended(whole, input, out, src, View(), ret)
      ensures !stop ==> state == TrailersLineHead && from < src && InStep(whole, input, out, src, View())
    {
      src, stop, ret := from, false, -2;
      while true
        invariant state == TrailersLineMiddle && from <= src && InStep(whole, input, out, src, View())
        decreases bufsz - src
      {
        if src == bufsz {
          AtEnd(whole, input, out, src, View());
          return true, -2, src;
        }
        ReadOne(whole, input, out, src, View());
        if buf[src] == LF {
          break;
        }
        src := src + 1;
      }
      src := src + 1;
      state := TrailersLineHead;
    }
  }

  /** The copy of unread input behind the output so far. */
  method MoveInput(buf: array<byte>, dst: nat, src: nat, n: nat, ghost input: seq<byte>)
    requires dst <= src && src + n <= |input| && Unread(buf, |input|, src, input)
    modifies buf
    ensures buf[..dst + n] == old(buf[..dst]) + input[src..src + n]
    ensures forall k :: src + n <= k < buf.Length ==> buf[k] == old(buf[k])
  {
    assert buf[src..src + n] == input[src..src + n];
    MoveDown(buf, dst, src, n);
  }

  /** From `src` on, the buffer still holds the input. */
  ghost predicate Unread(buf: array<byte>, bufsz: nat, src: nat, input: seq<byte>)
    reads buf
  {
    src <= bufsz <= buf.Length && |input| == bufsz && forall k :: src <= k < bufsz ==> buf[k] == input[k]
  }

  /** Where the loop stands: with `out` written and `src` bytes read, the machine continued
      from decoder `d` ends in `whole`, which is what it yields on the whole input. */
  ghost predicate InStep(whole: Outcome, input: seq<byte>, out: seq<byte>, src: nat, d: Decoder) {
    src <= |input| && WellFormed(d) && whole == After(out, src, Run(d, input[src..]))
  }

  /** The loop has ended as the machine does on the whole input. */
  ghost predicate Ended(whole: Outcome, input: seq<byte>, out: seq<byte>, src: nat, d: Decoder, ret: int) {
    && whole.d == d && whole.out == out && whole.consumed == src <= |input|
    && ret == match whole.verdict
              case Incomplete => -2
              case Failed => -1
              case Complete => |input| - src
  }

  /** The machine on the unread input, one byte further. */
  lemma {:induction false} ReadOne(whole: Outcome, input: seq<byte>, out: seq<byte>, src: nat, d: Decoder)
    requires src < |input| && InStep(whole, input, out, src, d)
    ensures
      match OneByte(d, input[src])
      case Next(d', o) => InStep(whole, input, out + o, src + 1, d') && out + [] == out
      case Stop(d', Failed, n) => Ended(whole, input, out, src + n, d', -1)
      case Stop(d', Complete, n) => Ended(whole, input, out, src + n, d', |input| - src - n)
      case Stop(_, Incomplete, _) => false
  {
    OneByteKeeps(d, input[src]);
    assert input[src..][1..] == input[src + 1..];
    match OneByte(d, input[src])
    case Next(d', o) =>
      assert out + (o + Run(d', input[src + 1..]).out) == (out + o) + Run(d', input[src + 1..]).out;
    case Stop(_, _, _) =>
      assert out + [] == out;
  }

  lemma {:induction false} ReadDigit(whole: Outcome, input: seq<byte>, out: seq<byte>, src: nat, d: Decoder)
    requires src < |input| && InStep(whole, input, out, src, d)
    requires d.state == ChunkSize && d.hexCount < MAX_DIGITS && DecodeHex(input[src]) != -1
    ensures d.bytesLeft * 16 + DecodeHex(input[src]) < U64
    ensures InStep(whole, input, out, src + 1,
              d.(bytesLeft := d.bytesLeft * 16 + DecodeHex(input[src]), hexCount := d.hexCount + 1))
  {
    SizeNeverWraps(d, input[src]);
    ReadOne(whole, input, out, src, d);
  }

  lemma {:induction false} AtEnd(whole: Outcome, input: seq<byte>, out: seq<byte>, src: nat, d: Decoder)
    requires src == |input| && InStep(whole, input, out, src, d)
    ensures Ended(whole, input, out, src, d, -2)
  {
    assert out + [] == out;
  }

  /** After the last digit the machine reads the same byte as part of the extension. */
  lemma {:induction false} EndOfDigits(input: seq<byte>, src: nat, d: Decoder)
    requires src < |input| && WellFormed(d) && d.state == ChunkSize && DecodeHex(input[src]) == -1 && d.hexCount > 0
    ensures Run(d, input[src..]) == Run(d.(hexCount := 0, state := ChunkExt), input[src..])
  {
    assert input[src..][0] == input[src];
  }

  lemma {:induction false} CopyPart(whole: Outcome, input: seq<byte>, out: seq<byte>, src: nat, d: Decoder)
    requires InStep(whole, input, out, src, d) && d.state == ChunkData && |input| - src < d.bytesLeft
    ensures Ended(whole, input, out + input[src..src + (|input| - src)], |input|,
              d.(bytesLeft := d.bytesLeft - (|input| - src)), -2)
  {
    RunPartOfData(d, input[src..]);
  }

  lemma {:induction false} CopyAll(whole: Outcome, input: seq<byte>, out: seq<byte>, src: nat, d: Decoder)
    requires InStep(whole, input, out, src, d) && d.state == ChunkData && |input| - src >= d.bytesLeft
    ensures InStep(whole, input, out + input[src..src + d.bytesLeft], src + d.bytesLeft,
              d.(bytesLeft := 0, state := ChunkCrlf))
  {
    var data, rest := input[src..src + d.bytesLeft], input[src + d.bytesLeft..];
    assert input[src..] == data + rest;
    RunAllData(d, data, rest);
    var r := Run(d.(bytesLeft := 0, state := ChunkCrlf), rest);
    assert out + (data + r.out) == (out + data) + r.out;
  }

  /** memmove of `n` bytes within one buffer towards its front, skipped when there is nothing
      to move. */
  method MoveDown(buf: array<byte>, dst: nat, src: nat, n: nat)
    requires dst <= src && src + n <= buf.Length
    modifies buf
    ensures buf[..dst + n] == old(buf[..dst]) + old(buf[src..src + n])
    ensures forall k :: dst + n <= k < buf.Length ==> buf[k] == old(buf[k])
  {
    if dst != src {
      forall k | 0 <= k < n {
        buf[dst + k] := buf[src + k];
      }
    }
  }
}
