/** The header parser's loops over a buffer, proved against the plain scans. */
module HeaderParser {
  import opened Common
  import opened HeaderGrammar

  /** The C result of a scan: the position after it, -1 or -2. */
  function Code<T>(r: Scan<T>): int {
    match r
    case Partial => -2
    case Bad => -1
    case Found(_, next) => next
  }

  /** get_token_to_eol: eight bytes at a time while they are printable, then byte by byte. */
  method GetTokenToEol(s: seq<byte>, start: nat) returns (ret: int, tokenLen: nat)
    requires start <= |s|
    ensures ret == Code(ValueEnd(s, start))
    ensures ret >= 0 ==> start + tokenLen == ValueEnd(s, start).value
  {
    tokenLen := 0;
    var buf := start;
    var foundCtl := false;
    while |s| - buf >= 8 && !foundCtl
      invariant start <= buf <= |s| && ValueEnd(s, buf) == ValueEnd(s, start)
      invariant foundCtl ==> buf < |s| && IsControl(s[buf])
      decreases |s| - buf, !foundCtl
    {
      var unrolled := 0;
      ghost var first := buf;
      while unrolled < 8 && IsPrintable(s[buf])
        invariant unrolled <= 8 && buf == first + unrolled
        invariant ValueEnd(s, buf) == ValueEnd(s, start)
      {
        buf, unrolled := buf + 1, unrolled + 1;
      }
      if unrolled < 8 {
        if (s[buf] < SP && s[buf] != HT) || s[buf] == DEL {
          foundCtl := true;
        } else {
          buf := buf + 1;
        }
      }
    }
    while !foundCtl
      invariant start <= buf <= |s| && ValueEnd(s, buf) == ValueEnd(s, start)
      invariant foundCtl ==> buf < |s| && IsControl(s[buf])
      decreases |s| - buf, !foundCtl
    {
      if buf == |s| {
        return -2, 0;
      }
      if !IsPrintable(s[buf]) && ((s[buf] < SP && s[buf] != HT) || s[buf] == DEL) {
        foundCtl := true;
      } else {
        buf := buf + 1;
      }
    }
    if s[buf] == CR {
      buf := buf + 1;
      if buf == |s| {
        return -2, 0;
      }
      if s[buf] != LF {
        return -1, 0;
      }
      tokenLen := buf - 1 - start;
      ret := buf + 1;
    } else if s[buf] == LF {
      tokenLen := buf - start;
      ret := buf + 1;
    } else {
      ret := -1;
    }
  }

  /** is_complete */
  method IsComplete(s: seq<byte>, lastLen: nat) returns (ret: int)
    requires lastLen <= |s|
    ensures ret == Code(BlankLine(s, if lastLen < 3 then 0 else lastLen - 3, 0))
  {
    var retCnt := 0;
    var buf := if lastLen < 3 then 0 else lastLen - 3;
    ghost var start := buf;
    while true
      invariant start <= buf <= |s| && 0 <= retCnt < 2
      invariant BlankLine(s, buf, retCnt) == BlankLine(s, start, 0)
      decreases |s| - buf
    {
      if buf == |s| {
        return -2;
      }
      if s[buf] == CR {
        buf := buf + 1;
        if buf == |s| {
          return -2;
        }
        if s[buf] != LF {
          return -1;
        }
        buf := buf + 1;
        retCnt := retCnt + 1;
      } else if s[buf] == LF {
        buf := buf + 1;
        retCnt := retCnt + 1;
      } else {
        buf := buf + 1;
        retCnt := 0;
      }
      if retCnt == 2 {
        return buf;
      }
    }
  }

  /** The part of parse_headers that reads a name, its colon and the blanks after it. */
  method ParseName(s: seq<byte>, start: nat) returns (ret: int, nameLen: nat)
    requires start < |s|
    ensures ret == if NameEnd(s, start).Found? && nameLen == 0 then -1
                   else if NameEnd(s, start).Found? then Code(SkipBlanks(s, start + nameLen + 1))
                   else Code(NameEnd(s, start))
    ensures NameEnd(s, start).Found? ==> start + nameLen == NameEnd(s, start).value < |s|
  {
    var buf := start;
    while s[buf] != COLON
      invariant start <= buf < |s| && NameEnd(s, buf) == NameEnd(s, start)
      decreases |s| - buf
    {
      if !IsToken(s[buf]) {
        return -1, 0;
      }
      buf := buf + 1;
      if buf == |s| {
        return -2, 0;
      }
    }
    nameLen := buf - start;
    if nameLen == 0 {
      return -1, 0;
    }
    buf := buf + 1;
    while true
      invariant start + nameLen + 1 <= buf <= |s| && SkipBlanks(s, buf) == SkipBlanks(s, start + nameLen + 1)
      decreases |s| - buf
    {
      if buf == |s| {
        return -2, nameLen;
      }
      if !IsBlank(s[buf]) {
        return buf, nameLen;
      }
      buf := buf + 1;
    }
  }

  /** The part of parse_headers that removes blanks at the end of a value. */
  method TrimBlanks(s: seq<byte>, value: nat, valueLen: nat) returns (len: nat)
    requires value + valueLen <= |s|
    ensures value + len == TrimEnd(s, value, value + valueLen)
  {
    var valueEnd := value + valueLen;
    while valueEnd != value
      invariant value <= valueEnd <= value + valueLen
      invariant TrimEnd(s, value, valueEnd) == TrimEnd(s, value, value + valueLen)
    {
      if !IsBlank(s[valueEnd - 1]) {
        break;
      }
      valueEnd := valueEnd - 1;
    }
    len := valueEnd - value;
  }

  /** The part of parse_headers that reads a value, without the blanks at its end. */
  method ParseValue(s: seq<byte>, start: nat) returns (ret: int, value: Slice)
    requires start <= |s|
    ensures ret == Code(ValueAt(s, start))
    ensures ret >= 0 ==> value == ValueAt(s, start).value
  {
    var next, valueLen := GetTokenToEol(s, start);
    if next < 0 {
      return next, Slice(start, 0);
    }
    ValueBounds(s, start);
    valueLen := TrimBlanks(s, start, valueLen);
    return next, Slice(start, valueLen);
  }

  /** The part of parse_headers that reads one header line. */
  method ParseHeader(s: seq<byte>, start: nat, first: bool) returns (ret: int, header: Field)
    requires start < |s|
    ensures ret == Code(HeaderAt(s, start, first))
    ensures ret >= 0 ==> header == HeaderAt(s, start, first).value
  {
    header := Field(None, Slice(start, 0));
    var buf := start;
    if !(!first && (s[buf] == SP || s[buf] == HT)) {
      var next, nameLen := ParseName(s, buf);
      if next < 0 {
        return next, header;
      }
      BlankBounds(s, buf + nameLen + 1);
      header := header.(name := Some(Slice(buf, nameLen)));
      buf := next;
    }
    var next, value := ParseValue(s, buf);
    return next, header.(value := value);
  }

  /** parse_headers: `headers` has room for as many headers as the caller allows. */
  method ParseHeaders(s: seq<byte>, headers: array<Field>) returns (ret: int, numHeaders: nat)
    modifies headers
    ensures numHeaders <= headers.Length
    ensures ret == Code(Headers(s, 0, 0, headers.Length))
    ensures ret >= 0 ==> headers[..numHeaders] == Headers(s, 0, 0, headers.Length).value
  {
    var buf := 0;
    numHeaders := 0;
    ghost var fs := [];
    NoneYet(s, headers.Length);
    while true
      invariant buf <= |s| && numHeaders <= headers.Length
      invariant fs == headers[..numHeaders] && SoFar(s, fs, buf, headers.Length)
      decreases |s| - buf
    {
      if buf == |s| {
        return -2, numHeaders;
      }
      if s[buf] == CR {
        buf := buf + 1;
        if buf == |s| {
          return -2, numHeaders;
        }
        if s[buf] != LF {
          return -1, numHeaders;
        }
        return buf + 1, numHeaders;
      } else if s[buf] == LF {
        return buf + 1, numHeaders;
      }
      if numHeaders == headers.Length {
        return -1, numHeaders;
      }
      var next, header := ParseHeader(s, buf, numHeaders == 0);
      if next < 0 {
        return next, numHeaders;
      }
      HeaderBounds(s, buf, numHeaders == 0);
      OneMore(s, fs, buf, headers.Length, header, next);
      headers[numHeaders] := header;
      numHeaders := numHeaders + 1;
      fs := fs + [header];
      buf := next;
    }
  }

  /** Where the loop of parse_headers stands: `fs` are the headers before position `p`, and
      the rest of the block adds to them. */
  ghost predicate SoFar(s: seq<byte>, fs: seq<Field>, p: nat, max: nat) {
    Headers(s, 0, 0, max)
    == match Headers(s, p, |fs|, max)
       case Partial => Partial
       case Bad => Bad
       case Found(more, end) => Found(fs + more, end)
  }

  lemma {:induction false} NoneYet(s: seq<byte>, max: nat)
    ensures SoFar(s, [], 0, max)
  {
    if Headers(s, 0, 0, max).Found? {
      assert [] + Headers(s, 0, 0, max).value == Headers(s, 0, 0, max).value;
    }
  }

  lemma {:induction false} OneMore(s: seq<byte>, fs: seq<Field>, p: nat, max: nat, f: Field, next: nat)
    requires p < |s| && s[p] != CR && s[p] != LF && |fs| != max && SoFar(s, fs, p, max)
    requires HeaderAt(s, p, |fs| == 0) == Found(f, next)
    ensures SoFar(s, fs + [f], next, max)
  {
    var rest := Headers(s, next, |fs| + 1, max);
    if rest.Found? {
      assert (fs + [f]) + rest.value == fs + ([f] + rest.value);
    }
  }

  /** phr_parse_headers */
  method PhrParseHeaders(s: seq<byte>, headers: array<Field>, lastLen: nat) returns (ret: int, numHeaders: nat)
    requires lastLen <= |s|
    modifies headers
    ensures numHeaders <= headers.Length
    ensures ret == Code(Block(s, headers.Length, lastLen))
    ensures ret >= 0 ==> headers[..numHeaders] == Block(s, headers.Length, lastLen).value
  {
    if lastLen != 0 {
      var r := IsComplete(s, lastLen);
      if r < 0 {
        return r, 0;
      }
    }
    ret, numHeaders := ParseHeaders(s, headers);
  }
}
