/** Header blocks (section 3.2 of RFC 7230) read by plain scans, one byte after the other:
    the reference for the header parser, and what holds of it when input arrives in pieces. */
module HeaderGrammar {
  import opened Common

  const HT: byte := 9
  const LF: byte := 10
  const CR: byte := 13
  const SP: byte := 32
  const COLON: byte := 58
  const DEL: byte := 127

  /** Where a piece of the input starts, and its length: a C pointer and its size. */
  datatype Slice = Slice(start: nat, len: nat)

  /** One parsed header; a continuation line has no name. */
  datatype Field = Field(name: Option<Slice>, value: Slice)

  /** What a scan finds: more input is needed (-2), the input is malformed (-1), or a value
      and the position after it. */
  datatype Scan<+T> = Partial | Bad | Found(value: T, next: nat)

  predicate IsBlank(c: byte) {
    c == SP || c == HT
  }

  /** IS_PRINTABLE_ASCII */
  predicate IsPrintable(c: byte) {
    SP <= c < DEL
  }

  /** The bytes that end a header value: all controls but HT. */
  predicate IsControl(c: byte) {
    (c < SP && c != HT) || c == DEL
  }

  /** token_char_map */
  predicate IsToken(c: byte) {
    || '0' as byte <= c <= '9' as byte
    || 'A' as byte <= c <= 'Z' as byte
    || 'a' as byte <= c <= 'z' as byte
    || c in {33, 35, 36, 37, 38, 39, 42, 43, 45, 46, 94, 95, 96, 124, 126}
  }

  // ---- the scans -------------------------------------------------------------------------

  /** The colon that ends a header name. */
  function NameEnd(s: seq<byte>, p: nat): Scan<nat>
    decreases |s| - p
  {
    if p >= |s| then Partial
    else if s[p] == COLON then Found(p, p)
    else if !IsToken(s[p]) then Bad
    else NameEnd(s, p + 1)
  }

  /** The first byte that is not a blank. */
  function SkipBlanks(s: seq<byte>, p: nat): Scan<nat>
    decreases |s| - p
  {
    if p >= |s| then Partial
    else if !IsBlank(s[p]) then Found(p, p)
    else SkipBlanks(s, p + 1)
  }

  /** A line end, as CR LF or as LF alone. */
  function LineEnd(s: seq<byte>, p: nat): Scan<nat>
    requires p < |s|
  {
    if s[p] == CR then
      if p + 1 >= |s| then Partial else if s[p + 1] == LF then Found(p, p + 2) else Bad
    else if s[p] == LF then Found(p, p + 1)
    else Bad
  }

  /** The end of a header value. */
  function ValueEnd(s: seq<byte>, p: nat): Scan<nat>
    decreases |s| - p
  {
    if p >= |s| then Partial
    else if IsControl(s[p]) then LineEnd(s, p)
    else ValueEnd(s, p + 1)
  }

  function TrimEnd(s: seq<byte>, lo: nat, hi: nat): (r: nat)
    requires lo <= hi <= |s|
    ensures lo <= r <= hi
    ensures r > lo ==> !IsBlank(s[r - 1])
    ensures forall k :: r <= k < hi ==> IsBlank(s[k])
  {
    if hi > lo && IsBlank(s[hi - 1]) then TrimEnd(s, lo, hi - 1) else hi
  }

  /** The value that starts at `p`, without the blanks at its end. */
  function ValueAt(s: seq<byte>, p: nat): Scan<Slice> {
    match ValueEnd(s, p)
    case Partial => Partial
    case Bad => Bad
    case Found(end, next) =>
      ValueBounds(s, p);
      Found(Slice(p, TrimEnd(s, p, end) - p), next)
  }

  /** The header line at `p`; a line that starts with a blank continues the one before. */
  function HeaderAt(s: seq<byte>, p: nat, first: bool): Scan<Field>
    requires p < |s|
  {
    if !first && IsBlank(s[p]) then
      match ValueAt(s, p)
      case Partial => Partial
      case Bad => Bad
      case Found(v, next) => Found(Field(None, v), next)
    else
      match NameEnd(s, p)
      case Partial => Partial
      case Bad => Bad
      case Found(colon, _) =>
        if colon == p then Bad
        else
          match SkipBlanks(s, colon + 1)
          case Partial => Partial
          case Bad => Bad
          case Found(v, _) =>
            match ValueAt(s, v)
            case Partial => Partial
            case Bad => Bad
            case Found(value, next) =>
              NameBounds(s, p);
              Found(Field(Some(Slice(p, colon - p)), value), next)
  }

  /** The headers from `p` up to and including the empty line, with `n` of at most `max`
      headers already read. */
  function Headers(s: seq<byte>, p: nat, n: nat, max: nat): Scan<seq<Field>>
    decreases |s| - p
  {
    if p >= |s| then Partial
    else if s[p] == CR || s[p] == LF then
      match LineEnd(s, p)
      case Partial => Partial
      case Bad => Bad
      case Found(_, next) => Found([], next)
    else if n == max then Bad
    else
      match HeaderAt(s, p, n == 0)
      case Partial => Partial
      case Bad => Bad
      case Found(f, next) =>
        HeaderBounds(s, p, n == 0);
        match Headers(s, next, n + 1, max)
        case Partial => Partial
        case Bad => Bad
        case Found(fs, end) => Found([f] + fs, end)
  }

  /** The end of the first two line ends in a row, of which `count` were just seen. */
  function BlankLine(s: seq<byte>, p: nat, count: nat): Scan<()>
    decreases |s| - p
  {
    if p >= |s| then Partial
    else if s[p] == CR || s[p] == LF then
      match LineEnd(s, p)
      case Partial => Partial
      case Bad => Bad
      case Found(_, next) => if count + 1 == 2 then Found((), next) else BlankLine(s, next, count + 1)
    else BlankLine(s, p + 1, 0)
  }

  /** The parse of a block of which an earlier call, if any, has seen `lastLen` bytes: it is
      attempted only when the unseen part may hold the end of the block. */
  function Block(s: seq<byte>, max: nat, lastLen: nat): Scan<seq<Field>> {
    if lastLen != 0 then
      match BlankLine(s, if lastLen < 3 then 0 else lastLen - 3, 0)
      case Partial => Partial
      case Bad => Bad
      case Found(_, _) => Headers(s, 0, 0, max)
    else Headers(s, 0, 0, max)
  }

  // ---- where scans end -------------------------------------------------------------------

  lemma {:induction false} NameBounds(s: seq<byte>, p: nat)
    ensures var r := NameEnd(s, p);
      r.Found? ==> p <= r.value < |s| && s[r.value] == COLON && forall k :: p <= k < r.value ==> IsToken(s[k])
    decreases |s| - p
  {
    if p < |s| && s[p] != COLON && IsToken(s[p]) {
      NameBounds(s, p + 1);
    }
  }

  lemma {:induction false} BlankBounds(s: seq<byte>, p: nat)
    ensures var r := SkipBlanks(s, p);
      !r.Bad? && (r.Found? ==>
        p <= r.value == r.next < |s| && !IsBlank(s[r.value]) && forall k :: p <= k < r.value ==> IsBlank(s[k]))
    decreases |s| - p
  {
    if p < |s| && IsBlank(s[p]) {
      BlankBounds(s, p + 1);
    }
  }

  lemma {:induction false} ValueBounds(s: seq<byte>, p: nat)
    ensures var r := ValueEnd(s, p);
      r.Found? ==> && p <= r.value < r.next <= |s| && LineEnd(s, r.value) == r
                   && forall k :: p <= k < r.value ==> !IsControl(s[k])
    decreases |s| - p
  {
    if p < |s| && !IsControl(s[p]) {
      ValueBounds(s, p + 1);
    }
  }

  /** A header line is free of line ends up to the one that ends it. */
  lemma {:induction false} HeaderBounds(s: seq<byte>, p: nat, first: bool)
    requires p < |s|
    ensures var r := HeaderAt(s, p, first);
      r.Found? ==> p < r.next <= |s|
  {
    NameBounds(s, p);
    ValueBounds(s, p);
    if NameEnd(s, p).Found? {
      var c := NameEnd(s, p).value;
      BlankBounds(s, c + 1);
      if SkipBlanks(s, c + 1).Found? {
        ValueBounds(s, SkipBlanks(s, c + 1).value);
      }
    }
  }
}
