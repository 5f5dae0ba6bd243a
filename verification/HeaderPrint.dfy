/** Printing header blocks, and the proof that parsing gives back what was printed. */
module HeaderPrint {
  import opened Common
  import opened HeaderGrammar

  /** A header line as a sender may spell it: blanks around the value, and a line end of
      either form; a continuation line repeats no name. */
  datatype Line =
    | Named(name: seq<byte>, lead: seq<byte>, text: seq<byte>, trail: seq<byte>, eol: seq<byte>)
    | Continued(text: seq<byte>, trail: seq<byte>, eol: seq<byte>)

  /** A line end: CR LF, or LF alone. */
  predicate ValidEol(eol: seq<byte>) {
    eol == [Octet('\r'), Octet('\n')] || eol == [Octet('\n')]
  }

  predicate BlankByte(c: byte) {
    c == Octet(' ') || c == Octet('\t')
  }

  /** What a name is made of: visible ASCII without `"(),/:;<=>?@[\]{}`. */
  predicate NameByte(c: byte) {
    32 < c < 127 && c !in {34, 40, 41, 44, 47, 58, 59, 60, 61, 62, 63, 64, 91, 92, 93, 123, 125}
  }

  /** What a value is made of: tabs, printable ASCII, and bytes beyond ASCII. */
  predicate TextByte(c: byte) {
    c == 9 || 32 <= c < 127 || 127 < c
  }

  /** The parser's classes of bytes are these. */
  lemma {:induction false} ClassesAre(c: byte)
    ensures IsToken(c) <==> NameByte(c)
    ensures IsBlank(c) <==> BlankByte(c)
    ensures IsControl(c) <==> !TextByte(c)
    ensures c == CR <==> c == Octet('\r')
    ensures c == LF <==> c == Octet('\n')
  {
  }

  predicate Blanks(s: seq<byte>) {
    forall c :: c in s ==> BlankByte(c)
  }

  /** A value without control characters that does not end in a blank. */
  predicate ValidText(text: seq<byte>) {
    (forall c :: c in text ==> TextByte(c)) && (text != [] ==> !BlankByte(text[|text| - 1]))
  }

  predicate ValidName(name: seq<byte>) {
    name != [] && forall c :: c in name ==> NameByte(c)
  }

  predicate ValidLine(line: Line) {
    && ValidEol(line.eol) && Blanks(line.trail) && ValidText(line.text)
    && match line
       case Named(name, lead, text, _, _) =>
         ValidName(name) && Blanks(lead) && (text != [] ==> !BlankByte(text[0]))
       case Continued(text, trail, _) =>
         text + trail != [] && BlankByte((text + trail)[0])
  }

  function PrintLine(line: Line): seq<byte> {
    match line
    case Named(name, lead, text, trail, eol) => name + [Octet(':')] + lead + text + trail + eol
    case Continued(text, trail, eol) => text + trail + eol
  }

  /** The lines of a block and the empty line that ends it. */
  function PrintBlock(lines: seq<Line>, eol: seq<byte>): seq<byte> {
    if lines == [] then eol else PrintLine(lines[0]) + PrintBlock(lines[1..], eol)
  }

  /** The bytes of a slice. */
  function Bytes(s: seq<byte>, x: Slice): seq<byte>
    requires x.start + x.len <= |s|
  {
    s[x.start..x.start + x.len]
  }

  ghost predicate Inside(s: seq<byte>, x: Slice) {
    x.start + x.len <= |s|
  }

  /** A parsed header shows the name and the value that were printed. */
  ghost predicate Shows(s: seq<byte>, f: Field, line: Line) {
    && Inside(s, f.value) && Bytes(s, f.value) == line.text
    && match line
       case Named(name, _, _, _, _) =>
         f.name.Some? && Inside(s, f.name.value) && Bytes(s, f.name.value) == name
       case Continued(_, _, _) => f.name.None?
  }

  /** The bytes of `s` at `p` are `piece`. */
  ghost predicate At(s: seq<byte>, p: nat, piece: seq<byte>) {
    p + |piece| <= |s| && s[p..p + |piece|] == piece
  }

  lemma {:induction false} AtParts(s: seq<byte>, p: nat, a: seq<byte>, b: seq<byte>)
    requires At(s, p, a + b)
    ensures At(s, p, a) && At(s, p + |a|, b)
  {
    assert s[p..p + |a|] == (a + b)[..|a|];
    assert s[p + |a|..p + |a| + |b|] == (a + b)[|a|..];
  }

  lemma {:induction false} AtByte(s: seq<byte>, p: nat, piece: seq<byte>, k: nat)
    requires At(s, p, piece) && k < |piece|
    ensures s[p + k] == piece[k]
  {
    assert s[p..p + |piece|][k] == piece[k];
  }

  // ---- scans over a known stretch of bytes -------------------------------------------------

  lemma {:induction false} NameOver(s: seq<byte>, p: nat, end: nat)
    requires p <= end < |s| && s[end] == COLON && forall k :: p <= k < end ==> IsToken(s[k])
    ensures NameEnd(s, p) == Found(end, end)
    decreases end - p
  {
    if p < end {
      NameOver(s, p + 1, end);
    }
  }

  lemma {:induction false} BlanksOver(s: seq<byte>, p: nat, end: nat)
    requires p <= end < |s| && !IsBlank(s[end]) && forall k :: p <= k < end ==> IsBlank(s[k])
    ensures SkipBlanks(s, p) == Found(end, end)
    decreases end - p
  {
    if p < end {
      BlanksOver(s, p + 1, end);
    }
  }

  lemma {:induction false} ValueOver(s: seq<byte>, p: nat, end: nat, next: nat)
    requires p <= end < |s| && LineEnd(s, end) == Found(end, next) && forall k :: p <= k < end ==> !IsControl(s[k])
    ensures ValueEnd(s, p) == Found(end, next)
    decreases end - p
  {
    if p < end {
      ValueOver(s, p + 1, end, next);
    }
  }

  lemma {:induction false} TrimOver(s: seq<byte>, lo: nat, mid: nat, hi: nat)
    requires lo <= mid <= hi <= |s| && (mid > lo ==> !IsBlank(s[mid - 1]))
    requires forall k :: mid <= k < hi ==> IsBlank(s[k])
    ensures TrimEnd(s, lo, hi) == mid
  {
    if mid < hi {
      TrimOver(s, lo, mid, hi - 1);
    }
  }

  /** A text, blanks and a line end at `p` are read as that text. */
  lemma {:induction false} ValueOfText(s: seq<byte>, p: nat, text: seq<byte>, trail: seq<byte>, eol: seq<byte>)
    requires ValidText(text) && Blanks(trail) && ValidEol(eol)
    requires At(s, p, text + trail + eol)
    ensures ValueAt(s, p) == Found(Slice(p, |text|), p + |text| + |trail| + |eol|)
    ensures Bytes(s, Slice(p, |text|)) == text
  {
    var end := p + |text| + |trail|;
    AtParts(s, p, text + trail, eol);
    AtParts(s, p, text, trail);
    forall k | p <= k < end ensures !IsControl(s[k]) && (p + |text| <= k ==> IsBlank(s[k])) {
      if k < p + |text| {
        AtByte(s, p, text, k - p);
        assert text[k - p] in text;
      } else {
        AtByte(s, p + |text|, trail, k - p - |text|);
        assert trail[k - p - |text|] in trail;
      }
    }
    EolAt(s, end, eol);
    ValueOver(s, p, end, end + |eol|);
    if text != [] {
      AtByte(s, p, text, |text| - 1);
    }
    TrimOver(s, p, p + |text|, end);
    assert Bytes(s, Slice(p, |text|)) == text;
  }

  lemma {:induction false} NameAt(s: seq<byte>, p: nat, name: seq<byte>)
    requires At(s, p, name + [COLON]) && ValidName(name)
    ensures NameEnd(s, p) == Found(p + |name|, p + |name|) && Bytes(s, Slice(p, |name|)) == name
    ensures IsToken(s[p])
  {
    AtParts(s, p, name, [COLON]);
    forall k | p <= k < p + |name| ensures IsToken(s[k]) {
      AtByte(s, p, name, k - p);
      ClassesAre(name[k - p]);
      assert name[k - p] in name;
    }
    AtByte(s, p + |name|, [COLON], 0);
    NameOver(s, p, p + |name|);
  }

  lemma {:induction false} BlanksAt(s: seq<byte>, p: nat, lead: seq<byte>, rest: seq<byte>)
    requires At(s, p, lead + rest) && Blanks(lead) && rest != [] && !IsBlank(rest[0])
    ensures SkipBlanks(s, p) == Found(p + |lead|, p + |lead|) && At(s, p + |lead|, rest)
  {
    AtParts(s, p, lead, rest);
    forall k | p <= k < p + |lead| ensures IsBlank(s[k]) {
      AtByte(s, p, lead, k - p);
      assert lead[k - p] in lead;
    }
    AtByte(s, p + |lead|, rest, 0);
    BlanksOver(s, p, p + |lead|);
  }

  /** The name and the blanks of a header line at `p` are read up to its value. */
  lemma {:induction false} NameAndLead(s: seq<byte>, p: nat, name: seq<byte>, lead: seq<byte>, rest: seq<byte>)
    requires At(s, p, name + [COLON] + (lead + rest))
    requires ValidName(name) && Blanks(lead)
    requires rest != [] && !IsBlank(rest[0])
    ensures NameEnd(s, p) == Found(p + |name|, p + |name|) && Bytes(s, Slice(p, |name|)) == name
    ensures IsToken(s[p])
    ensures SkipBlanks(s, p + |name| + 1) == Found(p + |name| + 1 + |lead|, p + |name| + 1 + |lead|)
    ensures At(s, p + |name| + 1 + |lead|, rest)
  {
    AtParts(s, p, name + [COLON], lead + rest);
    NameAt(s, p, name);
    BlanksAt(s, p + |name| + 1, lead, rest);
  }

  /** A header line from the scans of its parts. */
  lemma {:induction false} HeaderOfParts(s: seq<byte>, p: nat, first: bool, colon: nat, v: nat, value: Slice, next: nat)
    requires p < colon && p < |s| && IsToken(s[p]) && NameEnd(s, p) == Found(colon, colon)
    requires SkipBlanks(s, colon + 1) == Found(v, v) && ValueAt(s, v) == Found(value, next)
    ensures HeaderAt(s, p, first) == Found(Field(Some(Slice(p, colon - p)), value), next)
  {
  }

  lemma {:induction false} HeaderContinued(s: seq<byte>, p: nat, value: Slice, next: nat)
    requires p < |s| && IsBlank(s[p]) && ValueAt(s, p) == Found(value, next)
    ensures HeaderAt(s, p, false) == Found(Field(None, value), next)
  {
  }

  /** A name, a colon and blanks, then a text with blanks and a line end after it. */
  lemma {:induction false} NamedAt(
    s: seq<byte>, p: nat, name: seq<byte>, lead: seq<byte>, text: seq<byte>, trail: seq<byte>, eol: seq<byte>,
    first: bool, f: Field, next: nat)
    requires
      var v := p + |name| + 1 + |lead|;
      f == Field(Some(Slice(p, |name|)), Slice(v, |text|)) && next == v + |text| + |trail| + |eol|
    requires ValidName(name) && Blanks(lead)
    requires ValidText(text) && Blanks(trail) && ValidEol(eol)
    requires text == [] ==> trail == []
    requires text != [] ==> !IsBlank(text[0])
    requires At(s, p, name + [COLON] + (lead + (text + trail + eol)))
    ensures var v := p + |name| + 1 + |lead|;
      && s[p] != CR && s[p] != LF
      && HeaderAt(s, p, first) == Found(f, next)
      && Inside(s, Slice(v, |text|)) && Bytes(s, Slice(v, |text|)) == text
      && Inside(s, Slice(p, |name|)) && Bytes(s, Slice(p, |name|)) == name
  {
    var rest := text + trail + eol;
    assert rest[0] == if text != [] then text[0] else eol[0];
    NameAndLead(s, p, name, lead, rest);
    var v := p + |name| + 1 + |lead|;
    ValueOfText(s, v, text, trail, eol);
    HeaderOfParts(s, p, first, p + |name|, v, Slice(v, |text|), next);
  }

  lemma {:induction false} Associated(a: seq<byte>, b: seq<byte>, c: seq<byte>, d: seq<byte>, e: seq<byte>)
    ensures a + b + c + d + e == a + (b + (c + d + e))
    ensures a + b + c + d + e == a + ((b + d) + ([] + [] + e)) || c != []
  {
    assert (b + c + d + e) == b + (c + d + e);
    if c == [] {
      assert (b + d) + ([] + [] + e) == b + c + d + e;
    }
  }

  /** The header that a line printed at `p` is read as. */
  function FieldAt(p: nat, line: Line): Field {
    match line
    case Continued(text, _, _) => Field(None, Slice(p, |text|))
    case Named(name, lead, text, trail, _) =>
      var v := p + |name| + 1 + |lead| + if text == [] then |trail| else 0;
      Field(Some(Slice(p, |name|)), Slice(v, |text|))
  }

  /** The bytes of a header line, grouped as they are read. */
  lemma {:induction false} NamedBytes(line: Line)
    requires line.Named?
    ensures line.text != [] ==>
      PrintLine(line) == line.name + [COLON] + (line.lead + (line.text + line.trail + line.eol))
    ensures line.text == [] ==>
      PrintLine(line) == line.name + [COLON] + ((line.lead + line.trail) + ([] + [] + line.eol))
    ensures |PrintLine(line)| == |line.name| + 1 + |line.lead| + |line.text| + |line.trail| + |line.eol|
  {
    Associated(line.name + [COLON], line.lead, line.text, line.trail, line.eol);
  }

  lemma {:induction false} NamedLine(s: seq<byte>, p: nat, line: Line, first: bool)
    requires ValidLine(line) && At(s, p, PrintLine(line)) && line.Named?
    ensures s[p] != CR && s[p] != LF
    ensures HeaderAt(s, p, first) == Found(FieldAt(p, line), p + |PrintLine(line)|)
    ensures Shows(s, FieldAt(p, line), line)
  {
    NamedBytes(line);
    var f, next := FieldAt(p, line), p + |PrintLine(line)|;
    if line.text == [] {
      NamedAt(s, p, line.name, line.lead + line.trail, [], [], line.eol, first, f, next);
    } else {
      NamedAt(s, p, line.name, line.lead, line.text, line.trail, line.eol, first, f, next);
    }
  }

  lemma {:induction false} ContinuedLine(s: seq<byte>, p: nat, line: Line)
    requires ValidLine(line) && At(s, p, PrintLine(line)) && line.Continued?
    ensures s[p] != CR && s[p] != LF
    ensures HeaderAt(s, p, false) == Found(FieldAt(p, line), p + |PrintLine(line)|)
    ensures Shows(s, FieldAt(p, line), line)
  {
    var Continued(text, trail, eol) := line;
    ValueOfText(s, p, text, trail, eol);
    AtParts(s, p, text + trail, eol);
    AtByte(s, p, text + trail, 0);
    HeaderContinued(s, p, Slice(p, |text|), p + |PrintLine(line)|);
  }

  /** A printed line is read as a header that shows it. */
  lemma {:induction false} HeaderOfLine(s: seq<byte>, p: nat, line: Line, first: bool)
    requires ValidLine(line) && At(s, p, PrintLine(line)) && (first ==> line.Named?)
    ensures p < |s| && s[p] != CR && s[p] != LF
    ensures HeaderAt(s, p, first) == Found(FieldAt(p, line), p + |PrintLine(line)|)
    ensures Shows(s, FieldAt(p, line), line)
  {
    assert |PrintLine(line)| > 0;
    if line.Named? {
      NamedLine(s, p, line, first);
    } else {
      ContinuedLine(s, p, line);
    }
  }

  lemma {:induction false} EolAt(s: seq<byte>, p: nat, eol: seq<byte>)
    requires ValidEol(eol) && At(s, p, eol)
    ensures p < |s| && (s[p] == CR || s[p] == LF) && LineEnd(s, p) == Found(p, p + |eol|)
  {
    AtByte(s, p, eol, 0);
    if |eol| == 2 {
      AtByte(s, p, eol, 1);
    }
  }

  /** The lines without what ends the block. */
  function PrintLines(lines: seq<Line>): seq<byte> {
    if lines == [] then [] else PrintLine(lines[0]) + PrintLines(lines[1..])
  }

  lemma {:induction false} OneMoreLine(lines: seq<Line>, line: Line)
    ensures PrintLines(lines + [line]) == PrintLines(lines) + PrintLine(line)
    decreases |lines|
  {
    if lines == [] {
      assert [] + [line] == [line];
    } else {
      assert (lines + [line])[1..] == lines[1..] + [line];
      OneMoreLine(lines[1..], line);
      Regrouped(PrintLine(lines[0]), PrintLines(lines[1..]), PrintLine(line));
    }
  }

  lemma {:induction false} SplitBlock(a: seq<Line>, b: seq<Line>, eol: seq<byte>)
    ensures PrintBlock(a + b, eol) == PrintLines(a) + PrintBlock(b, eol)
    decreases |a|
  {
    if a == [] {
      assert a + b == b;
    } else {
      assert (a + b)[1..] == a[1..] + b;
      SplitBlock(a[1..], b, eol);
      Regrouped(PrintLine(a[0]), PrintLines(a[1..]), PrintBlock(b, eol));
    }
  }

  lemma {:induction false} FirstLine(line: Line, lines: seq<Line>, eol: seq<byte>)
    ensures PrintBlock([line] + lines, eol) == PrintLine(line) + PrintBlock(lines, eol)
  {
    assert ([line] + lines)[1..] == lines;
  }

  lemma {:induction false} Regrouped(a: seq<byte>, b: seq<byte>, c: seq<byte>)
    ensures a + (b + c) == (a + b) + c
  {
  }

  /** Where line `i` of a block printed at `p` begins. */
  function StartOf(p: nat, lines: seq<Line>, i: nat): nat
    requires i <= |lines|
  {
    p + |PrintLines(lines[..i])|
  }

  lemma {:induction false} NextStart(p: nat, lines: seq<Line>, i: nat)
    requires i < |lines|
    ensures StartOf(p, lines, i + 1) == StartOf(p, lines, i) + |PrintLine(lines[i])|
  {
    assert lines[..i + 1] == lines[..i] + [lines[i]];
    OneMoreLine(lines[..i], lines[i]);
  }

  lemma {:induction false} RestOfBlockAt(s: seq<byte>, p: nat, lines: seq<Line>, eol: seq<byte>, i: nat)
    requires At(s, p, PrintBlock(lines, eol)) && i <= |lines|
    ensures At(s, StartOf(p, lines, i), PrintBlock(lines[i..], eol))
    ensures StartOf(p, lines, i) + |PrintBlock(lines[i..], eol)| == p + |PrintBlock(lines, eol)|
  {
    assert lines == lines[..i] + lines[i..];
    SplitBlock(lines[..i], lines[i..], eol);
    AtParts(s, p, PrintLines(lines[..i]), PrintBlock(lines[i..], eol));
  }

  lemma {:induction false} LineAt(s: seq<byte>, p: nat, lines: seq<Line>, eol: seq<byte>, i: nat)
    requires At(s, p, PrintBlock(lines, eol)) && i < |lines|
    ensures At(s, StartOf(p, lines, i), PrintLine(lines[i]))
  {
    RestOfBlockAt(s, p, lines, eol, i);
    Unshift(lines, i);
    FirstLine(lines[i], lines[i + 1..], eol);
    AtParts(s, StartOf(p, lines, i), PrintLine(lines[i]), PrintBlock(lines[i + 1..], eol));
  }

  /** The headers that a block printed at the start of the input is read as. */
  function FieldsOf(lines: seq<Line>): (fs: seq<Field>)
    ensures |fs| == |lines|
  {
    seq(|lines|, i requires 0 <= i < |lines| => FieldAt(StartOf(0, lines, i), lines[i]))
  }

  /** Where the lines of a block at the start of the input begin, and where the block ends. */
  function StartsOf(lines: seq<Line>): (starts: seq<nat>)
    ensures |starts| == |lines| + 1
  {
    seq(|lines| + 1, i requires 0 <= i <= |lines| => StartOf(0, lines, i))
  }

  lemma {:induction false} EveryLineRead(s: seq<byte>, lines: seq<Line>, eol: seq<byte>, i: nat)
    requires (forall line :: line in lines ==> ValidLine(line)) && i < |lines| && lines[0].Named?
    requires At(s, 0, PrintBlock(lines, eol))
    ensures ReadAt(s, StartsOf(lines), FieldsOf(lines), i) && Shows(s, FieldsOf(lines)[i], lines[i])
  {
    var p := StartOf(0, lines, i);
    LineAt(s, 0, lines, eol, i);
    NextStart(0, lines, i);
    assert StartsOf(lines)[i] == p && StartsOf(lines)[i + 1] == p + |PrintLine(lines[i])|;
    assert FieldsOf(lines)[i] == FieldAt(p, lines[i]);
    HeaderOfLine(s, p, lines[i], i == 0);
  }

  lemma {:induction false} Unshift<T>(s: seq<T>, i: nat)
    requires i < |s|
    ensures s[i..] == [s[i]] + s[i + 1..]
  {
  }

  lemma {:induction false} OneMoreHeader(
    s: seq<byte>, p: nat, n: nat, max: nat, f: Field, next: nat, fs: seq<Field>, end: nat)
    requires n < max && p < |s| && s[p] != CR && s[p] != LF && HeaderAt(s, p, n == 0) == Found(f, next)
    requires Headers(s, next, n + 1, max) == Found(fs, end)
    ensures Headers(s, p, n, max) == Found([f] + fs, end)
  {
  }

  /** Header `j` stands where it should, and the next one begins where it ends. */
  ghost predicate ReadAt(s: seq<byte>, starts: seq<nat>, fs: seq<Field>, j: nat)
    requires |starts| == |fs| + 1 && j < |fs|
  {
    var p := starts[j];
    p < |s| && s[p] != CR && s[p] != LF && HeaderAt(s, p, j == 0) == Found(fs[j], starts[j + 1])
  }

  /** Headers that stand one after the other, up to an empty line, are read in order. */
  lemma {:induction false} HeadersInOrder(s: seq<byte>, starts: seq<nat>, fs: seq<Field>, end: nat, i: nat, max: nat)
    requires |starts| == |fs| + 1 && i <= |fs| <= max
    requires forall j {:trigger ReadAt(s, starts, fs, j)} :: 0 <= j < |fs| ==> ReadAt(s, starts, fs, j)
    requires EmptyLineAt(s, starts[|fs|], end)
    ensures Headers(s, starts[i], i, max) == Found(fs[i..], end)
    decreases |fs| - i
  {
    if i < |fs| {
      var rest := fs[i + 1..];
      Unshift(fs, i);
      HeadersInOrder(s, starts, fs, end, i + 1, max);
      assert ReadAt(s, starts, fs, i);
      OneMoreHeader(s, starts[i], i, max, fs[i], starts[i + 1], rest, end);
    } else {
      NoMoreHeaders(s, starts[i], i, max, end);
      assert fs[i..] == [];
    }
  }

  lemma {:induction false} NoMoreHeaders(s: seq<byte>, p: nat, n: nat, max: nat, end: nat)
    requires EmptyLineAt(s, p, end)
    ensures Headers(s, p, n, max) == Found([], end)
  {
  }

  ghost predicate EmptyLineAt(s: seq<byte>, p: nat, end: nat) {
    p < |s| && (s[p] == CR || s[p] == LF) && LineEnd(s, p) == Found(p, end)
  }

  lemma {:induction false} BlockEndsAt(s: seq<byte>, lines: seq<Line>, eol: seq<byte>)
    requires ValidEol(eol) && At(s, 0, PrintBlock(lines, eol))
    ensures EmptyLineAt(s, StartOf(0, lines, |lines|), |PrintBlock(lines, eol)|)
  {
    RestOfBlockAt(s, 0, lines, eol, |lines|);
    EolAt(s, StartOf(0, lines, |lines|), eol);
  }

  /** Parsing what was printed, whatever bytes follow it, gives the same names and values and
      the printed length. */
  lemma {:induction false} ParsingUndoesPrinting(lines: seq<Line>, eol: seq<byte>, tail: seq<byte>, max: nat)
    requires (forall line :: line in lines ==> ValidLine(line)) && ValidEol(eol)
    requires lines != [] ==> lines[0].Named?
    requires |lines| <= max
    ensures
      var s := PrintBlock(lines, eol) + tail;
      && Block(s, max, 0) == Found(FieldsOf(lines), |PrintBlock(lines, eol)|)
      && forall i :: 0 <= i < |lines| ==> Shows(s, FieldsOf(lines)[i], lines[i])
  {
    var s := PrintBlock(lines, eol) + tail;
    assert At(s, 0, PrintBlock(lines, eol));
    forall i | 0 <= i < |lines|
      ensures ReadAt(s, StartsOf(lines), FieldsOf(lines), i) && Shows(s, FieldsOf(lines)[i], lines[i])
    {
      EveryLineRead(s, lines, eol, i);
    }
    BlockEndsAt(s, lines, eol);
    HeadersInOrder(s, StartsOf(lines), FieldsOf(lines), |PrintBlock(lines, eol)|, 0, max);
  }
}
