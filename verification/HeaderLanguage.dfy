/** Exactly which header blocks the parser accepts, which it refuses, and for which it asks for
    more, in terms of the printed blocks of `HeaderPrint`. */
module HeaderLanguage {
  import opened Common
  import opened HeaderGrammar
  import opened HeaderResume
  import opened HeaderPrint

  /** Lines that a block of at most `max` headers may consist of. */
  ghost predicate ValidBlock(lines: seq<Line>, eol: seq<byte>, max: nat) {
    && (forall line :: line in lines ==> ValidLine(line)) && ValidEol(eol)
    && (lines != [] ==> lines[0].Named?)
    && |lines| <= max
  }

  /** Some printed block is a prefix of `s`. */
  ghost predicate StartsWithBlock(s: seq<byte>, max: nat) {
    exists lines, eol {:trigger PrintBlock(lines, eol)} :: ValidBlock(lines, eol, max) && PrintBlock(lines, eol) <= s
  }

  // ---- a block that is accepted was printed ------------------------------------------------------

  lemma {:induction false} EolIs(s: seq<byte>, p: nat)
    requires p < |s| && LineEnd(s, p).Found?
    ensures
      var next := LineEnd(s, p).next;
      p < next <= |s| && ValidEol(s[p..next])
  {
  }

  /** A value that is read: text, blanks and a line end. */
  lemma {:induction false} ValueIs(s: seq<byte>, p: nat) returns (text: seq<byte>, trail: seq<byte>, eol: seq<byte>)
    requires ValueAt(s, p).Found?
    ensures p < ValueAt(s, p).next <= |s|
    ensures ValidText(text) && Blanks(trail) && ValidEol(eol)
    ensures s[p..ValueAt(s, p).next] == text + trail + eol
    ensures text + trail == [] <==> s[p] == CR || s[p] == LF
    ensures text + trail != [] ==> (text + trail)[0] == s[p]
    ensures !IsBlank(s[p]) ==> trail == [] || text != []
  {
    ValueBounds(s, p);
    var end, next := ValueEnd(s, p).value, ValueEnd(s, p).next;
    var mid := TrimEnd(s, p, end);
    text, trail, eol := s[p..mid], s[mid..end], s[end..next];
    EolIs(s, end);
    forall c | c in text
      ensures TextByte(c)
    {
      ClassesAre(c);
    }
    assert s[p..next] == text + trail + eol;
  }

  /** A header line that is read was printed. */
  lemma {:induction false} LineIs(s: seq<byte>, p: nat, first: bool) returns (line: Line)
    requires p < |s| && s[p] != CR && s[p] != LF && HeaderAt(s, p, first).Found?
    ensures ValidLine(line) && (first ==> line.Named?)
    ensures p < HeaderAt(s, p, first).next <= |s|
    ensures PrintLine(line) == s[p..HeaderAt(s, p, first).next]
  {
    if !first && IsBlank(s[p]) {
      var text, trail, eol := ValueIs(s, p);
      line := Continued(text, trail, eol);
    } else {
      line := NamedIs(s, p, first);
    }
  }

  lemma {:induction false} NameIs(s: seq<byte>, p: nat)
    requires NameEnd(s, p).Found? && NameEnd(s, p).value != p
    ensures
      var colon := NameEnd(s, p).value;
      p < colon < |s| && ValidName(s[p..colon]) && s[colon] == Octet(':')
  {
    NameBounds(s, p);
    forall c | c in s[p..NameEnd(s, p).value]
      ensures NameByte(c)
    {
      ClassesAre(c);
    }
  }

  lemma {:induction false} LeadIs(s: seq<byte>, p: nat)
    requires p <= |s| && SkipBlanks(s, p).Found?
    ensures
      var v := SkipBlanks(s, p).value;
      p <= v < |s| && Blanks(s[p..v]) && !IsBlank(s[v])
  {
    BlankBounds(s, p);
  }

  /** The parts of a line, put together. */
  lemma {:induction false} Parts(s: seq<byte>, p: nat, colon: nat, v: nat, end: nat)
    requires p <= colon < v <= end <= |s| && s[colon] == Octet(':')
    ensures s[p..end] == s[p..colon] + [Octet(':')] + s[colon + 1..v] + s[v..end]
  {
  }

  lemma {:induction false} NamedIs(s: seq<byte>, p: nat, first: bool) returns (line: Line)
    requires p < |s| && HeaderAt(s, p, first).Found? && (first || !IsBlank(s[p]))
    ensures ValidLine(line) && line.Named?
    ensures p < HeaderAt(s, p, first).next <= |s|
    ensures PrintLine(line) == s[p..HeaderAt(s, p, first).next]
  {
    var colon := NameEnd(s, p).value;
    NameIs(s, p);
    LeadIs(s, colon + 1);
    var v := SkipBlanks(s, colon + 1).value;
    var text, trail, eol := ValueIs(s, v);
    line := PutTogether(s, p, colon, v, ValueAt(s, v).next, text, trail, eol);
  }

  lemma {:induction false} PutTogether(
    s: seq<byte>, p: nat, colon: nat, v: nat, end: nat, text: seq<byte>, trail: seq<byte>, eol: seq<byte>)
    returns (line: Line)
    requires p < colon < v < end <= |s| && ValidName(s[p..colon]) && s[colon] == Octet(':')
    requires Blanks(s[colon + 1..v]) && !BlankByte(s[v])
    requires ValidText(text) && Blanks(trail) && ValidEol(eol) && s[v..end] == text + trail + eol
    ensures ValidLine(line) && line.Named? && PrintLine(line) == s[p..end]
  {
    var name, lead := s[p..colon], s[colon + 1..v];
    line := Named(name, lead, text, trail, eol);
    Parts(s, p, colon, v, end);
    if text != [] {
      assert s[v..end][0] == text[0];
    }
    assert name + [Octet(':')] + lead + (text + trail + eol) == name + [Octet(':')] + lead + text + trail + eol;
  }

  lemma {:induction false} LineInFront(
    s: seq<byte>, p: nat, next: nat, end: nat, line: Line, more: seq<Line>, eol: seq<byte>)
    requires p <= next <= end <= |s| && PrintLine(line) == s[p..next] && PrintBlock(more, eol) == s[next..end]
    requires ValidLine(line) && forall x :: x in more ==> ValidLine(x)
    ensures PrintBlock([line] + more, eol) == s[p..end]
    ensures forall x :: x in [line] + more ==> ValidLine(x)
  {
    FirstLine(line, more, eol);
    assert s[p..end] == s[p..next] + s[next..end];
  }

  lemma {:induction false} BlockIs(s: seq<byte>, p: nat, n: nat, max: nat) returns (lines: seq<Line>, eol: seq<byte>)
    requires Headers(s, p, n, max).Found? && n <= max
    ensures p < Headers(s, p, n, max).next <= |s|
    ensures (forall line :: line in lines ==> ValidLine(line)) && ValidEol(eol)
    ensures (n == 0 && lines != [] ==> lines[0].Named?) && n + |lines| <= max
    ensures PrintBlock(lines, eol) == s[p..Headers(s, p, n, max).next]
    decreases |s| - p
  {
    if s[p] == CR || s[p] == LF {
      EolIs(s, p);
      lines, eol := [], s[p..LineEnd(s, p).next];
    } else {
      var next := HeaderAt(s, p, n == 0).next;
      var line := LineIs(s, p, n == 0);
      var more;
      more, eol := BlockIs(s, next, n + 1, max);
      lines := [line] + more;
      LineInFront(s, p, next, Headers(s, p, n, max).next, line, more, eol);
    }
  }

  // ---- an incomplete block can be completed ------------------------------------------------------

  lemma {:induction false} ValueCanEnd(s: seq<byte>, p: nat)
    requires p <= |s| && ValueAt(s, p).Partial?
    ensures ValueAt(s + [LF], p).Found? && ValueAt(s + [LF], p).next == |s| + 1
  {
    ValueEndCanEnd(s, p);
  }

  lemma {:induction false} ValueEndCanEnd(s: seq<byte>, p: nat)
    requires p <= |s| && ValueEnd(s, p).Partial?
    ensures ValueEnd(s + [LF], p).Found? && ValueEnd(s + [LF], p).next == |s| + 1
    decreases |s| - p
  {
    if p < |s| && !IsControl(s[p]) {
      ValueEndCanEnd(s, p + 1);
    }
  }

  lemma {:induction false} BlanksCanEnd(s: seq<byte>, p: nat)
    requires p <= |s| && SkipBlanks(s, p).Partial?
    ensures SkipBlanks(s + [LF], p) == Found(|s|, |s|)
    decreases |s| - p
  {
    if p < |s| {
      BlanksCanEnd(s, p + 1);
    }
  }

  lemma {:induction false} NameCanEnd(s: seq<byte>, p: nat)
    requires p <= |s| && NameEnd(s, p).Partial?
    ensures NameEnd(s + [COLON, LF], p) == Found(|s|, |s|)
    decreases |s| - p
  {
    if p < |s| {
      NameCanEnd(s, p + 1);
    }
  }

  /** A header line that is incomplete can be completed. */
  lemma {:induction false} LineCanEnd(s: seq<byte>, p: nat, first: bool) returns (t: seq<byte>)
    requires p < |s| && HeaderAt(s, p, first).Partial?
    ensures HeaderAt(s + t, p, first).Found? && HeaderAt(s + t, p, first).next == |s + t|
  {
    if !first && IsBlank(s[p]) {
      ValueCanEnd(s, p);
      t := [LF];
    } else if NameEnd(s, p).Partial? {
      NameCanEnd(s, p);
      t := [COLON, LF];
      var u := s + t;
      assert u[|s|] == COLON && u[|s| + 1] == LF;
      assert SkipBlanks(u, |s| + 1) == Found(|s| + 1, |s| + 1);
      assert ValueEnd(u, |s| + 1) == Found(|s| + 1, |s| + 2);
    } else {
      t := [LF];
      NameBounds(s, p);
      NameMore(s, s + t, p);
      var c := NameEnd(s, p).value;
      BlankBounds(s, c + 1);
      if SkipBlanks(s, c + 1).Partial? {
        BlanksCanEnd(s, c + 1);
        assert ValueEnd(s + t, |s|) == Found(|s|, |s| + 1);
      } else {
        BlanksMore(s, s + t, c + 1);
        ValueCanEnd(s, SkipBlanks(s, c + 1).value);
      }
    }
  }

  lemma {:induction false} BlockCanEnd(s: seq<byte>, p: nat, n: nat, max: nat) returns (t: seq<byte>)
    requires p <= |s| && Headers(s, p, n, max).Partial?
    ensures Headers(s + t, p, n, max).Found?
    decreases |s| - p
  {
    if p == |s| || s[p] == CR || s[p] == LF {
      t := [LF];
    } else if HeaderAt(s, p, n == 0).Partial? {
      var u := LineCanEnd(s, p, n == 0);
      t := u + [LF];
      assert s + t == (s + u) + [LF];
      HeaderMore(s + u, s + t, p, n == 0);
      assert Headers(s + t, |s + u|, n + 1, max).Found?;
    } else {
      HeaderBounds(s, p, n == 0);
      t := BlockCanEnd(s, HeaderAt(s, p, n == 0).next, n + 1, max);
      HeaderMore(s, s + t, p, n == 0);
    }
  }

  // ---- the three results -------------------------------------------------------------------------

  /** A fresh parse succeeds exactly when the input begins with a printed block; headers and length
      are then those of that block. */
  lemma {:induction false} FoundExactlyWhen(s: seq<byte>, max: nat)
    ensures Block(s, max, 0).Found? <==> StartsWithBlock(s, max)
    ensures forall lines, eol {:trigger PrintBlock(lines, eol)} ::
              ValidBlock(lines, eol, max) && PrintBlock(lines, eol) <= s ==>
              && Block(s, max, 0) == Found(FieldsOf(lines), |PrintBlock(lines, eol)|)
              && forall i :: 0 <= i < |lines| ==> Shows(s, FieldsOf(lines)[i], lines[i])
  {
    if Block(s, max, 0).Found? {
      var lines, eol := BlockIs(s, 0, 0, max);
      assert ValidBlock(lines, eol, max) && PrintBlock(lines, eol) <= s;
    }
    forall lines, eol | ValidBlock(lines, eol, max) && PrintBlock(lines, eol) <= s
      ensures Block(s, max, 0) == Found(FieldsOf(lines), |PrintBlock(lines, eol)|)
      ensures forall i :: 0 <= i < |lines| ==> Shows(s, FieldsOf(lines)[i], lines[i])
    {
      ParsingUndoesPrinting(lines, eol, s[|PrintBlock(lines, eol)|..], max);
      assert s == PrintBlock(lines, eol) + s[|PrintBlock(lines, eol)|..];
    }
  }

  /** A fresh parse says malformed exactly when no bytes after the input could make it begin with a
      printed block. */
  lemma {:induction false} BadExactlyWhen(s: seq<byte>, max: nat)
    ensures Block(s, max, 0).Bad? <==> forall t {:trigger s + t} :: !StartsWithBlock(s + t, max)
  {
    forall t: seq<byte>
      ensures Block(s, max, 0).Bad? ==> !StartsWithBlock(s + t, max)
    {
      FoundExactlyWhen(s + t, max);
      if Block(s, max, 0).Bad? {
        HeadersMore(s, s + t, 0, 0, max);
      }
    }
    if Block(s, max, 0).Found? {
      FoundExactlyWhen(s, max);
      assert s + [] == s;
    } else if Block(s, max, 0).Partial? {
      var t := BlockCanEnd(s, 0, 0, max);
      FoundExactlyWhen(s + t, max);
    }
  }

  /** A fresh parse says incomplete exactly when more bytes can, and must, come to make the input
      begin with a printed block. */
  lemma {:induction false} PartialExactlyWhen(s: seq<byte>, max: nat)
    ensures Block(s, max, 0).Partial? <==>
            !StartsWithBlock(s, max) && exists t {:trigger s + t} :: StartsWithBlock(s + t, max)
  {
    FoundExactlyWhen(s, max);
    BadExactlyWhen(s, max);
  }
}
