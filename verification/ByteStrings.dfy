/** The order that strcmp gives to byte strings, and lists sorted by it. */
module ByteStrings {
  import opened Common

  type Text = seq<byte>

  /** strcmp: negative, zero or positive; bytes compare as unsigned numbers. */
  function StrCmp(a: Text, b: Text): int {
    if a == [] then (if b == [] then 0 else -1)
    else if b == [] then 1
    else if a[0] != b[0] then a[0] as int - b[0] as int
    else StrCmp(a[1..], b[1..])
  }

  predicate AtMost(a: Text, b: Text) {
    StrCmp(a, b) <= 0
  }

  lemma {:induction false} ZeroMeansEqual(a: Text, b: Text)
    ensures StrCmp(a, b) == 0 <==> a == b
    decreases |a|
  {
    if a != [] && b != [] && a[0] == b[0] {
      ZeroMeansEqual(a[1..], b[1..]);
      assert a == [a[0]] + a[1..] && b == [b[0]] + b[1..];
    }
  }

  lemma {:induction false} Reversed(a: Text, b: Text)
    ensures StrCmp(a, b) < 0 <==> StrCmp(b, a) > 0
    decreases |a|
  {
    if a != [] && b != [] && a[0] == b[0] {
      Reversed(a[1..], b[1..]);
    }
  }

  /** Of two strings that are not in order, the reverse order holds. */
  lemma {:induction false} Total(a: Text, b: Text)
    ensures AtMost(a, b) || AtMost(b, a)
    ensures StrCmp(a, b) > 0 ==> AtMost(b, a)
    ensures StrCmp(a, b) < 0 ==> AtMost(a, b) && !AtMost(b, a)
    ensures StrCmp(a, b) >= 0 ==> AtMost(b, a)
  {
    Reversed(a, b);
    Reversed(b, a);
  }

  lemma {:induction false} Transitive(a: Text, b: Text, c: Text)
    requires AtMost(a, b) && AtMost(b, c)
    ensures AtMost(a, c)
    decreases |a|
  {
    if a != [] && b != [] && c != [] && a[0] == b[0] == c[0] {
      Transitive(a[1..], b[1..], c[1..]);
    }
  }

  /** Dictionary order: `a` is a proper prefix of `b`, or at the first place where they differ
      `a` has the smaller byte. */
  ghost predicate Before(a: Text, b: Text) {
    (a <= b && a != b) || exists k: nat {:trigger SmallerAt(a, b, k)} :: SmallerAt(a, b, k)
  }

  ghost predicate SmallerAt(a: Text, b: Text, k: nat) {
    k < |a| && k < |b| && a[..k] == b[..k] && a[k] < b[k]
  }

  /** Strings that share their first byte compare as the rest does. */
  lemma {:induction false} BeforeTail(a: Text, b: Text)
    requires a != [] && b != [] && a[0] == b[0]
    ensures Before(a, b) <==> Before(a[1..], b[1..])
  {
    assert a == [a[0]] + a[1..] && b == [b[0]] + b[1..];
    if k: nat :| SmallerAt(a, b, k) {
      assert k > 0 && a[1..][..k - 1] == a[..k][1..] && b[1..][..k - 1] == b[..k][1..];
      assert a[1..][k - 1] == a[k] && SmallerAt(a[1..], b[1..], k - 1);
    }
    if k: nat :| SmallerAt(a[1..], b[1..], k) {
      assert a[..k + 1] == [a[0]] + a[1..][..k] && b[..k + 1] == [b[0]] + b[1..][..k];
      assert a[k + 1] == a[1..][k] && SmallerAt(a, b, k + 1);
    }
  }

  lemma {:induction false} FirstDecides(a: Text, b: Text)
    requires a != [] && b != [] && a[0] != b[0]
    ensures Before(a, b) <==> a[0] < b[0]
  {
    if a[0] < b[0] {
      assert SmallerAt(a, b, 0);
    } else {
      forall k | 0 < k <= |a| && k <= |b|
        ensures a[..k] != b[..k]
      {
        assert a[..k][0] != b[..k][0];
      }
    }
  }

  /** The sign of strcmp tells dictionary order. */
  lemma {:induction false} SignMeans(a: Text, b: Text)
    ensures StrCmp(a, b) < 0 <==> Before(a, b)
    decreases |a|
  {
    if a != [] && b != [] {
      if a[0] == b[0] {
        BeforeTail(a, b);
        SignMeans(a[1..], b[1..]);
      } else {
        FirstDecides(a, b);
      }
    }
  }

  /** strcmp: negative exactly when the first string comes before the second in dictionary order,
      positive exactly when it comes after it, and 0 exactly for equal strings. */
  lemma {:induction false} StrCmpMeans(a: Text, b: Text)
    ensures StrCmp(a, b) < 0 <==> Before(a, b)
    ensures StrCmp(a, b) > 0 <==> Before(b, a)
    ensures StrCmp(a, b) == 0 <==> a == b
  {
    SignMeans(a, b);
    SignMeans(b, a);
    Reversed(b, a);
    ZeroMeansEqual(a, b);
  }

  /** No string comes before one to its left. */
  ghost predicate Ascending(s: seq<Text>) {
    forall i, j :: 0 <= i < j < |s| ==> !Before(s[j], s[i])
  }

  lemma {:induction false} AscendingByCmp(s: seq<Text>)
    ensures Ascending(s) <==> forall i, j :: 0 <= i < j < |s| ==> AtMost(s[i], s[j])
  {
    forall i, j | 0 <= i < j < |s|
      ensures Before(s[j], s[i]) <==> !AtMost(s[i], s[j])
    {
      StrCmpMeans(s[i], s[j]);
    }
  }

  /** Only one order of given strings is ascending. */
  lemma {:induction false} OneAscendingOrder(s: seq<Text>, t: seq<Text>)
    requires Ascending(s) && Ascending(t) && multiset(s) == multiset(t)
    ensures s == t
    decreases |s|
  {
    SameLength(s, t);
    if s != [] {
      FirstAgrees(s, t);
      assert s == [s[0]] + s[1..] && t == [t[0]] + t[1..];
      assert multiset(s[1..]) == multiset(s) - multiset{s[0]};
      assert multiset(t[1..]) == multiset(t) - multiset{t[0]};
      OneAscendingOrder(s[1..], t[1..]);
    }
  }

  lemma {:induction false} SameLength(s: seq<Text>, t: seq<Text>)
    requires multiset(s) == multiset(t)
    ensures |s| == |t|
  {
    assert |multiset(s)| == |s| && |multiset(t)| == |t|;
  }

  lemma {:induction false} FirstAgrees(s: seq<Text>, t: seq<Text>)
    requires Ascending(s) && Ascending(t) && multiset(s) == multiset(t) && s != [] && t != []
    ensures s[0] == t[0]
  {
    FirstIsLeast(s, t[0]) by { assert t[0] in multiset(t); }
    FirstIsLeast(t, s[0]) by { assert s[0] in multiset(s); }
    Reversed(s[0], t[0]);
    Reversed(t[0], s[0]);
    ZeroMeansEqual(s[0], t[0]);
  }

  lemma {:induction false} FirstIsLeast(s: seq<Text>, x: Text)
    requires Ascending(s) && x in multiset(s)
    ensures s != [] && AtMost(s[0], x)
  {
    assert x in s;
    AscendingByCmp(s);
    var i :| 0 <= i < |s| && s[i] == x;
    ZeroMeansEqual(s[0], s[0]);
  }
}
