/** Sequences without repeats and sequences with an element taken out, for the linked lists. */
module Sequences {

  ghost predicate Differ<T>(s: seq<T>, i: nat, j: nat) {
    i < |s| && j < |s| ==> s[i] != s[j]
  }

  /** No element stands in two places. */
  ghost predicate Distinct<T>(s: seq<T>) {
    forall i, j {:trigger Differ(s, i, j)} :: 0 <= i < j < |s| ==> Differ(s, i, j)
  }

  lemma {:induction false} Apart<T>(s: seq<T>, i: nat, j: nat)
    requires Distinct(s) && i < |s| && j < |s| && i != j
    ensures s[i] != s[j]
  {
    assert if i < j then Differ(s, i, j) else Differ(s, j, i);
  }

  lemma {:induction false} AllApart<T>(s: seq<T>)
    requires Distinct(s)
    ensures forall i, j :: 0 <= i < j < |s| ==> s[i] != s[j]
  {
    forall i, j | 0 <= i < j < |s|
      ensures s[i] != s[j]
    {
      Apart(s, i, j);
    }
  }

  lemma {:induction false} Prepended<T>(x: T, s: seq<T>)
    requires Distinct(s) && x !in s
    ensures Distinct([x] + s)
  {
    AllApart(s);
    assert forall i :: 0 <= i < |s| ==> s[i] in s;
  }

  function Without<T>(s: seq<T>, k: nat): (r: seq<T>)
    requires k < |s|
    ensures |r| == |s| - 1
    ensures forall i :: 0 <= i < |r| ==> r[i] == s[if i < k then i else i + 1]
  {
    s[..k] + s[k + 1..]
  }
}
