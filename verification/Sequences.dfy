/** Sequences without repetitions, and taking elements out of sequences. */
module Sequences {

  ghost predicate Distinct<X>(s: seq<X>) {
    forall i, j :: 0 <= i < j < |s| ==> s[i] != s[j]
  }

  ghost predicate Increasing(s: seq<nat>) {
    forall i, j :: 0 <= i < j < |s| ==> s[i] < s[j]
  }

  /** Where `x` is first found, or the length of the sequence. */
  function IndexOf<X(==)>(s: seq<X>, x: X): (k: nat)
    ensures k <= |s|
    ensures k < |s| ==> s[k] == x
    ensures k == |s| ==> x !in s
  {
    if s == [] || s[0] == x then 0 else 1 + IndexOf(s[1..], x)
  }

  function Cut<X>(s: seq<X>, k: nat): seq<X>
    requires k < |s|
  {
    s[..k] + s[k + 1..]
  }

  /** `s` without the first occurrence of `x`. */
  function Without<X(==)>(s: seq<X>, x: X): seq<X> {
    if s == [] then []
    else if s[0] == x then s[1..]
    else [s[0]] + Without(s[1..], x)
  }

  lemma {:induction false} WithoutIsCut<X>(s: seq<X>, x: X)
    requires x in s
    ensures IndexOf(s, x) < |s| && Without(s, x) == Cut(s, IndexOf(s, x))
  {
    if s[0] != x {
      assert s == [s[0]] + s[1..];
      WithoutIsCut(s[1..], x);
    }
  }

  lemma {:induction false} CutIs<X>(s: seq<X>, k: nat)
    requires Distinct(s) && k < |s|
    ensures Distinct(Cut(s, k)) && |Cut(s, k)| == |s| - 1
    ensures forall y :: y in Cut(s, k) <==> y in s && y != s[k]
  {
    var c := Cut(s, k);
    assert forall j :: 0 <= j < |c| ==> c[j] == s[if j < k then j else j + 1];
    forall y | y in s && y != s[k] ensures y in c {
      var j := IndexOf(s, y);
      assert c[if j < k then j else j - 1] == y;
    }
  }

  /** Taking out an element of a sequence without repetitions. */
  lemma {:induction false} WithoutIs<X>(s: seq<X>, x: X)
    requires x in s && Distinct(s)
    ensures Distinct(Without(s, x)) && |Without(s, x)| == |s| - 1
    ensures forall y :: y in Without(s, x) <==> y in s && y != x
  {
    WithoutIsCut(s, x);
    CutIs(s, IndexOf(s, x));
  }
}
