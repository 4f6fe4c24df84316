/**
  The order in which task paths are listed. The loader compares paths with
  `localeCompare`; this model uses plain lexicographic order on characters,
  a total order, which is all that sorting and "first in sorted order" need.
 */
module Collation {

  /** At the first position where `a` and `b` differ, `a` has the smaller character. */
  predicate SmallerAtFirstDifference(a: string, b: string)
  {
    exists k :: 0 <= k < |a| && k < |b| && a[..k] == b[..k] && a[k] < b[k]
  }

  /** After an equal first character, the first difference lies in the tails. */
  lemma FirstDifferenceInTail(a: string, b: string)
    requires a != [] && b != [] && a[0] == b[0] && SmallerAtFirstDifference(a, b)
    ensures SmallerAtFirstDifference(a[1..], b[1..])
  {
    var k :| 0 <= k < |a| && k < |b| && a[..k] == b[..k] && a[k] < b[k];
    assert k != 0;
    assert a[1..][..k - 1] == a[..k][1..] && b[1..][..k - 1] == b[..k][1..];
    assert a[1..][k - 1] == a[k] && b[1..][k - 1] == b[k];
  }

  /** A first difference in the tails is one of the whole strings after an equal first character. */
  lemma FirstDifferenceFromTail(a: string, b: string)
    requires a != [] && b != [] && a[0] == b[0] && SmallerAtFirstDifference(a[1..], b[1..])
    ensures SmallerAtFirstDifference(a, b)
  {
    var k :| 0 <= k < |a| - 1 && k < |b| - 1 && a[1..][..k] == b[1..][..k] && a[1..][k] < b[1..][k];
    assert a[..k + 1] == [a[0]] + a[1..][..k] && b[..k + 1] == [b[0]] + b[1..][..k];
    assert a[k + 1] == a[1..][k] && b[k + 1] == b[1..][k];
  }

  /** Dropping an equal first character does not change whether `a` is smaller at the first difference. */
  lemma FirstDifferenceTail(a: string, b: string)
    requires a != [] && b != [] && a[0] == b[0]
    ensures SmallerAtFirstDifference(a, b) <==> SmallerAtFirstDifference(a[1..], b[1..])
  {
    if SmallerAtFirstDifference(a, b) {
      FirstDifferenceInTail(a, b);
    }
    if SmallerAtFirstDifference(a[1..], b[1..]) {
      FirstDifferenceFromTail(a, b);
    }
  }

  /**
    `a` comes no later than `b` in lexicographic order: `a` is a prefix of
    `b`, or the first differing character of `a` is the smaller one.
   */
  predicate PathLeq(a: string, b: string): (r: bool)
    ensures r <==> a <= b || SmallerAtFirstDifference(a, b)
    decreases |a|
  {
    if a == [] then true
    else if b == [] then false
    else if a[0] != b[0] then
      assert a[..0] == b[..0];
      assert forall k :: 0 < k <= |a| && k <= |b| ==> a[..k][0] == a[0] && b[..k][0] == b[0];
      a[0] < b[0]
    else
      FirstDifferenceTail(a, b);
      assert a == [a[0]] + a[1..] && b == [b[0]] + b[1..];
      PathLeq(a[1..], b[1..])
  }

  lemma PathLeqReflexive(a: string)
    ensures PathLeq(a, a)
  {
  }

  lemma PathLeqAntisymmetric(a: string, b: string)
    requires PathLeq(a, b) && PathLeq(b, a)
    ensures a == b
  {
  }

  lemma {:induction false} PathLeqTransitive(a: string, b: string, c: string)
    requires PathLeq(a, b) && PathLeq(b, c)
    ensures PathLeq(a, c)
    decreases |a|
  {
    if a != [] && b != [] && c != [] && a[0] == b[0] && b[0] == c[0] {
      PathLeqTransitive(a[1..], b[1..], c[1..]);
    }
  }

  lemma {:induction false} PathLeqTotal(a: string, b: string)
    ensures PathLeq(a, b) || PathLeq(b, a)
    decreases |a|
  {
    if a != [] && b != [] && a[0] == b[0] {
      PathLeqTotal(a[1..], b[1..]);
    }
  }
}
