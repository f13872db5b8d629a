/**
 Small things used throughout.
 */
module Basics {

  datatype Option<+T> = None | Some(value: T)

  function Max(a: nat, b: nat): nat {
    if a >= b then a else b
  }

  ghost predicate NoDup<T>(s: seq<T>) {
    forall i, j :: 0 <= i < j < |s| ==> s[i] != s[j]
  }

  lemma SubsetSize<T>(a: set<T>, b: set<T>)
    requires a <= b
    ensures |a| <= |b| && (a != b ==> |a| < |b|)
  {
    assert b == a + (b - a);
  }

  // ----- Quotients -----

  lemma DivIs(v: nat, a: nat)
    requires a > 0
    ensures v == v / a * a + v % a && v % a < a
  {}

  lemma MultipleIsLarge(k: int, d: nat)
    ensures k >= 1 ==> k * d >= d
    ensures k <= -1 ==> k * d + d <= 0
  {}

  lemma QuotientIs(v: nat, d: nat, q: nat, r: nat)
    requires v == q * d + r && r < d
    ensures v / d == q
  {
    DivIs(v, d);
    var e := v / d;
    assert (q - e) * d == q * d - e * d;
    MultipleIsLarge(q - e, d);
  }

  lemma Regrouped(a: nat, b: nat, q: nat, low: nat, high: nat)
    requires low < a && high < b
    ensures a * high + low < a * b
    ensures (q * b + high) * a + low == q * (a * b) + (a * high + low)
  {
    assert a * high <= a * (b - 1);
    assert (q * b + high) * a == q * b * a + high * a;
    assert q * b * a == q * (a * b);
  }

  /** Dividing by one number and then by another is dividing by their product. */
  lemma DivTwice(v: nat, a: nat, b: nat)
    requires a > 0 && b > 0
    ensures a * b > 0 && v / a / b == v / (a * b)
  {
    var w := v / a;
    DivIs(v, a);
    DivIs(w, b);
    Regrouped(a, b, w / b, v % a, w % b);
    QuotientIs(v, a * b, w / b, a * (w % b) + v % a);
  }
}
