/**
 What several modules share.
 */
module Helpers {
  datatype Option<+T> = None | Some(value: T)

  function Pow2(n: nat): (r: nat)
    ensures r > 0
  {
    if n == 0 then 1 else 2 * Pow2(n - 1)
  }

  function Max(a: int, b: int): int { if a < b then b else a }

  lemma TimesLe(a: int, b: int, c: int)
    requires a <= b && c >= 0
    ensures a * c <= b * c
  {
  }

  lemma MulLe(k: int, d: int)
    requires k >= 1 && d >= 0
    ensures k * d >= d
  {
  }

  /** Quotient and remainder are unique. */
  lemma QuotRem(x: nat, d: nat, q: int, r: int)
    requires d > 0 && x == q * d + r && 0 <= r < d
    ensures x / d == q && x % d == r
  {
    var q', r' := x / d, x % d;
    assert x == q' * d + r';
    assert (q - q') * d == r' - r;
    if q > q' { MulLe(q - q', d); assert false; }
    if q < q' { MulLe(q' - q, d); assert false; }
  }

  lemma Pick<T>(s: set<T>) returns (x: T)
    requires |s| != 0
    ensures x in s
  {
    x :| x in s;
  }

  lemma SubsetCard<T>(a: set<T>, b: set<T>)
    requires a <= b
    ensures |a| <= |b|
  {
    assert b == a + (b - a);
  }

  ghost predicate Distinct<T>(s: seq<T>) { forall i, j :: 0 <= i < j < |s| ==> s[i] != s[j] }

  ghost predicate Injective<K, V>(m: map<K, V>) { forall x, y :: x in m && y in m && m[x] == m[y] ==> x == y }

  ghost predicate IsImage<K, V>(a: set<K>, m: map<K, V>, image: set<V>) {
    && (forall x :: x in a ==> x in m && m[x] in image)
    && (forall y :: y in image ==> exists x :: x in a && x in m && m[x] == y)
  }

  /** An injective image has as many elements. */
  lemma {:induction false} ImageCard<K, V>(a: set<K>, m: map<K, V>, image: set<V>)
    requires Injective(m) && IsImage(a, m, image)
    ensures |image| == |a|
  {
    if |a| != 0 {
      var x := Pick(a);
      assert IsImage(a - {x}, m, image - {m[x]});
      ImageCard(a - {x}, m, image - {m[x]});
    } else {
      assert forall y :: y !in image;
    }
  }
}
