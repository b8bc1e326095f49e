/**
 Numbers as sequences of digits of any base, least significant first.
 */
module Positional {
  function Pow(b: nat, n: nat): nat {
    if n == 0 then 1 else b * Pow(b, n - 1)
  }

  lemma Associate(a: int, b: int, c: int)
    ensures a * (b * c) == (a * b) * c
  {
  }

  lemma Distribute(b: int, x: int, y: int)
    ensures b * (x + y) == b * x + b * y
  {
  }

  /** `c` in the place of digit `i`. */
  ghost function At(b: nat, c: int, i: nat): int {
    if i == 0 then c else b * At(b, c, i - 1)
  }

  lemma {:induction false} AtAdd(b: nat, x: int, y: int, i: nat)
    ensures At(b, x + y, i) == At(b, x, i) + At(b, y, i)
  {
    if i > 0 {
      AtAdd(b, x, y, i - 1);
      Distribute(b, At(b, x, i - 1), At(b, y, i - 1));
    }
  }

  lemma {:induction false} AtIs(b: nat, c: int, i: nat)
    ensures At(b, c, i) == c * Pow(b, i)
  {
    if i > 0 {
      AtIs(b, c, i - 1);
      assert b * (c * Pow(b, i - 1)) == c * (b * Pow(b, i - 1));
    }
  }

  lemma AtTimes(b: nat, m: int, c: int, i: nat)
    ensures At(b, m * c, i) == m * At(b, c, i)
  {
    AtIs(b, m * c, i);
    AtIs(b, c, i);
    Associate(m, c, Pow(b, i));
  }

  lemma AtCarry(b: nat, c: int, i: nat)
    ensures At(b, b * c, i) == At(b, c, i + 1)
  {
    AtIs(b, b * c, i);
    AtIs(b, c, i + 1);
    Associate(c, b, Pow(b, i));
  }

  ghost function Val(b: nat, d: seq<int>): int {
    if |d| == 0 then 0 else Val(b, d[..|d| - 1]) + At(b, d[|d| - 1], |d| - 1)
  }

  lemma ValPush(b: nat, d: seq<int>, done: seq<int>, i: nat)
    requires i < |d| && done == d[..i]
    ensures Val(b, d[..i + 1]) == Val(b, done) + At(b, d[i], i)
  {
    assert d[..i + 1][..i] == done;
  }

  /** The digit and the carry together are the sum, wherever it stands. */
  lemma CarryStep(b: nat, i: nat, n: int, carry: int, t: int, w: int, carry': int)
    requires n == carry + t && n == w + b * carry'
    ensures At(b, w, i) + At(b, carry', i + 1) == At(b, carry, i) + At(b, t, i)
  {
    AtAdd(b, carry, t, i);
    AtAdd(b, w, b * carry', i);
    AtCarry(b, carry', i);
  }
}
