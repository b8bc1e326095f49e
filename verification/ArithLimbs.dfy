/**
 Numbers as sequences of 32-bit digits, least significant first.
 */
module ArithLimbs {
  import opened Helpers
  import opened Positional

  const BASE: int := 0x1_0000_0000

  type Word = x: int | 0 <= x < 0x1_0000_0000
  type Word64 = x: int | 0 <= x < 0x1_0000_0000_0000_0000

  // ----- powers

  lemma {:induction false} Pow2Add(m: nat, n: nat)
    ensures Pow2(m + n) == Pow2(m) * Pow2(n)
    decreases n
  {
    if n > 0 {
      Pow2Add(m, n - 1);
      assert Pow2(m + n) == 2 * Pow2(m + (n - 1));
      Factor(Pow2(m), Pow2(n - 1), 2);
    }
  }

  lemma Factor(a: int, b: int, c: int)
    ensures c * (a * b) == a * (c * b)
  {
  }

  // ----- digits and their weights

  /** The numbers that `i` digits can express are those below this one. */
  ghost function Radix(i: nat): int { At(BASE, 1, i) }

  lemma {:induction false} AtLess(a: int, b: int, i: nat)
    requires a < b
    ensures At(BASE, a, i) < At(BASE, b, i)
  {
    if i > 0 { AtLess(a, b, i - 1); }
  }

  lemma {:induction false} AtZero(i: nat)
    ensures At(BASE, 0, i) == 0 && Radix(i) > 0
  {
    if i > 0 { AtZero(i - 1); }
  }

  lemma {:induction false} AtSum(c: int, i: nat, j: nat)
    ensures At(BASE, At(BASE, c, i), j) == At(BASE, c, i + j)
    decreases j
  {
    if j > 0 {
      AtSum(c, i, j - 1);
      assert At(BASE, c, i + j) == BASE * At(BASE, c, i + (j - 1));
    }
  }

  lemma {:induction false} AtIsPow2(c: int, i: nat)
    ensures At(BASE, c, i) == c * Pow2(32 * i)
  {
    if i > 0 {
      AtIsPow2(c, i - 1);
      Pow2Word();
      Pow2Add(32 * (i - 1), 32);
      assert 32 * (i - 1) + 32 == 32 * i;
      Factor(c, Pow2(32 * (i - 1)), BASE);
    }
  }

  lemma {:induction false} Pow2Le(m: nat, n: nat)
    requires m <= n
    ensures Pow2(m) <= Pow2(n)
    decreases n
  {
    if m < n { Pow2Le(m, n - 1); }
  }

  lemma Pow2Word()
    ensures Pow2(32) == BASE
  {
    assert Pow2(8) == 256;
    Pow2Add(8, 8);
    Pow2Add(16, 16);
  }

  // ----- bitwise or

  /** The bitwise or of two numbers. */
  function Or(a: nat, b: nat): nat
    decreases a + b
  {
    if a == 0 then b else if b == 0 then a else
      (if a % 2 == 1 || b % 2 == 1 then 1 else 0) + 2 * Or(a / 2, b / 2)
  }

  /** Numbers without a common bit are or-ed by adding them. */
  lemma {:induction false} OrDisjoint(a: nat, b: nat, n: nat)
    requires a < Pow2(n) && b % Pow2(n) == 0
    ensures Or(a, b) == a + b && Or(b, a) == a + b
  {
    if n > 0 && a > 0 && b > 0 {
      var p, q := Pow2(n - 1), b / Pow2(n);
      assert b == q * (2 * p) by { DivExact(b, Pow2(n)); }
      assert b == 2 * (q * p) by { Factor(q, p, 2); }
      MulMod(q, p);
      assert b / 2 == q * p;
      OrDisjoint(a / 2, b / 2, n - 1);
    }
  }

  lemma DivExact(b: nat, d: nat)
    requires d > 0 && b % d == 0
    ensures b == (b / d) * d
  {
  }

  lemma {:induction false} MulMod(q: nat, d: nat)
    requires d > 0
    ensures (q * d) % d == 0
  {
    QuotRem(q * d, d, q, 0);
  }

  // ----- the value of the digits

  lemma {:induction false} ValBound(d: seq<Word>)
    ensures 0 <= Val(BASE, d) < Radix(|d|)
  {
    if |d| > 0 {
      var n := |d| - 1;
      ValBound(d[..n]);
      AtZero(n);
      if d[n] > 0 { AtLess(0, d[n], n); }
      if d[n] < BASE - 1 { AtLess(d[n], BASE - 1, n); }
      AtAdd(BASE, BASE - 1, 1, n);
      AtCarry(BASE, 1, n);
    }
  }

  lemma {:induction false} ValSet(d: seq<Word>, j: nat, x: Word)
    requires j < |d|
    ensures Val(BASE, d[j := x]) == Val(BASE, d) - At(BASE, d[j], j) + At(BASE, x, j)
  {
    var n, u := |d| - 1, d[j := x];
    if j == n {
      assert u[..n] == d[..n];
    } else {
      assert u[..n] == d[..n][j := x];
      ValSet(d[..n], j, x);
    }
  }

  lemma {:induction false} ValZero(d: seq<Word>)
    requires forall i :: 0 <= i < |d| ==> d[i] == 0
    ensures Val(BASE, d) == 0
  {
    if |d| > 0 {
      ValZero(d[..|d| - 1]);
      AtZero(|d| - 1);
    }
  }

  /** The digits from `m` on stand in the place of digit `m`. */
  lemma {:induction false} ValSplit(d: seq<Word>, m: nat)
    requires m <= |d|
    ensures Val(BASE, d) == Val(BASE, d[..m]) + At(BASE, Val(BASE, d[m..]), m)
    decreases |d|
  {
    if m == |d| {
      assert d[..m] == d;
      AtZero(m);
    } else {
      var n, top := |d| - 1, d[m..];
      ValSplit(d[..n], m);
      assert d[..n][..m] == d[..m] && d[..n][m..] == top[..n - m];
      AtSum(top[n - m], n - m, m);
      AtAdd(BASE, Val(BASE, top[..n - m]), At(BASE, top[n - m], n - m), m);
    }
  }

  // ----- one step of a carry loop

  lemma ModIs(x: int, m: nat, q: int, v: int)
    requires 0 <= v < m && v + q * m == x
    ensures x % m == v
  {
    var q', r' := x / m, x % m;
    assert x == q' * m + r';
    assert (q - q') * m == r' - v;
    if q > q' { MulLe(q - q', m); assert false; }
    if q < q' { MulLe(q' - q, m); assert false; }
  }

  lemma ModAt(x: int, i: nat, carry: int, v: int)
    requires 0 <= v < Radix(i) && v + At(BASE, carry, i) == x
    ensures x % Radix(i) == v
  {
    AtTimes(BASE, carry, 1, i);
    ModIs(x, Radix(i), carry, v);
  }

  // ----- bits

  lemma TimesLess(a: int, b: int, c: int)
    requires a < b && c > 0
    ensures a * c < b * c
  {
  }

  lemma LessByTimes(a: int, b: int, c: int)
    requires a * c < b * c && c > 0
    ensures a < b
  {
  }

  lemma DivMod(x: nat, d: nat) returns (q: nat, r: nat)
    requires d > 0
    ensures q == x / d && r == x % d && x == q * d + r && r < d && q <= x
  {
    q, r := x / d, x % d;
    TimesLe(1, d, q);
  }

  /** Multiples of s below p * s leave room for s. */
  lemma RoomAbove(q: int, p: int, s: int)
    requires s > 0 && q * s < p * s
    ensures q * s + s <= p * s
  {
    LessByTimes(q, p, s);
    TimesLe(q + 1, p, s);
  }

  /** Or-ing parts of a word that do not overlap. */
  lemma OrWord(a: Word, b: Word, n: nat)
    requires n <= 32 && a < Pow2(n) && b % Pow2(n) == 0
    ensures Or(a, b) == Or(b, a) == a + b < BASE
  {
    OrDisjoint(a, b, n);
    var q, r := DivMod(b, Pow2(n));
    Pow2Word();
    Pow2Add(32 - n, n);
    RoomAbove(q, Pow2(32 - n), Pow2(n));
  }

  lemma Moved(x: int, hi: int, big: int, r: int, small: int, base: int)
    requires x == hi * big + r && 0 <= r < big && small > 0 && base == small * big && x < base
    ensures x * small == hi * base + r * small && r * small < base && hi < small
  {
    TimesLess(r, big, small);
    LessByTimes(hi, small, big);
  }

  /** Moving left by a factor `small`, in a word of `base == big * small`. */
  lemma MoveLeft(x: nat, big: nat, small: nat, base: nat)
    requires big > 0 && small > 0 && base == small * big && x < base
    ensures x * small / base == x / big && x * small % base == x % big * small
    ensures x / big < small && x / big <= x && x * small % base % small == 0
  {
    var hi, r := DivMod(x, big);
    Moved(x, hi, big, r, small, base);
    QuotRem(x * small, base, hi, r * small);
    MulMod(r, small);
  }

  /** A word moved left by `s` bits, as what leaves it and what stays. */
  lemma LeftParts(x: Word, s: nat)
    requires s < 32
    ensures x * Pow2(s) == x / Pow2(32 - s) * BASE + x * Pow2(s) % BASE
    ensures 0 <= x / Pow2(32 - s) <= x && x / Pow2(32 - s) < Pow2(s) && x * Pow2(s) % BASE % Pow2(s) == 0
  {
    Pow2Word();
    Pow2Add(s, 32 - s);
    MoveLeft(x, Pow2(32 - s), Pow2(s), BASE);
  }

  /** The bits that leave a word moved right, at the top of the word below. */
  lemma RightParts(x: Word, s: nat)
    requires 0 < s < 32
    ensures x == x / Pow2(s) * Pow2(s) + x % Pow2(s) && 0 <= x / Pow2(s) <= x && x / Pow2(s) < Pow2(32 - s)
    ensures x * Pow2(32 - s) % BASE == x % Pow2(s) * Pow2(32 - s)
    ensures x * Pow2(32 - s) % BASE % Pow2(32 - s) == 0
  {
    Pow2Word();
    Pow2Add(32 - s, s);
    MoveLeft(x, Pow2(s), Pow2(32 - s), BASE);
    var q, r := DivMod(x, Pow2(s));
  }

  lemma AtPow2(n: nat, i: nat)
    ensures At(BASE, Pow2(n), i) == Pow2(32 * i + n)
  {
    AtIsPow2(Pow2(n), i);
    Pow2Add(32 * i, n);
  }
}
