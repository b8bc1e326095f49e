/**
 Conversion of numbers between two bases, digit by digit, in a buffer of fixed
 size.
 */
module Radix {
  import opened Helpers
  import opened Positional

  // ----- powers

  lemma {:induction false} PowPositive(b: nat, n: nat)
    requires b > 0
    ensures Pow(b, n) > 0
  {
    if n > 0 { PowPositive(b, n - 1); }
  }

  lemma {:induction false} PowAdd(b: nat, m: nat, n: nat)
    ensures Pow(b, m + n) == Pow(b, m) * Pow(b, n)
    decreases m
  {
    if m > 0 {
      PowAdd(b, m - 1, n);
      Associate(b, Pow(b, m - 1), Pow(b, n));
    }
  }

  lemma {:induction false} PowPow(b: nat, m: nat, n: nat)
    ensures Pow(Pow(b, m), n) == Pow(b, m * n)
    decreases n
  {
    if n > 0 {
      PowPow(b, m, n - 1);
      assert m * n == m + m * (n - 1);
      PowAdd(b, m, m * (n - 1));
    }
  }

  lemma ProductsLe(a: nat, b: nat, c: nat, d: nat)
    requires a <= b && c <= d
    ensures a * c <= b * d
  {
    assert (b - a) * c >= 0 && b * (d - c) >= 0;
  }

  lemma {:induction false} PowMonotone(a: nat, b: nat, n: nat)
    requires a <= b
    ensures Pow(a, n) <= Pow(b, n)
  {
    if n > 0 {
      PowMonotone(a, b, n - 1);
      ProductsLe(a, b, Pow(a, n - 1), Pow(b, n - 1));
    }
  }

  lemma {:induction false} PowLess(b: nat, m: nat, n: nat)
    requires b >= 2 && m < n
    ensures Pow(b, m) < Pow(b, n)
    decreases n
  {
    PowPositive(b, n - 1);
    assert Pow(b, n) >= 2 * Pow(b, n - 1) by { ProductsLe(2, b, Pow(b, n - 1), Pow(b, n - 1)); }
    if m < n - 1 { PowLess(b, m, n - 1); }
  }

  /** If p digits of base a fit in q digits of base b, then n digits of base a
      fit in n * q / p + 1 digits of base b. */
  lemma SizeSuffices(a: nat, b: nat, p: nat, q: nat, n: nat)
    requires b >= 2 && p > 0 && Pow(a, p) <= Pow(b, q)
    ensures Pow(a, n) < Pow(b, n * q / p + 1)
  {
    var s := n * q / p + 1;
    Rounded(n, q, p, s);
    var x, y := q * n, s * p;
    PowSwap(a, p, n);
    PowPow(b, q, n);
    PowPow(b, s, p);
    PowMonotone(Pow(a, p), Pow(b, q), n);
    PowLess(b, x, y);
    if Pow(a, n) >= Pow(b, s) { PowMonotone(Pow(b, s), Pow(a, n), p); }
  }

  lemma Rounded(n: nat, q: nat, p: nat, s: nat)
    requires p > 0 && s == n * q / p + 1
    ensures q * n < s * p
  {
    var m := n * q;
    assert m == m / p * p + m % p;
    Distribute(p, m / p, 1);
  }

  lemma PowSwap(a: nat, p: nat, n: nat)
    ensures Pow(Pow(a, p), n) == Pow(Pow(a, n), p)
  {
    PowPow(a, p, n);
    PowPow(a, n, p);
    Commute(p, n);
  }

  lemma Commute(p: int, n: int)
    ensures p * n == n * p
  {
  }

  lemma Sizes256To58()
    ensures Pow(256, 100) <= Pow(58, 138)
  {
    assert Pow(256, 8) <= Pow(58, 11) && Pow(256, 4) <= Pow(58, 6);
    PowPow(256, 8, 12);
    PowPow(58, 11, 12);
    PowMonotone(Pow(256, 8), Pow(58, 11), 12);
    PowAdd(256, 96, 4);
    PowAdd(58, 132, 6);
    ProductsLe(Pow(256, 96), Pow(58, 132), Pow(256, 4), Pow(58, 6));
  }

  lemma Double(b: nat, n: nat, v: nat, m: nat, w: nat)
    requires Pow(b, n) == v && m == n + n && v * v == w
    ensures Pow(b, m) == w
  {
    PowAdd(b, n, n);
  }

  const POW_256_52: nat :=
    0x100000000000000000000000000000000000000000000000000000000000000000000000000000000000000000000000000000000

  lemma PowersOf58()
    ensures Pow(58, 71) <= POW_256_52
  {
    assert Pow(58, 8) == 128063081718016;
    Double(58, 8, 128063081718016, 16, 16400152899115243850138976256);
    Double(58, 16, 16400152899115243850138976256, 32,
           268965015114358137726910587140455987105619365599731777536);
    Double(58, 32, 268965015114358137726910587140455987105619365599731777536, 64,
    72342179355466901471258927612150153907721848234316445933056526044582001260898145151856420451025374266490194231296);
    assert Pow(58, 7) == 2207984167552;
    PowAdd(58, 64, 7);
  }

  lemma PowersOf256()
    ensures Pow(256, 52) == POW_256_52
  {
    assert Pow(256, 13) == 0x1_00_0000_0000_0000_0000_0000_0000;
    Double(256, 13, 0x1_00_0000_0000_0000_0000_0000_0000, 26,
        0x1_0000_0000_0000_0000_0000_0000_0000_0000_0000_0000_0000_0000_0000);
    Double(256, 26, 0x1_0000_0000_0000_0000_0000_0000_0000_0000_0000_0000_0000_0000_0000, 52,
           POW_256_52);
  }

  lemma Sizes58To256()
    ensures Pow(58, 1000) <= Pow(256, 733)
  {
    PowersOf58();
    PowersOf256();
    assert Pow(58, 6) <= Pow(256, 5);
    PowPow(58, 71, 14);
    PowPow(256, 52, 14);
    PowMonotone(Pow(58, 71), Pow(256, 52), 14);
    PowAdd(58, 994, 6);
    PowAdd(256, 728, 5);
    ProductsLe(Pow(58, 994), Pow(256, 728), Pow(58, 6), Pow(256, 5));
  }

  // ----- digits, highest first

  ghost predicate InBase(b: nat, d: seq<int>) { forall i :: 0 <= i < |d| ==> 0 <= d[i] < b }

  ghost function Num(b: nat, d: seq<int>): int {
    if |d| == 0 then 0 else Num(b, d[..|d| - 1]) * b + d[|d| - 1]
  }

  /** The digits of a number, without leading zeroes. */
  ghost function Digits(b: nat, n: nat): seq<int>
    requires b >= 2
  {
    if n == 0 then [] else Digits(b, n / b) + [n % b]
  }

  lemma DivMod(n: nat, b: nat) returns (q: nat, r: nat)
    requires b >= 2
    ensures q == n / b && r == n % b && n == q * b + r && r < b && (n > 0 ==> q < n)
  {
    q, r := n / b, n % b;
  }

  lemma {:induction false} DigitsNum(b: nat, n: nat)
    requires b >= 2
    ensures Num(b, Digits(b, n)) == n && InBase(b, Digits(b, n)) && (n > 0 ==> Digits(b, n)[0] != 0)
  {
    if n > 0 {
      var q, r := DivMod(n, b);
      DigitsNum(b, q);
      var d := Digits(b, q) + [r];
      assert d[..|d| - 1] == Digits(b, q);
      if q > 0 { assert d[0] == Digits(b, q)[0]; }
    }
  }

  lemma {:induction false} NumNonneg(b: nat, d: seq<int>)
    requires InBase(b, d)
    ensures Num(b, d) >= 0
    ensures b >= 2 && |d| > 0 && d[0] != 0 ==> Num(b, d) > 0
  {
    if |d| > 0 {
      var rest := d[..|d| - 1];
      NumNonneg(b, rest);
      if |rest| > 0 { assert rest[0] == d[0]; }
      assert Num(b, rest) * b >= 0;
      if b >= 2 && Num(b, rest) > 0 { assert Num(b, rest) * b > 0; }
    }
  }

  /** Digits without leading zeroes are the digits of the number they stand for. */
  lemma {:induction false} NumDigits(b: nat, d: seq<int>)
    requires b >= 2 && InBase(b, d) && (|d| > 0 ==> d[0] != 0)
    ensures Num(b, d) >= 0 && Digits(b, Num(b, d)) == d
  {
    NumNonneg(b, d);
    if |d| > 0 {
      var rest, last := d[..|d| - 1], d[|d| - 1];
      if |rest| > 0 { assert rest[0] == d[0]; }
      NumNonneg(b, rest);
      NumDigits(b, rest);
      QuotRem(Num(b, d), b, Num(b, rest), last);
      assert d == rest + [last];
    }
  }

  lemma OneMoreDigit(b: nat, m: int, p: int, x: int)
    requires 0 <= m < p && 0 <= x < b
    ensures 0 <= m * b + x < b * p
  {
    ProductsLe(m + 1, p, b, b);
    ProductsLe(0, m, b, b);
    Distribute(b, m, 1);
  }

  /** `n` digits express the numbers below b^n. */
  lemma {:induction false} NumBelow(b: nat, d: seq<int>)
    requires InBase(b, d) && b >= 1
    ensures 0 <= Num(b, d) < Pow(b, |d|)
  {
    if |d| > 0 {
      var n := |d| - 1;
      NumBelow(b, d[..n]);
      OneMoreDigit(b, Num(b, d[..n]), Pow(b, n), d[n]);
    }
  }

  // ----- digits in a buffer, lowest first

  function Reversed(d: seq<int>): seq<int> {
    seq(|d|, i requires 0 <= i < |d| => d[|d| - 1 - i])
  }

  lemma {:induction false} NumCons(b: nat, x: int, d: seq<int>)
    ensures Num(b, [x] + d) == At(b, x, |d|) + Num(b, d)
  {
    var e := [x] + d;
    if |d| == 0 {
      assert e[..0] == [];
    } else {
      var n := |d| - 1;
      NumCons(b, x, d[..n]);
      assert e[..|d|] == [x] + d[..n];
      Distribute(b, At(b, x, n), Num(b, d[..n]));
    }
  }

  /** Read from the other end, it is the same number. */
  lemma {:induction false} NumReversed(b: nat, d: seq<int>)
    ensures Num(b, Reversed(d)) == Val(b, d)
  {
    if |d| > 0 {
      var n := |d| - 1;
      NumReversed(b, d[..n]);
      assert Reversed(d) == [d[n]] + Reversed(d[..n]);
      NumCons(b, d[n], Reversed(d[..n]));
    }
  }

  lemma {:induction false} ValZeroes(b: nat, d: seq<int>, n: nat)
    requires n <= |d| && forall i :: n <= i < |d| ==> d[i] == 0
    ensures Val(b, d) == Val(b, d[..n])
  {
    if n == |d| {
      assert d[..n] == d;
    } else {
      ValZeroes(b, d[..|d| - 1], n);
      assert d[..|d| - 1][..n] == d[..n];
      AtIs(b, 0, |d| - 1);
    }
  }

  lemma MulAddStep(b: nat, m: int, x: seq<int>, i: nat, v: int, c: int, carry: int, w: int, carry': int)
    requires i < |x| && v + At(b, carry, i) == m * Val(b, x[..i]) + c && carry + m * x[i] == w + b * carry'
    ensures v + At(b, w, i) + At(b, carry', i + 1) == m * Val(b, x[..i + 1]) + c
  {
    CarryStep(b, i, carry + m * x[i], carry, m * x[i], w, carry');
    AtTimes(b, m, x[i], i);
    ValPush(b, x, x[..i], i);
    Distribute(m, Val(b, x[..i]), At(b, x[i], i));
  }

  lemma SplitDigit(n: nat, b: nat) returns (w: nat, carry: nat)
    requires b >= 2
    ensures w == n % b && carry == n / b && n == w + b * carry && w < b && (w == 0 && carry == 0 <==> n == 0)
  {
    w, carry := n % b, n / b;
  }

  /** A buffer in which the digits above `length` are unused. */
  ghost predicate Filled(b: nat, d: seq<int>, length: nat) {
    && length <= |d| && InBase(b, d)
    && (forall i :: length <= i < |d| ==> d[i] == 0)
    && (length > 0 ==> d[length - 1] != 0)
  }

  lemma CarryFits(b: nat, v: int, carry: nat, size: nat, total: int)
    requires b >= 2 && v >= 0 && v + At(b, carry, size) == total < Pow(b, size)
    ensures carry == 0
  {
    AtIs(b, carry, size);
    PowPositive(b, size);
    if carry >= 1 { ProductsLe(1, carry, Pow(b, size), Pow(b, size)); }
  }

  lemma {:induction false} ValBounds(b: nat, d: seq<int>)
    requires b >= 2 && InBase(b, d)
    ensures 0 <= Val(b, d) < Pow(b, |d|)
    ensures |d| > 0 && d[|d| - 1] != 0 ==> Val(b, d) >= Pow(b, |d| - 1)
  {
    NumReversed(b, d);
    NumBelow(b, Reversed(d));
    if |d| > 0 {
      var n := |d| - 1;
      NumReversed(b, d[..n]);
      NumBelow(b, Reversed(d[..n]));
      AtIs(b, d[n], n);
      if d[n] != 0 { ProductsLe(1, d[n], Pow(b, n), Pow(b, n)); }
    }
  }

  /** The top digit stays in use when the number does not get smaller. */
  lemma TopStays(b: nat, d: seq<int>, d': seq<int>, n: nat)
    requires b >= 2 && Filled(b, d, n) && n > 0 && |d'| == |d| && InBase(b, d') && forall i :: n <= i < |d| ==>
             d'[i] == 0
    requires Val(b, d) <= Val(b, d')
    ensures d'[n - 1] != 0
  {
    ValZeroes(b, d, n);
    ValBounds(b, d[..n]);
    if d'[n - 1] == 0 {
      ValZeroes(b, d', n - 1);
      ValBounds(b, d'[..n - 1]);
    }
  }

  /** buffer = buffer * m + c, in base b, keeping count of the digits in use. The
      number must fit in the buffer. */
  method MulAdd(buffer: array<int>, b: nat, m: nat, c: nat, length: nat) returns (n: nat)
    requires b >= 2 && m >= 1 && Filled(b, buffer[..], length)
    requires m * Val(b, buffer[..]) + c < Pow(b, buffer.Length)
    modifies buffer
    ensures Filled(b, buffer[..], n) && Val(b, buffer[..]) == m * old(Val(b, buffer[..])) + c
  {
    ghost var x := buffer[..];
    var carry: int := c;
    var i := 0;
    while (carry != 0 || i < length) && i < buffer.Length
      invariant 0 <= i <= buffer.Length && carry >= 0 && InBase(b, buffer[..])
      invariant forall j :: i <= j < buffer.Length ==> buffer[j] == x[j]
      invariant Val(b, buffer[..i]) + At(b, carry, i) == m * Val(b, x[..i]) + c
      invariant i > length ==> buffer[i - 1] != 0 || carry != 0
      decreases buffer.Length - i
    {
      ghost var done, carry0 := buffer[..i], carry;
      carry := carry + m * buffer[i];
      ghost var w, rest := SplitDigit(carry, b);
      buffer[i] := carry % b;
      carry := carry / b;
      ValPush(b, buffer[..], done, i);
      MulAddStep(b, m, x, i, Val(b, done), c, carry0, buffer[i], carry);
      i := i + 1;
    }
    n := i;
    Finished(b, m, c, x, buffer[..], length, n, carry);
  }

  /** When the loop ends nothing is left to carry. */
  lemma Finished(b: nat, m: nat, c: nat, x: seq<int>, y: seq<int>, length: nat, n: nat, carry: nat)
    requires b >= 2 && m >= 1 && Filled(b, x, length) && |y| == |x| && InBase(b, y) && n <= |x|
    requires m * Val(b, x) + c < Pow(b, |x|)
    requires forall j :: n <= j < |x| ==> y[j] == x[j]
    requires Val(b, y[..n]) + At(b, carry, n) == m * Val(b, x[..n]) + c
    requires n > length ==> y[n - 1] != 0 || carry != 0
    requires n < |x| ==> carry == 0 && n >= length
    ensures carry == 0 && Filled(b, y, n) && Val(b, y) == m * Val(b, x) + c
  {
    if n == |x| {
      assert y[..n] == y && x[..n] == x;
      ValBounds(b, y);
      CarryFits(b, Val(b, y), carry, n, m * Val(b, x) + c);
    }
    AtIs(b, carry, n);
    ValZeroes(b, x, n);
    ValZeroes(b, y, n);
    ValBounds(b, x);
    ProductsLe(1, m, Val(b, x), Val(b, x));
    if n == length && n > 0 { TopStays(b, x, y, n); }
  }
}
