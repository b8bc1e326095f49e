/**
 GF(1024) as a field: every nonzero element is a power of e, and the laws of
 multiplication follow.
 */
module Bech32Algebra {
  import opened Bech32Field

  // ----- the powers of e up to 32, one on each line through 0

  lemma NextE(k: nat, n: nat, a: Gf, b: Gf)
    requires E(k) == a && n == k + 1 && MulEBits(a) == b
    ensures E(n) == b
  {
    MulEIsBits(a);
  }

  lemma FirstPowers()
    ensures E(1) == Gf(1, 0) && E(2) == Gf(9, 23) && E(3) == Gf(4, 11) && E(4) == Gf(6, 14)
    ensures E(5) == Gf(17, 9) && E(6) == Gf(29, 6) && E(7) == Gf(5, 20) && E(8) == Gf(16, 25)
    ensures E(9) == Gf(4, 17) && E(10) == Gf(28, 14) && E(11) == Gf(4, 3) && E(12) == Gf(14, 14)
    ensures E(13) == Gf(11, 21) && E(14) == Gf(20, 12) && E(15) == Gf(28, 31) && E(16) == Gf(21, 3)
  {
    NextE(0, 1, Gf(0, 1), Gf(1, 0));
    NextE(1, 2, Gf(1, 0), Gf(9, 23));
    NextE(2, 3, Gf(9, 23), Gf(4, 11));
    NextE(3, 4, Gf(4, 11), Gf(6, 14));
    NextE(4, 5, Gf(6, 14), Gf(17, 9));
    NextE(5, 6, Gf(17, 9), Gf(29, 6));
    NextE(6, 7, Gf(29, 6), Gf(5, 20));
    NextE(7, 8, Gf(5, 20), Gf(16, 25));
    NextE(8, 9, Gf(16, 25), Gf(4, 17));
    NextE(9, 10, Gf(4, 17), Gf(28, 14));
    NextE(10, 11, Gf(28, 14), Gf(4, 3));
    NextE(11, 12, Gf(4, 3), Gf(14, 14));
    NextE(12, 13, Gf(14, 14), Gf(11, 21));
    NextE(13, 14, Gf(11, 21), Gf(20, 12));
    NextE(14, 15, Gf(20, 12), Gf(28, 31));
    NextE(15, 16, Gf(28, 31), Gf(21, 3));
  }

  lemma LastPowers()
    ensures E(17) == Gf(26, 8) && E(18) == Gf(29, 10) && E(19) == Gf(9, 20) && E(20) == Gf(7, 11)
    ensures E(21) == Gf(29, 30) && E(22) == Gf(29, 20) && E(23) == Gf(23, 20) && E(24) == Gf(31, 15)
    ensures E(25) == Gf(30, 19) && E(26) == Gf(11, 4) && E(27) == Gf(5, 12) && E(28) == Gf(8, 25)
    ensures E(29) == Gf(3, 28) && E(30) == Gf(7, 16) && E(31) == Gf(6, 30) && E(32) == Gf(1, 9)
  {
    BinaryPowers();
    NextE(16, 17, Gf(21, 3), Gf(26, 8));
    NextE(17, 18, Gf(26, 8), Gf(29, 10));
    NextE(18, 19, Gf(29, 10), Gf(9, 20));
    NextE(19, 20, Gf(9, 20), Gf(7, 11));
    NextE(20, 21, Gf(7, 11), Gf(29, 30));
    NextE(21, 22, Gf(29, 30), Gf(29, 20));
    NextE(22, 23, Gf(29, 20), Gf(23, 20));
    NextE(23, 24, Gf(23, 20), Gf(31, 15));
    NextE(24, 25, Gf(31, 15), Gf(30, 19));
    NextE(25, 26, Gf(30, 19), Gf(11, 4));
    NextE(26, 27, Gf(11, 4), Gf(5, 12));
    NextE(27, 28, Gf(5, 12), Gf(8, 25));
    NextE(28, 29, Gf(8, 25), Gf(3, 28));
    NextE(29, 30, Gf(3, 28), Gf(7, 16));
    NextE(30, 31, Gf(7, 16), Gf(6, 30));
    NextE(31, 32, Gf(6, 30), Gf(1, 9));
  }

  // ----- every nonzero element is a power of e

  lemma OnLine(t: bv5, r: nat, c: bv5, a: Gf)
    requires E(r) == a && ScaleBits(c, a) == Gf(1, t) && c != 0
    ensures Scale(c, E(r)) == Gf(1, t)
  {
    ScaleIsBits(c, a);
  }

  lemma Line0(t: bv5) returns (r: nat, c: bv5)
    requires t < 8
    ensures c != 0 && Scale(c, E(r)) == Gf(1, t)
  {
    FirstPowers();
    LastPowers();
    if t == 0 {
      r, c := 1, 1;
      OnLine(t, 1, 1, Gf(1, 0));
    } else if t == 1 {
      r, c := 12, 26;
      OnLine(t, 12, 26, Gf(14, 14));
    } else if t == 2 {
      r, c := 16, 25;
      OnLine(t, 16, 25, Gf(21, 3));
    } else if t == 3 {
      r, c := 8, 22;
      OnLine(t, 8, 22, Gf(16, 25));
    } else if t == 4 {
      r, c := 7, 8;
      OnLine(t, 7, 8, Gf(5, 20));
    } else if t == 5 {
      r, c := 31, 12;
      OnLine(t, 31, 12, Gf(6, 30));
    } else if t == 6 {
      r, c := 28, 5;
      OnLine(t, 28, 5, Gf(8, 25));
    } else {
      r, c := 24, 15;
      OnLine(t, 24, 15, Gf(31, 15));
    }
  }

  lemma Line8(t: bv5) returns (r: nat, c: bv5)
    requires 8 <= t < 16
    ensures c != 0 && Scale(c, E(r)) == Gf(1, t)
  {
    FirstPowers();
    LastPowers();
    if t == 8 {
      r, c := 21, 7;
      OnLine(t, 21, 7, Gf(29, 30));
    } else if t == 9 {
      r, c := 32, 1;
      OnLine(t, 32, 1, Gf(1, 9));
    } else if t == 10 {
      r, c := 25, 27;
      OnLine(t, 25, 27, Gf(30, 19));
    } else if t == 11 {
      r, c := 17, 14;
      OnLine(t, 17, 14, Gf(26, 8));
    } else if t == 12 {
      r, c := 2, 11;
      OnLine(t, 2, 11, Gf(9, 23));
    } else if t == 13 {
      r, c := 26, 9;
      OnLine(t, 26, 9, Gf(11, 4));
    } else if t == 14 {
      r, c := 9, 10;
      OnLine(t, 9, 10, Gf(4, 17));
    } else {
      r, c := 5, 18;
      OnLine(t, 5, 18, Gf(17, 9));
    }
  }

  lemma Line16(t: bv5) returns (r: nat, c: bv5)
    requires 16 <= t < 24
    ensures c != 0 && Scale(c, E(r)) == Gf(1, t)
  {
    FirstPowers();
    LastPowers();
    if t == 16 {
      r, c := 20, 29;
      OnLine(t, 20, 29, Gf(7, 11));
    } else if t == 17 {
      r, c := 19, 11;
      OnLine(t, 19, 11, Gf(9, 20));
    } else if t == 18 {
      r, c := 6, 7;
      OnLine(t, 6, 7, Gf(29, 6));
    } else if t == 19 {
      r, c := 29, 24;
      OnLine(t, 29, 24, Gf(3, 28));
    } else if t == 20 {
      r, c := 10, 13;
      OnLine(t, 10, 13, Gf(28, 14));
    } else if t == 21 {
      r, c := 30, 29;
      OnLine(t, 30, 29, Gf(7, 16));
    } else if t == 22 {
      r, c := 15, 13;
      OnLine(t, 15, 13, Gf(28, 31));
    } else {
      r, c := 22, 7;
      OnLine(t, 22, 7, Gf(29, 20));
    }
  }

  lemma Line24(t: bv5) returns (r: nat, c: bv5)
    requires t >= 24
    ensures c != 0 && Scale(c, E(r)) == Gf(1, t)
  {
    FirstPowers();
    LastPowers();
    if t == 24 {
      r, c := 14, 2;
      OnLine(t, 14, 2, Gf(20, 12));
    } else if t == 25 {
      r, c := 13, 9;
      OnLine(t, 13, 9, Gf(11, 21));
    } else if t == 26 {
      r, c := 4, 12;
      OnLine(t, 4, 12, Gf(6, 14));
    } else if t == 27 {
      r, c := 27, 8;
      OnLine(t, 27, 8, Gf(5, 12));
    } else if t == 28 {
      r, c := 3, 10;
      OnLine(t, 3, 10, Gf(4, 11));
    } else if t == 29 {
      r, c := 23, 19;
      OnLine(t, 23, 19, Gf(23, 20));
    } else if t == 30 {
      r, c := 11, 10;
      OnLine(t, 11, 10, Gf(4, 3));
    } else {
      r, c := 18, 7;
      OnLine(t, 18, 7, Gf(29, 10));
    }
  }

  /** Gf(1, t) is a multiple of a power of e. */
  lemma Line(t: bv5) returns (r: nat, c: bv5)
    ensures c != 0 && Scale(c, E(r)) == Gf(1, t)
  {
    if t < 8 { r, c := Line0(t); }
    else if t < 16 { r, c := Line8(t); }
    else if t < 24 { r, c := Line16(t); }
    else { r, c := Line24(t); }
  }

  /** Elements of GF(32) are powers, so multiples of powers are powers. */
  lemma ScaledPower(c: bv5, r: nat) returns (n: nat)
    requires c != 0
    ensures E(n) == Scale(c, E(r))
  {
    var m := 99 * Log32(c);
    SmallPower(c);
    n := r + m;
    IterSumAt(r, m, n, ONE);
    ScaleSmall(c);
    IterScale(r, c, ONE);
  }

  lemma Inverse32(h: bv5) returns (c: bv5)
    requires h != 0
    ensures c != 0 && Times(c, h) == 1
  {
    var k := Log32(h);
    c := XPow(31 - k, 1);
    XPowZero(31 - k, 1);
    XPowTimesLeft(31 - k, 1, h);
    TimesOne(h);
    XPowSum(31 - k, k, 1);
    PowersHigh();
  }

  lemma SomeE(v: Gf) returns (n: nat)
    requires v != ZERO
    ensures E(n) == v
  {
    if v.hi == 0 {
      n := 99 * Log32(v.lo);
      SmallPower(v.lo);
    } else {
      var c := Inverse32(v.hi);
      var w := Scale(c, v);
      var r, d := Line(w.lo);
      assert w == Gf(1, w.lo);
      ScaleBack(v, c);
      ScaleScale(v.hi, d, E(r));
      TimesNonzero(v.hi, d);
      n := ScaledPower(Times(v.hi, d), r);
    }
  }

  lemma ScaleBack(v: Gf, c: bv5)
    requires Times(c, v.hi) == 1
    ensures Scale(v.hi, Scale(c, v)) == v
  {
    ScaleScale(v.hi, c, v);
    TimesCommutes(v.hi, c);
    ScaleUnits(v);
  }

  lemma TimesNonzero(a: bv5, b: bv5)
    requires a != 0 && b != 0
    ensures Times(a, b) != 0
  {
    XPowZero(Log32(a), b);
  }

  /** Every nonzero element is a power of e below 1023. */
  lemma PowerOf(v: Gf) returns (n: nat)
    requires v != ZERO
    ensures n < ORDER && E(n) == v
  {
    var m := SomeE(v);
    n := m % ORDER;
    EMod(m);
  }

  lemma HasLog(v: Gf)
    requires v != ZERO
    ensures exists n :: 0 <= n < ORDER && E(n) == v
  {
    var n := PowerOf(v);
  }

  /** The discrete logarithm. */
  ghost function LogOf(v: Gf): (n: nat)
    requires v != ZERO
    ensures n < ORDER && E(n) == v
  {
    HasLog(v);
    var n :| 0 <= n < ORDER && E(n) == v;
    n
  }

  // ----- the laws of multiplication

  lemma MulIsIter(n: nat, a: Gf, b: Gf)
    requires a == E(n)
    ensures Mul(a, b) == Iter(n, b)
  {
    IterIsMul(n, b);
  }

  lemma MulZero(a: Gf)
    ensures Mul(ZERO, a) == ZERO && Mul(a, ZERO) == ZERO
  {
    ScaleUnits(a);
    ScaleUnits(MulE(a));
    PlusZero(ZERO);
    if a != ZERO {
      MulIsIter(LogOf(a), a, ZERO);
      IterOfZero(LogOf(a));
    }
  }

  lemma MulPowers(j: nat, k: nat, a: Gf, b: Gf)
    requires a == E(j) && b == E(k)
    ensures Mul(a, b) == E(j + k)
  {
    ESum(j, k);
  }

  lemma MulCommutes(a: Gf, b: Gf)
    ensures Mul(a, b) == Mul(b, a)
  {
    MulZero(a);
    MulZero(b);
    if a != ZERO && b != ZERO {
      var j, k := LogOf(a), LogOf(b);
      MulPowers(j, k, a, b);
      MulPowers(k, j, b, a);
      assert j + k == k + j;
    }
  }

  lemma MulPlus(a: Gf, b: Gf, c: Gf)
    ensures Mul(a, Plus(b, c)) == Plus(Mul(a, b), Mul(a, c))
  {
    if a == ZERO {
      MulZero(Plus(b, c));
      MulZero(b);
      MulZero(c);
      PlusZero(ZERO);
    } else {
      var n := LogOf(a);
      MulIsIter(n, a, Plus(b, c));
      MulIsIter(n, a, b);
      MulIsIter(n, a, c);
      IterPlus(n, b, c);
    }
  }

  lemma PlusMul(a: Gf, b: Gf, c: Gf)
    ensures Mul(Plus(a, b), c) == Plus(Mul(a, c), Mul(b, c))
  {
    MulCommutes(Plus(a, b), c);
    MulPlus(c, a, b);
    MulCommutes(a, c);
    MulCommutes(b, c);
  }

  lemma MulAssociates(a: Gf, b: Gf, c: Gf)
    ensures Mul(Mul(a, b), c) == Mul(a, Mul(b, c))
  {
    if a == ZERO {
      MulZero(b);
      MulZero(c);
      MulZero(Mul(b, c));
    } else if b == ZERO {
      MulZero(a);
      MulZero(c);
    } else {
      var j, k := LogOf(a), LogOf(b);
      MulPowers(j, k, a, b);
      MulIsIter(j + k, Mul(a, b), c);
      MulIsIter(k, b, c);
      MulIsIter(j, a, Mul(b, c));
      IterSum(j, k, c);
    }
  }

  lemma MulOne(a: Gf)
    ensures Mul(ONE, a) == a && Mul(a, ONE) == a
  {
    MulIsIter(0, ONE, a);
    MulCommutes(ONE, a);
  }

  lemma MulNonzero(a: Gf, b: Gf)
    requires a != ZERO && b != ZERO
    ensures Mul(a, b) != ZERO
  {
    var j, k := LogOf(a), LogOf(b);
    MulPowers(j, k, a, b);
    PowerNonzero(j + k);
  }

  lemma PowerNonzero(i: nat)
    ensures E(i) != ZERO
  {
    if E(i) == ZERO {
      var k := ORDER * (i + 1) - i;
      IterSumAt(k, i, ORDER * (i + 1), ONE);
      IterOfZero(k);
      FullPower();
      EMultiple(ORDER, i + 1);
    }
  }

  lemma MulCancel(a: Gf, b: Gf, c: Gf)
    requires a != ZERO && Mul(a, b) == Mul(a, c)
    ensures b == c
  {
    MulPlus(a, b, c);
    PlusZero(Mul(a, b));
    if Plus(b, c) != ZERO { MulNonzero(a, Plus(b, c)); }
    PlusSame(b, c);
  }

  lemma PlusSame(a: Gf, b: Gf)
    ensures Plus(a, b) == ZERO <==> a == b
    ensures Plus(a, b) == Plus(b, a)
  {
  }
}
