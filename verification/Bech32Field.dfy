/**
 The fields behind the error location of Bech32: GF(32), and its extension
 GF(1024) by a root `e` of x^2 + 9x + 23.
 */
module Bech32Field {
  // ----- GF(32)

  /** Multiplication by x, modulo x^5 + x^3 + 1. */
  function X(v: bv5): bv5 { if v & 16 != 0 then (v << 1) ^ 9 else v << 1 }

  function XPow(k: nat, v: bv5): bv5 { if k == 0 then v else X(XPow(k - 1, v)) }

  lemma XPlus(a: bv5, b: bv5)
    ensures X(a ^ b) == X(a) ^ X(b)
  {
  }

  lemma XKernel(a: bv5)
    ensures X(a) == 0 <==> a == 0
  {
  }

  lemma {:induction false} XPowPlus(k: nat, b: bv5, c: bv5)
    ensures XPow(k, b ^ c) == XPow(k, b) ^ XPow(k, c)
  {
    if k > 0 {
      XPowPlus(k - 1, b, c);
      XPlus(XPow(k - 1, b), XPow(k - 1, c));
    }
  }

  lemma {:induction false} XPowZero(k: nat, v: bv5)
    ensures XPow(k, v) == 0 <==> v == 0
  {
    if k > 0 {
      XPowZero(k - 1, v);
      XKernel(XPow(k - 1, v));
    }
  }

  lemma {:induction false} XPowSum(j: nat, k: nat, v: bv5)
    ensures XPow(j + k, v) == XPow(j, XPow(k, v))
    decreases j
  {
    if j > 0 { XPowSum(j - 1, k, v); }
  }

  lemma PowersLow()
    ensures XPow(0, 1) == 1 && XPow(1, 1) == 2 && XPow(2, 1) == 4 && XPow(3, 1) == 8 && XPow(4, 1) == 16 &&
            XPow(5, 1) == 9
    ensures XPow(6, 1) == 18 && XPow(7, 1) == 13 && XPow(8, 1) == 26 && XPow(9, 1) == 29 && XPow(10, 1) == 19 &&
            XPow(11, 1) == 15
    ensures XPow(12, 1) == 30 && XPow(13, 1) == 21 && XPow(14, 1) == 3 && XPow(15, 1) == 6
  {
    assert XPow(1, 1) == 2;
    assert XPow(2, 1) == 4;
    assert XPow(3, 1) == 8;
    assert XPow(4, 1) == 16;
    assert XPow(5, 1) == 9;
    assert XPow(6, 1) == 18;
    assert XPow(7, 1) == 13;
    assert XPow(8, 1) == 26;
    assert XPow(9, 1) == 29;
    assert XPow(10, 1) == 19;
    assert XPow(11, 1) == 15;
    assert XPow(12, 1) == 30;
    assert XPow(13, 1) == 21;
    assert XPow(14, 1) == 3;
    assert XPow(15, 1) == 6;
  }

  lemma PowersHigh()
    ensures XPow(16, 1) == 12 && XPow(17, 1) == 24 && XPow(18, 1) == 25 && XPow(19, 1) == 27 && XPow(20, 1) == 31 &&
            XPow(21, 1) == 23
    ensures XPow(22, 1) == 7 && XPow(23, 1) == 14 && XPow(24, 1) == 28 && XPow(25, 1) == 17 && XPow(26, 1) == 11 &&
            XPow(27, 1) == 22
    ensures XPow(28, 1) == 5 && XPow(29, 1) == 10 && XPow(30, 1) == 20
    ensures XPow(31, 1) == 1
  {
    PowersLow();
    assert XPow(16, 1) == 12;
    assert XPow(17, 1) == 24;
    assert XPow(18, 1) == 25;
    assert XPow(19, 1) == 27;
    assert XPow(20, 1) == 31;
    assert XPow(21, 1) == 23;
    assert XPow(22, 1) == 7;
    assert XPow(23, 1) == 14;
    assert XPow(24, 1) == 28;
    assert XPow(25, 1) == 17;
    assert XPow(26, 1) == 11;
    assert XPow(27, 1) == 22;
    assert XPow(28, 1) == 5;
    assert XPow(29, 1) == 10;
    assert XPow(30, 1) == 20;
  }

  function LogTable(a: bv5): nat {
    if a == 1 then 0 else if a == 2 then 1 else if a == 3 then 14 else if a == 4 then 2 else
    if a == 5 then 28 else if a == 6 then 15 else if a == 7 then 22 else if a == 8 then 3 else
    if a == 9 then 5 else if a == 10 then 29 else if a == 11 then 26 else if a == 12 then 16 else
    if a == 13 then 7 else if a == 14 then 23 else if a == 15 then 11 else if a == 16 then 4 else
    if a == 17 then 25 else if a == 18 then 6 else if a == 19 then 10 else if a == 20 then 30 else
    if a == 21 then 13 else if a == 22 then 27 else if a == 23 then 21 else if a == 24 then 17 else
    if a == 25 then 18 else if a == 26 then 8 else if a == 27 then 19 else if a == 28 then 24 else
    if a == 29 then 9 else if a == 30 then 12 else
    20
  }

  /** Every nonzero element is a power of x. */
  lemma SomePower(a: bv5)
    requires a != 0
    ensures LogTable(a) < 31 && XPow(LogTable(a), 1) == a
  {
    PowersLow();
    PowersHigh();
  }

  lemma LogTableLow(k: nat)
    requires k < 16
    ensures XPow(k, 1) != 0 && LogTable(XPow(k, 1)) == k
  {
    PowersLow();
    assert k == 0 || k == 1 || k == 2 || k == 3 || k == 4 || k == 5 || k == 6 || k == 7 || k == 8 || k == 9 ||
           k == 10 ||
           k == 11 || k == 12 || k == 13 || k == 14 || k == 15;
  }

  lemma LogTableMid(k: nat)
    requires 16 <= k < 24
    ensures XPow(k, 1) != 0 && LogTable(XPow(k, 1)) == k
  {
    PowersHigh();
    assert k == 16 || k == 17 || k == 18 || k == 19 || k == 20 || k == 21 || k == 22 || k == 23;
  }

  lemma LogTableHigh(k: nat)
    requires 24 <= k < 31
    ensures XPow(k, 1) != 0 && LogTable(XPow(k, 1)) == k
  {
    PowersHigh();
    assert k == 24 || k == 25 || k == 26 || k == 27 || k == 28 || k == 29 || k == 30;
  }

  /** Powers below 31 are different. */
  lemma LogTableIs(k: nat)
    requires k < 31
    ensures XPow(k, 1) != 0 && LogTable(XPow(k, 1)) == k
  {
    if k < 16 { LogTableLow(k); } else if k < 24 { LogTableMid(k); } else { LogTableHigh(k); }
  }

  lemma PowerExists(a: bv5)
    requires a != 0
    ensures exists k :: 0 <= k < 31 && XPow(k, 1) == a
  {
    SomePower(a);
  }

  /** The discrete logarithm. */
  ghost function Log32(a: bv5): (k: nat)
    requires a != 0
    ensures k < 31 && XPow(k, 1) == a
  {
    PowerExists(a);
    var k :| 0 <= k < 31 && XPow(k, 1) == a;
    k
  }

  ghost function Times(a: bv5, b: bv5): bv5 {
    if a == 0 then 0 else XPow(Log32(a), b)
  }

  lemma TimesZero(a: bv5)
    ensures Times(0, a) == 0 && Times(a, 0) == 0
  {
    if a != 0 { XPowZero(Log32(a), 0); }
  }

  lemma TimesCommutes(a: bv5, b: bv5)
    ensures Times(a, b) == Times(b, a)
  {
    TimesZero(a);
    TimesZero(b);
    if a != 0 && b != 0 {
      XPowSum(Log32(a), Log32(b), 1);
      XPowSum(Log32(b), Log32(a), 1);
    }
  }

  lemma TimesPlus(a: bv5, b: bv5, c: bv5)
    ensures Times(a, b ^ c) == Times(a, b) ^ Times(a, c)
  {
    if a != 0 { XPowPlus(Log32(a), b, c); }
  }

  lemma PlusTimes(a: bv5, b: bv5, c: bv5)
    ensures Times(a ^ b, c) == Times(a, c) ^ Times(b, c)
  {
    TimesCommutes(a ^ b, c);
    TimesPlus(c, a, b);
    TimesCommutes(a, c);
    TimesCommutes(b, c);
  }

  lemma XPowSwap(j: nat, k: nat, v: bv5)
    ensures XPow(j, XPow(k, v)) == XPow(k, XPow(j, v))
  {
    XPowSum(j, k, v);
    XPowSum(k, j, v);
    assert j + k == k + j;
  }

  lemma XPowTimes(k: nat, a: bv5, b: bv5)
    ensures XPow(k, Times(a, b)) == Times(a, XPow(k, b))
  {
    if a == 0 { XPowZero(k, 0); } else { XPowSwap(k, Log32(a), b); }
  }

  lemma XPowTimesLeft(k: nat, a: bv5, b: bv5)
    ensures XPow(k, Times(a, b)) == Times(XPow(k, a), b)
  {
    TimesCommutes(a, b);
    XPowTimes(k, b, a);
    TimesCommutes(b, XPow(k, a));
  }

  lemma TimesAssociates(a: bv5, b: bv5, c: bv5)
    ensures Times(a, Times(b, c)) == Times(Times(a, b), c)
  {
    TimesZero(c);
    if a == 0 {
      TimesZero(Times(b, c));
      TimesZero(b);
    } else {
      XPowTimesLeft(Log32(a), b, c);
    }
  }

  // ----- GF(1024)

  /** hi * e + lo. */
  datatype Gf = Gf(hi: bv5, lo: bv5)

  const ZERO: Gf := Gf(0, 0)
  const ONE: Gf := Gf(0, 1)

  function Plus(a: Gf, b: Gf): Gf { Gf(a.hi ^ b.hi, a.lo ^ b.lo) }

  function XScale(k: nat, v: Gf): Gf { Gf(XPow(k, v.hi), XPow(k, v.lo)) }

  ghost function Scale(s: bv5, v: Gf): Gf { Gf(Times(s, v.hi), Times(s, v.lo)) }

  /** x^p h e + x^q h. */
  function Embed(p: nat, q: nat, h: bv5): Gf { Gf(XPow(p, h), XPow(q, h)) }
  function Raise(l: bv5): Gf { Gf(l, 0) }

  /** Multiplication by a root of z^2 == x^p z + x^q. */
  function MulRoot(p: nat, q: nat, v: Gf): Gf { Plus(Embed(p, q, v.hi), Raise(v.lo)) }

  /** Multiplication by e, where e^2 == 9 e + 23, 9 == x^5 and 23 == x^21. */
  function MulE(v: Gf): Gf { MulRoot(5, 21, v) }

  function Iter(k: nat, v: Gf): Gf { if k == 0 then v else MulE(Iter(k - 1, v)) }

  /** The powers of e. */
  function E(k: nat): Gf { Iter(k, ONE) }

  ghost function Mul(a: Gf, b: Gf): Gf { Plus(Scale(a.lo, b), Scale(a.hi, MulE(b))) }

  lemma Exchange(a: Gf, b: Gf, c: Gf, d: Gf)
    ensures Plus(Plus(a, b), Plus(c, d)) == Plus(Plus(a, c), Plus(b, d))
  {
  }

  lemma EmbedPlus(p: nat, q: nat, a: bv5, b: bv5)
    ensures Embed(p, q, a ^ b) == Plus(Embed(p, q, a), Embed(p, q, b))
  {
    XPowPlus(p, a, b);
    XPowPlus(q, a, b);
  }

  lemma RaisePlus(a: bv5, b: bv5)
    ensures Raise(a ^ b) == Plus(Raise(a), Raise(b))
  {
  }

  lemma MulRootPlus(p: nat, q: nat, a: Gf, b: Gf)
    ensures MulRoot(p, q, Plus(a, b)) == Plus(MulRoot(p, q, a), MulRoot(p, q, b))
  {
    EmbedPlus(p, q, a.hi, b.hi);
    RaisePlus(a.lo, b.lo);
    Exchange(Embed(p, q, a.hi), Embed(p, q, b.hi), Raise(a.lo), Raise(b.lo));
  }

  lemma MulEPlus(a: Gf, b: Gf)
    ensures MulE(Plus(a, b)) == Plus(MulE(a), MulE(b))
  {
    MulRootPlus(5, 21, a, b);
  }

  lemma {:induction false} IterPlus(k: nat, a: Gf, b: Gf)
    ensures Iter(k, Plus(a, b)) == Plus(Iter(k, a), Iter(k, b))
  {
    if k > 0 {
      IterPlus(k - 1, a, b);
      MulEPlus(Iter(k - 1, a), Iter(k - 1, b));
    }
  }

  lemma {:induction false} IterSum(j: nat, k: nat, v: Gf)
    ensures Iter(j + k, v) == Iter(j, Iter(k, v))
    decreases j
  {
    if j > 0 { IterSum(j - 1, k, v); }
  }

  lemma EmbedScale(p: nat, q: nat, s: bv5, h: bv5)
    ensures Scale(s, Embed(p, q, h)) == Embed(p, q, Times(s, h))
  {
    XPowTimes(p, s, h);
    XPowTimes(q, s, h);
  }

  lemma RaiseScale(s: bv5, l: bv5)
    ensures Scale(s, Raise(l)) == Raise(Times(s, l))
  {
    TimesZero(s);
  }

  lemma MulRootScale(p: nat, q: nat, s: bv5, v: Gf)
    ensures MulRoot(p, q, Scale(s, v)) == Scale(s, MulRoot(p, q, v))
  {
    ScalePlus(s, Embed(p, q, v.hi), Raise(v.lo));
    EmbedScale(p, q, s, v.hi);
    RaiseScale(s, v.lo);
  }

  lemma MulEScale(s: bv5, v: Gf)
    ensures MulE(Scale(s, v)) == Scale(s, MulE(v))
  {
    MulRootScale(5, 21, s, v);
  }

  lemma {:induction false} IterScale(k: nat, s: bv5, v: Gf)
    ensures Iter(k, Scale(s, v)) == Scale(s, Iter(k, v))
  {
    if k > 0 {
      IterScale(k - 1, s, v);
      MulEScale(s, Iter(k - 1, v));
    }
  }

  lemma IterOfZero(k: nat)
    ensures Iter(k, ZERO) == ZERO
  {
    ScaleUnits(ONE);
    IterScale(k, 0, ONE);
    ScaleUnits(Iter(k, ONE));
  }

  lemma ScalePlusHigh(s: bv5, a: Gf, b: Gf)
    ensures Scale(s, Plus(a, b)).hi == Plus(Scale(s, a), Scale(s, b)).hi
  {
    TimesPlus(s, a.hi, b.hi);
  }

  lemma ScalePlusLow(s: bv5, a: Gf, b: Gf)
    ensures Scale(s, Plus(a, b)).lo == Plus(Scale(s, a), Scale(s, b)).lo
  {
    TimesPlus(s, a.lo, b.lo);
  }

  lemma SameGf(a: Gf, b: Gf)
    requires a.hi == b.hi && a.lo == b.lo
    ensures a == b
  {
  }

  lemma ScalePlus(s: bv5, a: Gf, b: Gf)
    ensures Scale(s, Plus(a, b)) == Plus(Scale(s, a), Scale(s, b))
  {
    ScalePlusHigh(s, a, b);
    ScalePlusLow(s, a, b);
    SameGf(Scale(s, Plus(a, b)), Plus(Scale(s, a), Scale(s, b)));
  }

  lemma PlusScale(s: bv5, t: bv5, v: Gf)
    ensures Scale(s ^ t, v) == Plus(Scale(s, v), Scale(t, v))
  {
    PlusTimes(s, t, v.hi);
    PlusTimes(s, t, v.lo);
  }

  lemma ScaleScale(s: bv5, t: bv5, v: Gf)
    ensures Scale(s, Scale(t, v)) == Scale(Times(s, t), v)
  {
    TimesAssociates(s, t, v.hi);
    TimesAssociates(s, t, v.lo);
  }

  lemma ScaleXScale(s: bv5, k: nat, v: Gf)
    ensures Scale(s, XScale(k, v)) == Scale(XPow(k, s), v)
  {
    XPowTimes(k, s, v.hi);
    XPowTimes(k, s, v.lo);
    XPowTimesLeft(k, s, v.hi);
    XPowTimesLeft(k, s, v.lo);
  }

  lemma ScaleUnits(v: Gf)
    ensures Scale(1, v) == v && Scale(0, v) == ZERO
  {
    TimesOne(v.hi);
    TimesOne(v.lo);
  }

  lemma TimesOne(a: bv5)
    ensures Times(1, a) == a
  {
    TimesCommutes(1, a);
    TimesZero(1);
  }

  /** The root satisfies its equation. */
  lemma MulRootTwice(p: nat, q: nat, v: Gf)
    ensures MulRoot(p, q, MulRoot(p, q, v)) == Plus(XScale(p, MulRoot(p, q, v)), XScale(q, v))
  {
    XPowPlus(q, XPow(p, v.hi), v.lo);
    XPowSwap(p, q, v.hi);
  }

  lemma Regroup(p: Gf, q: Gf, r: Gf)
    ensures Plus(p, Plus(q, r)) == Plus(r, Plus(q, p))
  {
  }

  lemma MulRootStep(p: nat, q: nat, hi: bv5, lo: bv5, b: Gf, w: Gf)
    requires w == MulRoot(p, q, b)
    ensures MulRoot(p, q, Plus(Scale(lo, b), Scale(hi, w))) == Plus(Scale(XPow(q, hi), b), Scale(XPow(p, hi) ^ lo, w))
  {
    MulRootPlus(p, q, Scale(lo, b), Scale(hi, w));
    MulRootScale(p, q, lo, b);
    MulRootScale(p, q, hi, w);
    MulRootTwice(p, q, b);
    ScalePlus(hi, XScale(p, w), XScale(q, b));
    ScaleXScale(hi, p, w);
    ScaleXScale(hi, q, b);
    PlusScale(XPow(p, hi), lo, w);
    Regroup(Scale(lo, w), Scale(XPow(p, hi), w), Scale(XPow(q, hi), b));
  }

  lemma MulStep(a: Gf, b: Gf)
    ensures MulE(Mul(a, b)) == Mul(MulE(a), b)
  {
    MulRootStep(5, 21, a.hi, a.lo, b, MulE(b));
  }

  lemma PlusZero(a: Gf)
    ensures Plus(a, ZERO) == a && Plus(a, a) == ZERO
  {
  }

  lemma {:induction false} IterIsMul(k: nat, b: Gf)
    ensures Iter(k, b) == Mul(E(k), b)
  {
    if k == 0 {
      ScaleUnits(b);
      ScaleUnits(MulE(b));
      PlusZero(b);
    } else {
      IterIsMul(k - 1, b);
      MulStep(E(k - 1), b);
    }
  }

  lemma ESum(j: nat, k: nat)
    ensures E(j + k) == Iter(j, E(k)) == Mul(E(j), E(k))
  {
    IterSum(j, k, ONE);
    IterIsMul(j, E(k));
  }

  // ----- computing with constants

  function Sel(a: bv5, mask: bv5, k: bv5): bv5 { if a & mask != 0 then k else 0 }

  /** The product by shifting and adding. */
  function TimesBits(a: bv5, b: bv5): bv5 {
    Sel(a, 1, b) ^ Sel(a, 2, X(b)) ^ Sel(a, 4, X(X(b))) ^ Sel(a, 8, X(X(X(b)))) ^ Sel(a, 16, X(X(X(X(b)))))
  }

  lemma TimesBitsX(a: bv5, b: bv5)
    ensures TimesBits(X(a), b) == X(TimesBits(a, b)) && TimesBits(1, b) == b && TimesBits(0, b) == 0
  {
  }

  lemma {:induction false} TimesBitsPow(k: nat, b: bv5)
    ensures TimesBits(XPow(k, 1), b) == XPow(k, b)
  {
    TimesBitsX(1, b);
    if k > 0 {
      TimesBitsPow(k - 1, b);
      TimesBitsX(XPow(k - 1, 1), b);
    }
  }

  lemma TimesIsBits(a: bv5, b: bv5)
    ensures Times(a, b) == TimesBits(a, b)
  {
    TimesBitsX(1, b);
    if a != 0 { TimesBitsPow(Log32(a), b); }
  }

  function ScaleBits(s: bv5, v: Gf): Gf { Gf(TimesBits(s, v.hi), TimesBits(s, v.lo)) }

  lemma ScaleIsBits(s: bv5, v: Gf)
    ensures Scale(s, v) == ScaleBits(s, v)
  {
    TimesIsBits(s, v.hi);
    TimesIsBits(s, v.lo);
  }

  function MulEBits(v: Gf): Gf { Gf(TimesBits(9, v.hi) ^ v.lo, TimesBits(23, v.hi)) }

  lemma NineTimes(h: bv5)
    ensures XPow(5, h) == TimesBits(9, h)
  {
    PowersLow();
    TimesBitsPow(5, h);
  }

  lemma TwentyThreeTimes(h: bv5)
    ensures XPow(21, h) == TimesBits(23, h)
  {
    PowersHigh();
    TimesBitsPow(21, h);
  }

  lemma MulEIsBits(v: Gf)
    ensures MulE(v) == MulEBits(v)
  {
    NineTimes(v.hi);
    TwentyThreeTimes(v.hi);
  }

  function MulBits(a: Gf, b: Gf): Gf { Plus(ScaleBits(a.lo, b), ScaleBits(a.hi, MulEBits(b))) }

  lemma MulIsBits(a: Gf, b: Gf)
    ensures Mul(a, b) == MulBits(a, b)
  {
    MulEIsBits(b);
    ScaleIsBits(a.lo, b);
    ScaleIsBits(a.hi, MulE(b));
  }

  /** The power of a sum of exponents, computed. */
  lemma EAt(j: nat, k: nat, n: nat, a: Gf, b: Gf, c: Gf)
    requires n == j + k && E(j) == a && E(k) == b && MulBits(a, b) == c
    ensures E(n) == c
  {
    ESum(j, k);
    MulIsBits(a, b);
  }

  lemma BinaryPowers()
    ensures E(1) == Gf(1, 0) && E(2) == Gf(9, 23) && E(4) == Gf(6, 14) && E(8) == Gf(16, 25) && E(16) == Gf(21, 3)
    ensures E(32) == Gf(1, 9) && E(64) == Gf(9, 4) && E(128) == Gf(6, 17) && E(256) == Gf(16, 4) && E(512) == Gf(21, 26)
  {
    MulEIsBits(ONE);
    assert E(1) == MulE(E(0));
    EAt(1, 1, 2, Gf(1, 0), Gf(1, 0), Gf(9, 23));
    EAt(2, 2, 4, Gf(9, 23), Gf(9, 23), Gf(6, 14));
    EAt(4, 4, 8, Gf(6, 14), Gf(6, 14), Gf(16, 25));
    EAt(8, 8, 16, Gf(16, 25), Gf(16, 25), Gf(21, 3));
    EAt(16, 16, 32, Gf(21, 3), Gf(21, 3), Gf(1, 9));
    EAt(32, 32, 64, Gf(1, 9), Gf(1, 9), Gf(9, 4));
    EAt(64, 64, 128, Gf(9, 4), Gf(9, 4), Gf(6, 17));
    EAt(128, 128, 256, Gf(6, 17), Gf(6, 17), Gf(16, 4));
    EAt(256, 256, 512, Gf(16, 4), Gf(16, 4), Gf(21, 26));
  }

  /** e has no smaller order than 1023 == 3 * 11 * 31. */
  lemma OrderPowers()
    ensures E(1) != ONE && E(33) == Gf(0, 23) && E(93) != ONE && E(341) != ONE
  {
    BinaryPowers();
    EAt(32, 1, 33, Gf(1, 9), Gf(1, 0), Gf(0, 23));
    EAt(64, 16, 80, Gf(9, 4), Gf(21, 3), Gf(19, 22));
    EAt(80, 8, 88, Gf(19, 22), Gf(16, 25), Gf(31, 19));
    EAt(88, 4, 92, Gf(31, 19), Gf(6, 14), Gf(18, 21));
    EAt(92, 1, 93, Gf(18, 21), Gf(1, 0), Gf(26, 22));
    EAt(256, 64, 320, Gf(16, 4), Gf(9, 4), Gf(28, 4));
    EAt(320, 16, 336, Gf(28, 4), Gf(21, 3), Gf(4, 26));
    EAt(336, 4, 340, Gf(4, 26), Gf(6, 14), Gf(24, 12));
    EAt(340, 1, 341, Gf(24, 12), Gf(1, 0), Gf(11, 13));
  }

  lemma TopPowers()
    ensures E(997) == Gf(13, 29) && E(998) == Gf(3, 5) && E(999) == Gf(30, 16) && E(1023) == ONE
  {
    BinaryPowers();
    EAt(512, 256, 768, Gf(21, 26), Gf(16, 4), Gf(31, 30));
    EAt(768, 128, 896, Gf(31, 30), Gf(6, 17), Gf(8, 3));
    EAt(896, 64, 960, Gf(8, 3), Gf(9, 4), Gf(7, 6));
    EAt(960, 32, 992, Gf(7, 6), Gf(1, 9), Gf(6, 1));
    EAt(992, 4, 996, Gf(6, 1), Gf(6, 14), Gf(27, 17));
    EAt(996, 1, 997, Gf(27, 17), Gf(1, 0), Gf(13, 29));
    EAt(997, 1, 998, Gf(13, 29), Gf(1, 0), Gf(3, 5));
    EAt(998, 1, 999, Gf(3, 5), Gf(1, 0), Gf(30, 16));
    EAt(992, 16, 1008, Gf(6, 1), Gf(21, 3), Gf(27, 26));
    EAt(1008, 8, 1016, Gf(27, 26), Gf(16, 25), Gf(9, 30));
    EAt(1016, 4, 1020, Gf(9, 30), Gf(6, 14), Gf(2, 3));
    EAt(1020, 2, 1022, Gf(2, 3), Gf(9, 23), Gf(19, 6));
    EAt(1022, 1, 1023, Gf(19, 6), Gf(1, 0), Gf(0, 1));
  }

  // ----- the powers of e repeat after 1023, and not before

  /** How many nonzero elements there are. */
  const ORDER: nat := 1023

  lemma FullPower()
    ensures E(ORDER) == ONE
  {
    TopPowers();
  }

  lemma IterFull(v: Gf)
    ensures Iter(ORDER, v) == v
  {
    FullPower();
    IterIsMul(ORDER, v);
    IterIsMul(0, v);
  }

  lemma EPeriod(n: nat, m: nat)
    requires m == n + ORDER
    ensures E(m) == E(n)
  {
    IterSum(n, ORDER, ONE);
    IterFull(ONE);
  }

  lemma {:induction false} EMod(n: nat)
    ensures E(n) == E(n % ORDER)
  {
    if n >= ORDER {
      EPeriod(n - ORDER, n);
      EMod(n - ORDER);
    }
  }

  lemma ELess(a: nat, b: nat)
    requires b <= a && E(a) == E(b) == ONE
    ensures E(a - b) == ONE
  {
    IterSum(a - b, b, ONE);
  }

  lemma {:induction false} EMultiple(g: nat, m: nat)
    requires E(g) == ONE
    ensures E(g * m) == ONE
    decreases m
  {
    if m > 0 {
      EMultiple(g, m - 1);
      assert g * m == g * (m - 1) + g;
      IterSum(g * (m - 1), g, ONE);
    }
  }

  /** Euclid's algorithm on exponents. */
  lemma {:induction false} CommonPeriod(a: nat, b: nat) returns (g: nat, u: nat, v: nat)
    requires a > 0 && b > 0 && E(a) == ONE && E(b) == ONE
    ensures g > 0 && E(g) == ONE && a == g * u && b == g * v
    decreases a + b
  {
    if a == b {
      g, u, v := a, 1, 1;
    } else if a > b {
      ELess(a, b);
      g, u, v := CommonPeriod(a - b, b);
      assert g * (u + v) == g * u + g * v;
      u := u + v;
    } else {
      ELess(b, a);
      g, u, v := CommonPeriod(a, b - a);
      assert g * (u + v) == g * u + g * v;
      v := u + v;
    }
  }

  lemma SmallFactor(g: nat, u: nat)
    requires g * u == 1023 && g <= 31
    ensures g == 1 || g == 3 || g == 11 || g == 31
  {
    assert g == 0 || g == 1 || g == 2 || g == 3 || g == 4 || g == 5 || g == 6 || g == 7 || g == 8 || g == 9 ||
           g == 10 ||
           g == 11 || g == 12 || g == 13 || g == 14 || g == 15 || g == 16 || g == 17 || g == 18 || g == 19 || g == 20 ||
           g == 21 || g == 22 || g == 23 || g == 24 || g == 25 || g == 26 || g == 27 || g == 28 || g == 29 ||
               g == 30 || g == 31;
  }

  lemma BothLarge(g: nat, u: nat)
    requires g >= 32 && u >= 32
    ensures g * u > 1023
  {
    assert (g - 32) * (u - 32) >= 0;
  }

  lemma Factors(g: nat, u: nat)
    requires g * u == 1023 && g < 1023
    ensures g == 1 || g == 3 || g == 11 || g == 31 || g == 33 || g == 93 || g == 341
  {
    if g <= 31 {
      SmallFactor(g, u);
    } else if u <= 31 {
      assert u * g == 1023;
      SmallFactor(u, g);
    } else {
      BothLarge(g, u);
    }
  }

  lemma FactorsFall(g: nat, u: nat)
    requires g * u == 1023 && 0 < g < 1023
    ensures E(g) != ONE
  {
    Factors(g, u);
    OrderPowers();
    if E(g) == ONE {
      if g == 3 { EMultiple(3, 11); }
      else if g == 11 { EMultiple(11, 3); }
      else if g == 31 { EMultiple(31, 3); }
    }
  }

  lemma FactorBelow(g: nat, v: nat, d: nat)
    requires d == g * v && d > 0
    ensures g <= d
  {
    assert v >= 1;
  }

  /** e is primitive. */
  lemma Order(d: nat)
    requires 0 < d < ORDER
    ensures E(d) != ONE
  {
    if E(d) == ONE {
      FullPower();
      var g, u, v := CommonPeriod(ORDER, d);
      FactorBelow(g, v, d);
      FactorsFall(g, u);
    }
  }

  /** Different powers below ORDER are different. */
  lemma EInjective(i: nat, j: nat)
    requires i < ORDER && j < ORDER && E(i) == E(j)
    ensures i == j
  {
    if i < j { Apart(i, j); } else if j < i { Apart(j, i); }
  }

  lemma Apart(i: nat, j: nat)
    requires i < j < ORDER
    ensures E(i) != E(j)
  {
    var k, d := ORDER - i, j - i;
    IterSumAt(k, i, ORDER, ONE);
    IterSumAt(k, j, k + j, ONE);
    EPeriod(d, k + j);
    FullPower();
    Order(d);
  }

  lemma IterSumAt(j: nat, k: nat, n: nat, v: Gf)
    requires n == j + k
    ensures Iter(n, v) == Iter(j, Iter(k, v))
  {
    IterSum(j, k, v);
  }

  // ----- GF(32) within GF(1024)

  lemma XIsPower()
    ensures E(99) == Gf(0, 2)
  {
    BinaryPowers();
    EAt(64, 32, 96, Gf(9, 4), Gf(1, 9), Gf(4, 6));
    EAt(96, 2, 98, Gf(4, 6), Gf(9, 23), Gf(15, 12));
    EAt(98, 1, 99, Gf(15, 12), Gf(1, 0), Gf(0, 2));
  }

  lemma TimesTwo(v: bv5)
    ensures Times(2, v) == X(v)
  {
    TimesIsBits(2, v);
  }

  lemma IterX(v: bv5)
    ensures Iter(99, Gf(0, v)) == Gf(0, X(v))
  {
    XIsPower();
    IterIsMul(99, Gf(0, v));
    TimesTwo(v);
    TimesZero(2);
    ScaleUnits(MulE(Gf(0, v)));
    PlusZero(Gf(0, X(v)));
  }

  /** The elements of GF(32) are powers of e^33. */
  lemma {:induction false} SmallPowers(k: nat)
    ensures E(99 * k) == Gf(0, XPow(k, 1))
  {
    if k > 0 {
      SmallPowers(k - 1);
      IterSumAt(99, 99 * (k - 1), 99 * k, ONE);
      IterX(XPow(k - 1, 1));
    }
  }

  lemma SmallPower(v: bv5)
    requires v != 0
    ensures E(99 * Log32(v)) == Gf(0, v)
  {
    SmallPowers(Log32(v));
  }

  lemma ScaleSmall(s: bv5)
    ensures Scale(s, ONE) == Gf(0, s)
  {
    TimesZero(s);
    TimesCommutes(s, 1);
    TimesOne(s);
  }
}
