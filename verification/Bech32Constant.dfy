/**
 The constants of Bech32 and Bech32m: the only two errors within 1023 values that lead from one
 to the other are 33 and 192 places before the end, with the same difference, 19.
 */
module Bech32Constant {
  import opened Bech32Algebra
  import opened Bech32Errors
  import opened Bech32Field
  import opened Bech32Locate
  import opened Bech32Search
  import opened Bech32Syndrome

  /** The difference of the two constants, and its three values. */
  const CLASH: bv30 := 0x2bc830a2
  const K0: Gf := Gf(1, 0)
  const K1: Gf := Gf(7, 17)
  const K2: Gf := Gf(13, 9)

  /** K1^2 + K0 K2. */
  const NORM: Gf := Gf(14, 22)

  // ----- its values

  lemma ClashCoefficients()
    ensures Coefficients6(CLASH) == [2, 5, 12, 16, 28, 21]
  {
    SixAlike(Coefficients6(CLASH), [2, 5, 12, 16, 28, 21]);
  }

  lemma ClashAt997()
    ensures Eval(997, [2, 5, 12, 16, 28, 21]) == K0
  {
    Powers997();
    SixAt(997, [2, 5, 12, 16, 28, 21], Gf(0, 1), Gf(13, 29), Gf(27, 9), Gf(26, 15), Gf(30, 22), Gf(3, 20));
  }

  lemma ClashAt998()
    ensures Eval(998, [2, 5, 12, 16, 28, 21]) == K1
  {
    Powers998();
    SixAt(998, [2, 5, 12, 16, 28, 21], Gf(0, 1), Gf(3, 5), Gf(4, 8), Gf(27, 19), Gf(29, 3), Gf(18, 26));
  }

  lemma ClashAt999()
    ensures Eval(999, [2, 5, 12, 16, 28, 21]) == K2
  {
    Powers999();
    SixAt(999, [2, 5, 12, 16, 28, 21], Gf(0, 1), Gf(30, 16), Gf(10, 25), Gf(22, 6), Gf(2, 17), Gf(2, 2));
  }

  lemma ClashSyndrome()
    ensures SyndromeOf(CLASH) == Triple(K0, K1, K2)
  {
    ClashCoefficients();
    ClashAt997();
    ClashAt998();
    ClashAt999();
  }

  // ----- multiples of powers

  lemma NextMultiple(k: nat, n: nat, a: bv5, b: bv5)
    requires E(k) == Gf(0, a) && n == k + 33 && TimesBits(23, a) == b
    ensures E(n) == Gf(0, b)
  {
    OrderPowers();
    PowerScaled(k, 33, 23);
    IterSumAt(k, 33, n, ONE);
    ScaleIsBits(23, Gf(0, a));
    TimesIsBits(23, 0);
    TimesZero(23);
  }

  lemma FirstMultiples()
    ensures E(33) == Gf(0, 23) && E(66) == Gf(0, 15) && E(99) == Gf(0, 2) && E(132) == Gf(0, 7) && E(165) == Gf(0, 30)
    ensures E(198) == Gf(0, 4) && E(231) == Gf(0, 14) && E(264) == Gf(0, 21) && E(297) == Gf(0, 8) &&
            E(330) == Gf(0, 28)
    ensures E(363) == Gf(0, 3) && E(396) == Gf(0, 16) && E(429) == Gf(0, 17) && E(462) == Gf(0, 6) && E(495) == Gf(0, 9)
  {
    OrderPowers();
    NextMultiple(33, 66, 23, 15);
    NextMultiple(66, 99, 15, 2);
    NextMultiple(99, 132, 2, 7);
    NextMultiple(132, 165, 7, 30);
    NextMultiple(165, 198, 30, 4);
    NextMultiple(198, 231, 4, 14);
    NextMultiple(231, 264, 14, 21);
    NextMultiple(264, 297, 21, 8);
    NextMultiple(297, 330, 8, 28);
    NextMultiple(330, 363, 28, 3);
    NextMultiple(363, 396, 3, 16);
    NextMultiple(396, 429, 16, 17);
    NextMultiple(429, 462, 17, 6);
    NextMultiple(462, 495, 6, 9);
  }

  lemma LastMultiples()
    ensures E(528) == Gf(0, 11) && E(561) == Gf(0, 12) && E(594) == Gf(0, 18) && E(627) == Gf(0, 22) &&
            E(660) == Gf(0, 24)
    ensures E(693) == Gf(0, 13) && E(726) == Gf(0, 5) && E(759) == Gf(0, 25) && E(792) == Gf(0, 26) &&
            E(825) == Gf(0, 10)
    ensures E(858) == Gf(0, 27) && E(891) == Gf(0, 29) && E(924) == Gf(0, 20) && E(957) == Gf(0, 31) &&
            E(990) == Gf(0, 19)
  {
    FirstMultiples();
    NextMultiple(495, 528, 9, 11);
    NextMultiple(528, 561, 11, 12);
    NextMultiple(561, 594, 12, 18);
    NextMultiple(594, 627, 18, 22);
    NextMultiple(627, 660, 22, 24);
    NextMultiple(660, 693, 24, 13);
    NextMultiple(693, 726, 13, 5);
    NextMultiple(726, 759, 5, 25);
    NextMultiple(759, 792, 25, 26);
    NextMultiple(792, 825, 26, 10);
    NextMultiple(825, 858, 10, 27);
    NextMultiple(858, 891, 27, 29);
    NextMultiple(891, 924, 29, 20);
    NextMultiple(924, 957, 20, 31);
    NextMultiple(957, 990, 31, 19);
  }

  /** Every power is a multiple of one up to 32. */
  lemma OnItsLine(n: nat, r: nat) returns (c: bv5)
    requires r == n % 33
    ensures c != 0 && E(n) == Scale(c, E(r)) && E(n - r) == Gf(0, c)
  {
    var k := n - r;
    MultipleOf33(n / 33, k);
    PowerNonzero(k);
    c := E(k).lo;
    PowerScaled(r, k, c);
  }

  /** Different lines meet only in 0. */
  lemma LinesMeet(s: nat, t: nat, a: bv5, b: bv5)
    requires s < 33 && t < 33 && s != t && Scale(a, E(s)) == Scale(b, E(t))
    ensures a == 0 && b == 0
  {
    ScaleNonzero(a, s);
    ScaleNonzero(b, t);
    if a != 0 && b != 0 { SameLine(s, t, a, b, Scale(a, E(s))); }
  }

  lemma SameLine(s: nat, t: nat, a: bv5, b: bv5, v: Gf)
    requires s < 33 && t < 33 && a != 0 && b != 0 && v == Scale(a, E(s)) && v == Scale(b, E(t))
    ensures s == t
  {
    var m, i := LineExponent(a, s, v);
    var n, j := LineExponent(b, t, v);
    SamePower(m, n);
    Residues(s, t, i, j);
  }

  lemma LineExponent(a: bv5, s: nat, v: Gf) returns (n: nat, i: nat)
    requires a != 0 && v == Scale(a, E(s))
    ensures n == s + 99 * i && E(n) == v
  {
    SmallPower(a);
    i := Log32(a);
    n := s + 99 * i;
    PowerScaled(s, 99 * i, a);
  }

  lemma ScaleNonzero(a: bv5, s: nat)
    ensures Scale(a, E(s)) == ZERO <==> a == 0
  {
    if a == 0 {
      ScaleUnits(E(s));
    } else {
      var n := ScaledPower(a, s);
      PowerNonzero(n);
    }
  }

  /** Equal powers have exponents that agree modulo 1023. */
  lemma SamePower(m: nat, n: nat)
    requires E(m) == E(n)
    ensures m % ORDER == n % ORDER
  {
    EMod(m);
    EMod(n);
    EInjective(m % ORDER, n % ORDER);
  }

  lemma Residues(s: nat, t: nat, i: nat, j: nat)
    requires s < 33 && t < 33 && (s + 99 * i) % 1023 == (t + 99 * j) % 1023
    ensures s == t
  {
    var m, n := (s + 99 * i) / 1023, (t + 99 * j) / 1023;
    assert s - t == 33 * (3 * j - 3 * i + 31 * m - 31 * n);
  }

  lemma SumsAgree(p: Gf, q: Gf, r: Gf, s: Gf)
    requires Plus(p, q) == Plus(r, s)
    ensures Plus(p, r) == Plus(q, s)
  {
  }

  /** An element is the sum of multiples of two such powers in one way only. */
  lemma UniqueSum(s: nat, t: nat, c: bv5, u: bv5, c0: bv5, u0: bv5)
    requires s < 33 && t < 33 && s != t
    requires Plus(Scale(c, E(s)), Scale(u, E(t))) == Plus(Scale(c0, E(s)), Scale(u0, E(t)))
    ensures c == c0 && u == u0
  {
    SumsAgree(Scale(c, E(s)), Scale(u, E(t)), Scale(c0, E(s)), Scale(u0, E(t)));
    PlusScale(c, c0, E(s));
    PlusScale(u, u0, E(t));
    LinesMeet(s, t, c ^ c0, u ^ u0);
    XorZero5(c, c0);
    XorZero5(u, u0);
  }

  lemma XorZero5(a: bv5, b: bv5)
    ensures a ^ b == 0 <==> a == b
  {
  }

  // ----- what two errors that make up the difference must satisfy

  /** The value of either error: a (s2 + x^2 s0) == s1^2 + s0 s2. */
  lemma PairProduct(s: Triple, a: Gf, x: Gf, b: Gf, y: Gf)
    requires s == PlusT(Terms(a, x), Terms(b, y))
    ensures Mul(a, Plus(s.s2, Mul(x, Mul(x, s.s0)))) == Plus(Mul(s.s1, s.s1), Mul(s.s0, s.s2))
  {
    var u, v, w := PairSolves(s, a, x, b, y);
    var z := Plus(x, y);
    var q := Plus(s.s2, Mul(x, Mul(x, s.s0)));
    assert q == Mul(z, v) by { SecondFactor(s, x, y, u, v); }
    assert Mul(a, Mul(z, v)) == Mul(w, v) by {
      MulAssociates(a, z, v);
      MulCommutes(a, z);
    }
    ProductOfBoth(s, x, y, u, v, w);
  }

  lemma SecondFactor(s: Triple, x: Gf, y: Gf, u: Gf, v: Gf)
    requires u == Plus(s.s2, Mul(x, s.s1)) && v == Plus(s.s1, Mul(x, s.s0)) && u == Mul(y, v)
    ensures Plus(s.s2, Mul(x, Mul(x, s.s0))) == Mul(Plus(x, y), v)
  {
    PlusMul(x, y, v);
    MulPlus(x, s.s1, Mul(x, s.s0));
    Regrouped(s.s2, Mul(x, s.s1), Mul(x, Mul(x, s.s0)));
  }

  lemma Regrouped(a: Gf, b: Gf, c: Gf)
    ensures Plus(Plus(b, c), Plus(a, b)) == Plus(a, c)
  {
  }

  /** w v == s1^2 + s0 s2. */
  lemma ProductOfBoth(s: Triple, x: Gf, y: Gf, u: Gf, v: Gf, w: Gf)
    requires u == Plus(s.s2, Mul(x, s.s1)) && v == Plus(s.s1, Mul(x, s.s0)) && w == Plus(s.s1, Mul(y, s.s0)) &&
             u == Mul(y, v)
    ensures Mul(w, v) == Plus(Mul(s.s1, s.s1), Mul(s.s0, s.s2))
  {
    PlusMul(s.s1, Mul(y, s.s0), v);
    assert Mul(Mul(y, s.s0), v) == Mul(s.s0, u) by {
      MulCommutes(y, s.s0);
      MulAssociates(s.s0, y, v);
    }
    MulPlus(s.s1, s.s1, Mul(x, s.s0));
    MulPlus(s.s0, s.s2, Mul(x, s.s1));
    assert Mul(s.s1, Mul(x, s.s0)) == Mul(s.s0, Mul(x, s.s1)) by {
      SwapFactors(s.s1, x, s.s0);
      SwapFactors(s.s0, x, s.s1);
      MulCommutes(s.s1, s.s0);
    }
    Absorbed(Mul(s.s1, s.s1), Mul(s.s1, Mul(x, s.s0)), Mul(s.s0, s.s2));
  }

  lemma Absorbed(a: Gf, b: Gf, c: Gf)
    ensures Plus(Plus(a, b), Plus(c, b)) == Plus(a, c)
  {
    Absorbed5(a.hi, b.hi, c.hi);
    Absorbed5(a.lo, b.lo, c.lo);
  }

  lemma Absorbed5(a: bv5, b: bv5, c: bv5)
    ensures (a ^ b) ^ (c ^ b) == a ^ c
  {
  }

  lemma NormIs()
    ensures Plus(Mul(K1, K1), Mul(K0, K2)) == NORM
  {
    MulIsBits(K1, K1);
    MulIsBits(K0, K2);
  }

  lemma ValueAt(n: nat, k: nat, s: nat, c: bv5, a: Gf, v: Gf)
    requires E(k) == Gf(0, c) && E(s) == a && n == s + k && ScaleBits(c, a) == v
    ensures E(n) == v
  {
    PowerScaled(s, k, c);
    ScaleIsBits(c, a);
  }

  lemma ConstantPowers()
    ensures K0 == E(1) && NORM == E(119)
  {
    FirstPowers();
    LastPowers();
    FirstMultiples();
    ValueAt(119, 99, 20, 2, Gf(7, 11), NORM);
  }

  /** Clearing the power of the place from an error's value. */
  lemma Unshift(p: nat, delta: bv5, a: Gf, d: Gf, m: nat, n: nat)
    requires n == 997 * p && m == 26 * p && a == Iter(n, Gf(0, delta))
    ensures Mul(E(m), Mul(a, d)) == Scale(delta, d)
  {
    var v := Gf(0, delta);
    MulAssociates(E(m), a, d);
    assert Mul(E(m), a) == v by {
      MulIsIter(m, E(m), a);
      IterSumAt(m, n, 1023 * p, v);
      MulIsIter(1023 * p, E(1023 * p), v);
      EMultiples(p);
      MulOne(v);
    }
    ScaleUnits(MulE(d));
    PlusZero(Scale(delta, d));
  }

  lemma EMultiples(p: nat)
    ensures E(1023 * p) == ONE
  {
    FullPower();
    EMultiple(ORDER, p);
  }

  lemma SquarePlace(p: nat, x: Gf, k: Gf, t: nat, n: nat)
    requires x == E(p) && k == E(t) && n == 2 * p + t
    ensures Mul(x, Mul(x, k)) == E(n)
  {
    MulPowers(p, t, x, k);
    MulPowers(p, p + t, x, Mul(x, k));
    assert p + (p + t) == n;
  }

  lemma ShiftedPower(m: nat, t: nat, v: Gf)
    requires v == E(t)
    ensures Mul(E(m), v) == E(m + t)
  {
    MulPowers(m, t, E(m), v);
  }

  /** Hence the sum of K2 and one power lies on the line of another. */
  lemma Balance(p: nat, delta: bv5, a: Gf, x: Gf, n: nat, m: nat, d: Gf, i: nat, j: nat, r: nat, t: nat, k: Gf, l: Gf,
                z: Gf)
    requires x == E(p) && n == 997 * p && m == 26 * p && a == Iter(n, Gf(0, delta))
    requires k == E(r) && z == E(t) && i == 2 * p + r && j == m + t
    requires d == Plus(l, Mul(x, Mul(x, k))) && Mul(a, d) == z
    ensures d == Plus(l, E(i)) && Scale(delta, d) == E(j)
  {
    SquarePlace(p, x, k, r, i);
    Unshift(p, delta, a, d, m, n);
    ShiftedPower(m, t, z);
  }

  lemma InverseScale(c: bv5, v: Gf, w: Gf) returns (d: bv5)
    requires c != 0 && Scale(c, v) == w
    ensures d != 0 && v == Scale(d, w)
  {
    d := Inverse32(c);
    ScaleScale(d, c, v);
    ScaleUnits(v);
  }

  lemma MoveTerm(a: Gf, b: Gf, c: Gf)
    requires Plus(a, b) == c
    ensures a == Plus(b, c)
  {
  }

  /** `v` as a sum of multiples of two powers, the first of them e^l. */
  ghost predicate Split(l: nat, s: nat, t: nat, v: Gf, c: bv5, u: bv5) {
    c != 0 && u != 0 && E(l) == Gf(0, c) && v == Plus(Scale(c, E(s)), Scale(u, E(t)))
  }

  lemma SplitsInto(delta: bv5, v: Gf, n: nat, m: nat, s: nat, t: nat) returns (c: bv5, u: bv5)
    requires delta != 0 && Scale(delta, Plus(v, E(n))) == E(m) && s == n % 33 && t == m % 33
    ensures Split(n - s, s, t, v, c, u)
  {
    c := OnItsLine(n, s);
    var d := OnItsLine(m, t);
    var i := InverseScale(delta, Plus(v, E(n)), E(m));
    u := Times(i, d);
    TimesNonzero(i, d);
    ScaleScale(i, d, E(t));
    MoveTerm(v, E(n), Scale(u, E(t)));
  }

  lemma SameRemainder(k: int, r: int)
    ensures (33 * k + r) % 33 == r % 33
  {
  }

  lemma NotThirds(s: int, j: int)
    ensures 12 * s + 7 != 33 * j
  {
    assert 12 * s + 7 == 33 * j ==> 3 * (11 * j - 4 * s) == 7;
  }

  lemma OtherLine(p: nat, s: nat)
    requires s == (2 * p + 1) % 33
    ensures (26 * p + 119) % 33 == (13 * s + 7) % 33 && s != (13 * s + 7) % 33
  {
    var k := (2 * p + 1) / 33;
    SameRemainder(13 * k + 3, 13 * s + 7);
    assert 26 * p + 119 == 33 * (13 * k + 3) + (13 * s + 7);
    NotThirds(s, (13 * s + 7) / 33);
  }

  // ----- the 31 places an error can have

  /** The powers of e that make every other one. */
  ghost predicate Table(e: nat -> Gf) {
    && e(0) == Gf(0, 1) && e(1) == Gf(1, 0) && e(2) == Gf(9, 23) && e(3) == Gf(4, 11) && e(4) == Gf(6, 14)
    && e(5) == Gf(17, 9) && e(6) == Gf(29, 6) && e(7) == Gf(5, 20) && e(8) == Gf(16, 25) && e(9) == Gf(4, 17)
    && e(10) == Gf(28, 14) && e(11) == Gf(4, 3) && e(12) == Gf(14, 14) && e(13) == Gf(11, 21) && e(14) == Gf(20, 12)
    && e(15) == Gf(28, 31) && e(16) == Gf(21, 3) && e(17) == Gf(26, 8) && e(18) == Gf(29, 10) && e(19) == Gf(9, 20)
    && e(20) == Gf(7, 11) && e(21) == Gf(29, 30) && e(22) == Gf(29, 20) && e(23) == Gf(23, 20) && e(24) == Gf(31, 15)
    && e(25) == Gf(30, 19) && e(26) == Gf(11, 4) && e(27) == Gf(5, 12) && e(28) == Gf(8, 25) && e(29) == Gf(3, 28)
    && e(30) == Gf(7, 16) && e(31) == Gf(6, 30) && e(32) == Gf(1, 9) && e(33) == Gf(0, 23) && e(66) == Gf(0, 15)
    && e(99) == Gf(0, 2) && e(132) == Gf(0, 7) && e(165) == Gf(0, 30) && e(198) == Gf(0, 4) && e(231) == Gf(0, 14)
    && e(264) == Gf(0, 21) && e(297) == Gf(0, 8) && e(330) == Gf(0, 28) && e(363) == Gf(0, 3) && e(396) == Gf(0, 16)
    && e(429) == Gf(0, 17) && e(462) == Gf(0, 6) && e(495) == Gf(0, 9) && e(528) == Gf(0, 11) && e(561) == Gf(0, 12)
    && e(594) == Gf(0, 18) && e(627) == Gf(0, 22) && e(660) == Gf(0, 24) && e(693) == Gf(0, 13) && e(726) == Gf(0, 5)
    && e(759) == Gf(0, 25) && e(792) == Gf(0, 26) && e(825) == Gf(0, 10) && e(858) == Gf(0, 27) && e(891) == Gf(0, 29)
    && e(924) == Gf(0, 20) && e(957) == Gf(0, 31) && e(990) == Gf(0, 19)
  }

  lemma TableOfPowers()
    ensures Table((n: nat) => E(n))
  {
    FirstPowers();
    LastPowers();
    FirstMultiples();
    LastMultiples();
  }

  ghost predicate Entry(e: nat -> Gf, s: nat, t: nat, v: Gf, c: bv5, u: bv5, k: nat, place: nat) {
    && Plus(ScaleBits(c, e(s)), ScaleBits(u, e(t))) == v
    && (c != 0 && u != 0 ==> e(k) == Gf(0, c) && place < 1023 && (2 * place + 1) % 1023 == (k + s) % 1023)
  }

  lemma EntryIs(e: nat -> Gf, s: nat, t: nat, c: bv5, u: bv5, k: nat, place: nat, a: Gf, b: Gf)
    requires e(s) == a && e(t) == b && Plus(ScaleBits(c, a), ScaleBits(u, b)) == K2
    requires c != 0 && u != 0 ==> e(k) == Gf(0, c) && place < 1023 && (2 * place + 1) % 1023 == (k + s) % 1023
    ensures Entry(e, s, t, K2, c, u, k, place)
  {
  }

  lemma SplitUnique(l: nat, s: nat, t: nat, v: Gf, c: bv5, u: bv5, c0: bv5, u0: bv5)
    requires s < 33 && t < 33 && s != t && Split(l, s, t, v, c, u)
    requires Plus(ScaleBits(c0, E(s)), ScaleBits(u0, E(t))) == v
    ensures c0 == c && u0 == u
  {
    ScaleIsBits(c0, E(s));
    ScaleIsBits(u0, E(t));
    UniqueSum(s, t, c, u, c0, u0);
  }

  lemma EntryPower(l: nat, s: nat, t: nat, v: Gf, c: bv5, u: bv5, c0: bv5, u0: bv5, k: nat)
    requires s < 33 && t < 33 && s != t && Split(l, s, t, v, c, u)
    requires Plus(ScaleBits(c0, E(s)), ScaleBits(u0, E(t))) == v && (c0 != 0 && u0 != 0 ==> E(k) == Gf(0, c0))
    ensures l % 1023 == k % 1023 && c0 != 0 && u0 != 0
  {
    assert E(l) == E(k) && c0 != 0 && u0 != 0 by { SplitUnique(l, s, t, v, c, u, c0, u0); }
    SamePower(l, k);
  }

  lemma EntryPlace(p: nat, l: nat, s: nat, t: nat, v: Gf, c: bv5, u: bv5, c0: bv5, u0: bv5, k: nat, place: nat)
    requires s < 33 && t < 33 && s != t && Split(l, s, t, v, c, u)
    requires p < 1023 && l + s == 2 * p + 1 && Entry((n: nat) => E(n), s, t, v, c0, u0, k, place)
    ensures p == place
  {
    EntryPower(l, s, t, v, c, u, c0, u0, k);
    SameOdd(p, place, s, k);
  }

  lemma Quotients(a: int, b: int)
    requires a % 1023 == b % 1023
    ensures a - b == 1023 * (a / 1023 - b / 1023)
  {
  }

  lemma OddMultiple(d: int, h: int)
    requires 2 * d == 1023 * h && -1023 < d < 1023
    ensures d == 0
  {
  }

  lemma SameOdd(p: int, q: int, s: int, k: int)
    requires 0 <= p < 1023 && 0 <= q < 1023
    requires (2 * p + 1 - s) % 1023 == k % 1023 && (2 * q + 1) % 1023 == (k + s) % 1023
    ensures p == q
  {
    var a, b := 2 * p + 1 - s, 2 * q + 1;
    Quotients(a, k);
    Quotients(b, k + s);
    OddMultiple(p - q, (a / 1023 - k / 1023) - (b / 1023 - (k + s) / 1023));
  }

  ghost predicate IsPlace(p: nat) {
    || p == 33 || p == 64 || p == 96 || p == 106 || p == 120 || p == 127 || p == 151 || p == 192
    || p == 311 || p == 323 || p == 333 || p == 343 || p == 486 || p == 530 || p == 611 || p == 670
    || p == 678 || p == 682 || p == 751 || p == 782 || p == 791 || p == 854 || p == 866 || p == 867
    || p == 878 || p == 892 || p == 896 || p == 968 || p == 973 || p == 996 || p == 1005
  }

  lemma Entries0(e: nat -> Gf, s: nat, t: nat) returns (c: bv5, u: bv5, k: nat, place: nat)
    requires Table(e) && 0 <= s < 7 && t == (13 * s + 7) % 33
    ensures Entry(e, s, t, K2, c, u, k, place) && IsPlace(place)
  {
    if s == 0 {
      c, u, k, place := 20, 19, 924, 973;
      EntryIs(e, s, t, 20, 19, 924, 973, Gf(0, 1), Gf(5, 20));
    } else if s == 1 {
      c, u, k, place := 15, 19, 66, 33;
      EntryIs(e, s, t, 15, 19, 66, 33, Gf(1, 0), Gf(7, 11));
    } else if s == 2 {
      c, u, k, place := 4, 7, 198, 611;
      EntryIs(e, s, t, 4, 7, 198, 611, Gf(9, 23), Gf(0, 1));
    } else if s == 3 {
      c, u, k, place := 25, 15, 759, 892;
      EntryIs(e, s, t, 25, 15, 759, 892, Gf(4, 11), Gf(11, 21));
    } else if s == 4 {
      c, u, k, place := 28, 11, 330, 678;
      EntryIs(e, s, t, 28, 11, 330, 678, Gf(6, 14), Gf(11, 4));
    } else if s == 5 {
      c, u, k, place := 23, 24, 33, 530;
      EntryIs(e, s, t, 23, 24, 33, 530, Gf(17, 9), Gf(29, 6));
    } else {
      c, u, k, place := 8, 9, 297, 151;
      EntryIs(e, s, t, 8, 9, 297, 151, Gf(29, 6), Gf(9, 20));
    }
  }

  lemma Entries7(e: nat -> Gf, s: nat, t: nat) returns (c: bv5, u: bv5, k: nat, place: nat)
    requires Table(e) && 7 <= s < 14 && t == (13 * s + 7) % 33
    ensures Entry(e, s, t, K2, c, u, k, place) && IsPlace(place)
  {
    if s == 7 {
      c, u, k, place := 24, 14, 660, 333;
      EntryIs(e, s, t, 24, 14, 660, 333, Gf(5, 20), Gf(1, 9));
    } else if s == 8 {
      c, u, k, place := 5, 27, 726, 878;
      EntryIs(e, s, t, 5, 27, 726, 878, Gf(16, 25), Gf(14, 14));
    } else if s == 9 {
      c, u, k, place := 0, 11, 0, 33;
      EntryIs(e, s, t, 0, 11, 0, 33, Gf(4, 17), Gf(30, 19));
    } else if s == 10 {
      c, u, k, place := 14, 18, 231, 120;
      EntryIs(e, s, t, 14, 18, 231, 120, Gf(28, 14), Gf(17, 9));
    } else if s == 11 {
      c, u, k, place := 25, 5, 759, 896;
      EntryIs(e, s, t, 25, 5, 759, 896, Gf(4, 3), Gf(29, 10));
    } else if s == 12 {
      c, u, k, place := 28, 12, 330, 682;
      EntryIs(e, s, t, 28, 12, 330, 682, Gf(14, 14), Gf(6, 30));
    } else {
      c, u, k, place := 31, 28, 957, 996;
      EntryIs(e, s, t, 31, 28, 957, 996, Gf(11, 21), Gf(4, 3));
    }
  }

  lemma Entries14(e: nat -> Gf, s: nat, t: nat) returns (c: bv5, u: bv5, k: nat, place: nat)
    requires Table(e) && 14 <= s < 21 && t == (13 * s + 7) % 33
    ensures Entry(e, s, t, K2, c, u, k, place) && IsPlace(place)
  {
    if s == 14 {
      c, u, k, place := 11, 16, 528, 782;
      EntryIs(e, s, t, 11, 16, 528, 782, Gf(20, 12), Gf(31, 15));
    } else if s == 15 {
      c, u, k, place := 4, 1, 198, 106;
      EntryIs(e, s, t, 4, 1, 198, 106, Gf(28, 31), Gf(6, 14));
    } else if s == 16 {
      c, u, k, place := 31, 5, 957, 486;
      EntryIs(e, s, t, 31, 5, 957, 486, Gf(21, 3), Gf(26, 8));
    } else if s == 17 {
      c, u, k, place := 13, 16, 693, 866;
      EntryIs(e, s, t, 13, 16, 693, 866, Gf(26, 8), Gf(7, 16));
    } else if s == 18 {
      c, u, k, place := 6, 2, 462, 751;
      EntryIs(e, s, t, 6, 2, 462, 751, Gf(29, 10), Gf(28, 14));
    } else if s == 19 {
      c, u, k, place := 13, 31, 693, 867;
      EntryIs(e, s, t, 13, 31, 693, 867, Gf(9, 20), Gf(23, 20));
    } else {
      c, u, k, place := 22, 5, 627, 323;
      EntryIs(e, s, t, 22, 5, 627, 323, Gf(7, 11), Gf(4, 11));
    }
  }

  lemma Entries21(e: nat -> Gf, s: nat, t: nat) returns (c: bv5, u: bv5, k: nat, place: nat)
    requires Table(e) && 21 <= s < 28 && t == (13 * s + 7) % 33
    ensures Entry(e, s, t, K2, c, u, k, place) && IsPlace(place)
  {
    if s == 21 {
      c, u, k, place := 8, 5, 297, 670;
      EntryIs(e, s, t, 8, 5, 297, 670, Gf(29, 30), Gf(21, 3));
    } else if s == 22 {
      c, u, k, place := 3, 1, 363, 192;
      EntryIs(e, s, t, 3, 1, 363, 192, Gf(29, 20), Gf(3, 28));
    } else if s == 23 {
      c, u, k, place := 29, 12, 891, 968;
      EntryIs(e, s, t, 29, 12, 891, 968, Gf(23, 20), Gf(4, 17));
    } else if s == 24 {
      c, u, k, place := 14, 2, 231, 127;
      EntryIs(e, s, t, 14, 2, 231, 127, Gf(31, 15), Gf(29, 20));
    } else if s == 25 {
      c, u, k, place := 11, 0, 528, 33;
      EntryIs(e, s, t, 11, 0, 528, 33, Gf(30, 19), Gf(9, 23));
    } else if s == 26 {
      c, u, k, place := 24, 24, 660, 854;
      EntryIs(e, s, t, 24, 24, 660, 854, Gf(11, 4), Gf(28, 31));
    } else {
      c, u, k, place := 24, 31, 660, 343;
      EntryIs(e, s, t, 24, 31, 660, 343, Gf(5, 12), Gf(8, 25));
    }
  }

  lemma Entries28(e: nat -> Gf, s: nat, t: nat) returns (c: bv5, u: bv5, k: nat, place: nat)
    requires Table(e) && 28 <= s < 33 && t == (13 * s + 7) % 33
    ensures Entry(e, s, t, K2, c, u, k, place) && IsPlace(place)
  {
    if s == 28 {
      c, u, k, place := 30, 7, 165, 96;
      EntryIs(e, s, t, 30, 7, 165, 96, Gf(8, 25), Gf(16, 25));
    } else if s == 29 {
      c, u, k, place := 18, 5, 594, 311;
      EntryIs(e, s, t, 18, 5, 594, 311, Gf(3, 28), Gf(29, 30));
    } else if s == 30 {
      c, u, k, place := 2, 3, 99, 64;
      EntryIs(e, s, t, 2, 3, 99, 64, Gf(7, 16), Gf(1, 0));
    } else if s == 31 {
      c, u, k, place := 31, 19, 957, 1005;
      EntryIs(e, s, t, 31, 19, 957, 1005, Gf(6, 30), Gf(20, 12));
    } else {
      c, u, k, place := 11, 25, 528, 791;
      EntryIs(e, s, t, 11, 25, 528, 791, Gf(1, 9), Gf(5, 12));
    }
  }

  lemma EntryOf(e: nat -> Gf, s: nat, t: nat) returns (c: bv5, u: bv5, k: nat, place: nat)
    requires Table(e) && s < 33 && t == (13 * s + 7) % 33
    ensures Entry(e, s, t, K2, c, u, k, place) && IsPlace(place)
  {
    if s < 7 {
      c, u, k, place := Entries0(e, s, t);
    } else if s < 14 {
      c, u, k, place := Entries7(e, s, t);
    } else if s < 21 {
      c, u, k, place := Entries14(e, s, t);
    } else if s < 28 {
      c, u, k, place := Entries21(e, s, t);
    } else {
      c, u, k, place := Entries28(e, s, t);
    }
  }

  lemma PlaceOf(p: nat, l: nat, s: nat, t: nat, v: Gf, c: bv5, u: bv5)
    requires p < 1023 && l + s == 2 * p + 1 && s < 33 && t == (13 * s + 7) % 33 && s != t
    requires v == K2 && Split(l, s, t, v, c, u)
    ensures IsPlace(p)
  {
    TableOfPowers();
    var c0, u0, k, place := EntryOf((n: nat) => E(n), s, t);
    EntryPlace(p, l, s, t, v, c, u, c0, u0, k, place);
  }
  // ----- and which two of them go together

  lemma Partner(n: nat, v: Gf, w: Gf, y: Gf, m: nat)
    requires w == Plus(K1, E(n)) && y == Plus(K1, E(m)) && Mul(w, v) == NORM && MulBits(y, v) == NORM
    ensures n % ORDER == m % ORDER
  {
    SameFactor(v, w, y, NORM);
    CancelPlus(K1, E(n), E(m));
    SamePower(n, m);
  }

  lemma SameFactor(v: Gf, w: Gf, y: Gf, z: Gf)
    requires Mul(w, v) == z && MulBits(y, v) == z && z != ZERO
    ensures w == y
  {
    MulIsBits(y, v);
    MulCommutes(y, v);
    MulCommutes(w, v);
    MulZero(w);
    MulCancel(v, w, y);
  }

  lemma CancelPlus(a: Gf, b: Gf, c: Gf)
    requires Plus(a, b) == Plus(a, c)
    ensures b == c
  {
    Cancel5(a.hi, b.hi, c.hi);
    Cancel5(a.lo, b.lo, c.lo);
  }

  lemma Cancel5(a: bv5, b: bv5, c: bv5)
    ensures a ^ b == a ^ c <==> b == c
  {
  }

  /** `p` and `m`, with their successors split between the two halves of the table. */
  ghost predicate Partners(e: nat -> Gf, p: nat, m: nat, i: nat, s: nat, j: nat, t: nat) {
    && p + 1 == i + s && m + 1 == j + t && m < 1023 && e(i).hi == 0 && e(j).hi == 0
    && MulBits(Plus(K1, ScaleBits(e(j).lo, e(t))), Plus(K1, ScaleBits(e(i).lo, e(s)))) == NORM
  }

  ghost predicate Paired(e: nat -> Gf, p: nat, m: nat) {
    exists i: nat, s: nat, j: nat, t: nat :: Partners(e, p, m, i, s, j, t)
  }

  ghost predicate Links(e: nat -> Gf, paired: (nat, nat) -> bool) {
    forall p: nat, m: nat, i: nat, s: nat, j: nat, t: nat :: Partners(e, p, m, i, s, j, t) ==> paired(p, m)
  }

  lemma PartnersAre(e: nat -> Gf, paired: (nat, nat) -> bool, p: nat, m: nat, i: nat, s: nat, j: nat, t: nat, c: bv5,
                    a: Gf,
                    d: bv5, b: Gf, x: Gf, y: Gf)
    requires Links(e, paired)
    requires p + 1 == i + s && m + 1 == j + t && m < 1023
    requires e(i) == Gf(0, c) && e(s) == a && e(j) == Gf(0, d) && e(t) == b
    requires Plus(K1, ScaleBits(c, a)) == x && Plus(K1, ScaleBits(d, b)) == y && MulBits(y, x) == NORM
    ensures paired(p, m)
  {
    assert Partners(e, p, m, i, s, j, t);
  }

  lemma Pairs0(e: nat -> Gf, paired: (nat, nat) -> bool)
    requires Table(e) && Links(e, paired)
    ensures paired(33, 192) && paired(64, 652) && paired(96, 435) && paired(106, 816)
  {
    PartnersAre(e, paired, 33, 192, 33, 1, 165, 28, 23, Gf(1, 0), 30, Gf(8, 25), Gf(16, 17), Gf(1, 5));
    PartnersAre(e, paired, 64, 652, 33, 32, 627, 26, 23, Gf(1, 9), 22, Gf(11, 4), Gf(16, 26), Gf(0, 27));
    PartnersAre(e, paired, 96, 435, 66, 31, 429, 7, 15, Gf(6, 30), 17, Gf(5, 20), Gf(12, 31), Gf(0, 13));
    PartnersAre(e, paired, 106, 816, 99, 8, 792, 25, 2, Gf(16, 25), 26, Gf(30, 19), Gf(14, 10), Gf(24, 8));
  }

  lemma Pairs1(e: nat -> Gf, paired: (nat, nat) -> bool)
    requires Table(e) && Links(e, paired)
    ensures paired(120, 548) && paired(127, 353) && paired(151, 282) && paired(192, 33)
  {
    PartnersAre(e, paired, 120, 548, 99, 22, 528, 21, 2, Gf(29, 20), 11, Gf(29, 30), Gf(20, 16), Gf(23, 28));
    PartnersAre(e, paired, 127, 353, 99, 29, 330, 24, 2, Gf(3, 28), 28, Gf(31, 15), Gf(1, 0), Gf(18, 1));
    PartnersAre(e, paired, 151, 282, 132, 20, 264, 19, 7, Gf(7, 11), 21, Gf(9, 20), Gf(18, 9), Gf(30, 15));
    PartnersAre(e, paired, 192, 33, 165, 28, 33, 1, 30, Gf(8, 25), 23, Gf(1, 0), Gf(1, 5), Gf(16, 17));
  }

  lemma Pairs2(e: nat -> Gf, paired: (nat, nat) -> bool)
    requires Table(e) && Links(e, paired)
    ensures paired(311, 769) && paired(323, 278) && paired(333, 479) && paired(343, 900)
  {
    PartnersAre(e, paired, 311, 769, 297, 15, 759, 11, 8, Gf(28, 31), 25, Gf(4, 3), Gf(17, 31), Gf(24, 19));
    PartnersAre(e, paired, 323, 278, 297, 27, 264, 15, 8, Gf(5, 12), 21, Gf(28, 31), Gf(6, 10), Gf(21, 21));
    PartnersAre(e, paired, 333, 479, 330, 4, 462, 18, 28, Gf(6, 14), 6, Gf(29, 10), Gf(29, 29), Gf(27, 4));
    PartnersAre(e, paired, 343, 900, 330, 14, 891, 10, 28, Gf(20, 12), 29, Gf(28, 14), Gf(9, 12), Gf(3, 19));
  }

  lemma Pairs3(e: nat -> Gf, paired: (nat, nat) -> bool)
    requires Table(e) && Links(e, paired)
    ensures paired(486, 443) && paired(530, 1020) && paired(611, 697) && paired(670, 136)
  {
    PartnersAre(e, paired, 486, 443, 462, 25, 429, 15, 6, Gf(30, 19), 17, Gf(28, 31), Gf(17, 0), Gf(30, 18));
    PartnersAre(e, paired, 530, 1020, 528, 3, 990, 31, 11, Gf(4, 11), 19, Gf(6, 30), Gf(2, 6), Gf(22, 22));
    PartnersAre(e, paired, 611, 697, 594, 18, 693, 5, 18, Gf(29, 10), 13, Gf(17, 9), Gf(1, 1), Gf(5, 15));
    PartnersAre(e, paired, 670, 136, 660, 11, 132, 5, 24, Gf(4, 3), 7, Gf(17, 9), Gf(28, 16), Gf(11, 7));
  }

  lemma Pairs4(e: nat -> Gf, paired: (nat, nat) -> bool)
    requires Table(e) && Links(e, paired)
    ensures paired(678, 972) && paired(682, 147) && paired(751, 146) && paired(782, 295)
  {
    PartnersAre(e, paired, 678, 972, 660, 19, 957, 16, 24, Gf(9, 20), 31, Gf(21, 3), Gf(0, 29), Gf(3, 25));
    PartnersAre(e, paired, 682, 147, 660, 23, 132, 16, 24, Gf(23, 20), 7, Gf(21, 3), Gf(10, 29), Gf(23, 24));
    PartnersAre(e, paired, 751, 146, 726, 26, 132, 15, 5, Gf(11, 4), 7, Gf(28, 31), Gf(9, 5), Gf(1, 30));
    PartnersAre(e, paired, 782, 295, 759, 24, 264, 32, 25, Gf(31, 15), 21, Gf(1, 9), Gf(10, 27), Gf(18, 8));
  }

  lemma Pairs5(e: nat -> Gf, paired: (nat, nat) -> bool)
    requires Table(e) && Links(e, paired)
    ensures paired(791, 455) && paired(854, 686) && paired(866, 362) && paired(867, 81)
  {
    PartnersAre(e, paired, 791, 455, 792, 0, 429, 27, 26, Gf(0, 1), 17, Gf(5, 12), Gf(7, 11), Gf(0, 2));
    PartnersAre(e, paired, 854, 686, 825, 30, 660, 27, 10, Gf(7, 16), 24, Gf(5, 12), Gf(24, 21), Gf(4, 21));
    PartnersAre(e, paired, 866, 362, 858, 9, 363, 0, 27, Gf(4, 17), 3, Gf(0, 1), Gf(16, 4), Gf(7, 18));
    PartnersAre(e, paired, 867, 81, 858, 10, 66, 16, 27, Gf(28, 14), 15, Gf(21, 3), Gf(25, 30), Gf(27, 0));
  }

  lemma Pairs6(e: nat -> Gf, paired: (nat, nat) -> bool)
    requires Table(e) && Links(e, paired)
    ensures paired(878, 964) && paired(892, 823) && paired(896, 655) && paired(968, 523)
  {
    PartnersAre(e, paired, 878, 964, 858, 21, 957, 8, 27, Gf(29, 30), 31, Gf(16, 25), Gf(2, 16), Gf(27, 28));
    PartnersAre(e, paired, 892, 823, 891, 2, 792, 32, 29, Gf(9, 23), 26, Gf(1, 9), Gf(4, 5), Gf(29, 4));
    PartnersAre(e, paired, 896, 655, 891, 6, 627, 29, 29, Gf(29, 6), 22, Gf(3, 28), Gf(30, 13), Gf(20, 14));
    PartnersAre(e, paired, 968, 523, 957, 12, 495, 29, 31, Gf(14, 14), 9, Gf(3, 28), Gf(25, 15), Gf(28, 27));
  }

  lemma Pairs7(e: nat -> Gf, paired: (nat, nat) -> bool)
    requires Table(e) && Links(e, paired)
    ensures paired(973, 666) && paired(996, 172) && paired(1005, 483)
  {
    PartnersAre(e, paired, 973, 666, 957, 17, 660, 7, 31, Gf(26, 8), 24, Gf(5, 20), Gf(2, 31), Gf(4, 29));
    PartnersAre(e, paired, 996, 172, 990, 7, 165, 8, 19, Gf(5, 20), 30, Gf(16, 25), Gf(10, 12), Gf(11, 5));
    PartnersAre(e, paired, 1005, 483, 990, 16, 462, 22, 19, Gf(21, 3), 6, Gf(29, 20), Gf(9, 13), Gf(27, 18));
  }

  function PartnerPlace(p: nat): nat {
    if p == 33 then 192 else if p == 64 then 652 else if p == 96 then 435 else if p == 106 then 816 else
    if p == 120 then 548 else if p == 127 then 353 else if p == 151 then 282 else if p == 192 then 33 else
    if p == 311 then 769 else if p == 323 then 278 else if p == 333 then 479 else if p == 343 then 900 else
    if p == 486 then 443 else if p == 530 then 1020 else if p == 611 then 697 else if p == 670 then 136 else
    if p == 678 then 972 else if p == 682 then 147 else if p == 751 then 146 else if p == 782 then 295 else
    if p == 791 then 455 else if p == 854 then 686 else if p == 866 then 362 else if p == 867 then 81 else
    if p == 878 then 964 else if p == 892 then 823 else if p == 896 then 655 else if p == 968 then 523 else
    if p == 973 then 666 else if p == 996 then 172 else
    483
  }

  lemma OnlyPartners(p: nat, m: nat)
    requires IsPlace(p) && m == PartnerPlace(p) && IsPlace(m)
    ensures (p, m) == (33, 192) || (p, m) == (192, 33)
  {
  }

  lemma PartnerOf(e: nat -> Gf, paired: (nat, nat) -> bool, p: nat)
    requires Table(e) && Links(e, paired) && IsPlace(p)
    ensures paired(p, PartnerPlace(p))
  {
    Pairs0(e, paired);
    Pairs1(e, paired);
    Pairs2(e, paired);
    Pairs3(e, paired);
    Pairs4(e, paired);
    Pairs5(e, paired);
    Pairs6(e, paired);
    Pairs7(e, paired);
  }
}
