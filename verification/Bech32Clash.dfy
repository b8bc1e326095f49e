/**
 The constants of Bech32 and Bech32m: no one error, and within 1023 values only one pair of
 errors, leads from one to the other.
 */
module Bech32Clash {
  import opened Bech32Algebra
  import opened Bech32Constant
  import opened Bech32Errors
  import opened Bech32Field
  import opened Bech32Kernel
  import opened Bech32Locate
  import opened Bech32Search
  import opened Bech32Syndrome

  // ----- one error

  lemma OneNorm(a: Gf, x: Gf, s: Triple)
    requires s == Terms(a, x)
    ensures Mul(s.s1, s.s1) == Mul(s.s0, s.s2)
  {
    var b := Mul(x, a);
    SwapFactors(b, x, a);
    MulCommutes(b, a);
    SwapFactors(a, x, b);
  }

  lemma NormDiffers()
    ensures Mul(K1, K1) != Mul(K0, K2)
  {
    NormIs();
    PlusSame(Mul(K1, K1), Mul(K0, K2));
  }

  /** No one error leads from one constant to the other. */
  lemma OneKeepsApart(p: nat)
    ensures !OneOff(CLASH, p)
  {
    if OneOff(CLASH, p) {
      var a := OneHasTerms(CLASH, p);
      ClashSyndrome();
      OneNorm(a, E(p), Triple(K0, K1, K2));
      NormDiffers();
    }
  }

  // ----- two errors

  ghost predicate Sum(a: Gf, x: Gf, b: Gf, y: Gf) { Triple(K0, K1, K2) == PlusT(Terms(a, x), Terms(b, y)) }

  lemma SumTurned(a: Gf, x: Gf, b: Gf, y: Gf)
    requires Sum(a, x, b, y)
    ensures Sum(b, y, a, x)
  {
    var s, t := Terms(a, x), Terms(b, y);
    PlusSame(s.s0, t.s0);
    PlusSame(s.s1, t.s1);
    PlusSame(s.s2, t.s2);
  }

  lemma SumProduct(a: Gf, x: Gf, b: Gf, y: Gf)
    requires Sum(a, x, b, y)
    ensures Mul(a, Plus(K2, Mul(x, Mul(x, K0)))) == NORM
  {
    PairProduct(Triple(K0, K1, K2), a, x, b, y);
    NormIs();
  }

  lemma SumPlace(a: Gf, p: nat, b: Gf, y: Gf)
    requires p < 1023 && IsTerm(a, p) && Sum(a, E(p), b, y)
    ensures IsPlace(p)
  {
    var delta: bv8 :| IsAmplitude(a, p, delta);
    SymbolNonzero(delta);
    SumProduct(a, E(p), b, y);
    TermPlace(a, p, SymbolOf(delta), E(p), Plus(K2, Mul(E(p), Mul(E(p), K0))), 997 * p, 2 * p + 1, 26 * p + 119);
  }

  lemma TermPlace(a: Gf, p: nat, c: bv5, x: Gf, d: Gf, n: nat, i: nat, j: nat)
    requires p < 1023 && c != 0 && n == 997 * p && a == Iter(n, Gf(0, c)) && x == E(p) && i == 2 * p + 1 &&
             j == 26 * p + 119
    requires d == Plus(K2, Mul(x, Mul(x, K0))) && Mul(a, d) == NORM
    ensures IsPlace(p)
  {
    assert d == Plus(K2, E(i)) && Scale(c, d) == E(j) by {
      ConstantPowers();
      Balance(p, c, a, x, n, 26 * p, d, i, j, 1, 119, K0, K2, NORM);
    }
    BalancePlace(p, c, i, j, d);
  }

  lemma BalancePlace(p: nat, c: bv5, n: nat, m: nat, d: Gf)
    requires p < 1023 && c != 0 && n == 2 * p + 1 && m == 26 * p + 119 && d == Plus(K2, E(n)) && Scale(c, d) == E(m)
    ensures IsPlace(p)
  {
    OtherLine(p, n % 33);
    LinePlace(p, c, n, m, K2, n - n % 33, n % 33, m % 33);
  }

  lemma LinePlace(p: nat, c: bv5, n: nat, m: nat, v: Gf, l: nat, s: nat, t: nat)
    requires p < 1023 && c != 0 && n == 2 * p + 1 && v == K2 && Scale(c, Plus(v, E(n))) == E(m)
    requires s == n % 33 && l == n - s && t == m % 33 && t == (13 * s + 7) % 33 && s != t
    ensures IsPlace(p)
  {
    var i, u := SplitsInto(c, v, n, m, s, t);
    PlaceOf(p, l, s, t, v, i, u);
  }

  lemma NextPlace(p: nat, x: Gf)
    requires x == E(p)
    ensures Mul(x, K0) == E(p + 1)
  {
    ConstantPowers();
    MulPowers(p, 1, x, K0);
  }

  lemma SumNorm(a: Gf, p: nat, b: Gf, q: nat, x: Gf, y: Gf)
    requires x == E(p) && y == E(q) && Sum(a, x, b, y)
    ensures Mul(Plus(K1, E(q + 1)), Plus(K1, E(p + 1))) == NORM
  {
    var s := Triple(K0, K1, K2);
    var u, v, w := PairSolves(s, a, x, b, y);
    ProductOfBoth(s, x, y, u, v, w);
    NormIs();
    NextPlace(p, x);
    NextPlace(q, y);
  }

  lemma PairedIs(p: nat, m: nat, v: Gf, y: Gf)
    requires Paired((n: nat) => E(n), p, m) && v == Plus(K1, E(p + 1)) && y == Plus(K1, E(m + 1))
    ensures m < 1023 && MulBits(y, v) == NORM
  {
    var i: nat, s: nat, j: nat, t: nat :| Partners((n: nat) => E(n), p, m, i, s, j, t);
    ValueAt(p + 1, i, s, E(i).lo, E(s), ScaleBits(E(i).lo, E(s)));
    ValueAt(m + 1, j, t, E(j).lo, E(t), ScaleBits(E(j).lo, E(t)));
  }

  lemma PartnerIn(e: nat -> Gf, p: nat, m: nat)
    requires Table(e) && IsPlace(p) && m == PartnerPlace(p)
    ensures Paired(e, p, m)
  {
    var paired := (p: nat, m: nat) => Paired(e, p, m);
    LinksPaired(e, paired);
    PartnerOf(e, paired, p);
  }

  lemma LinksPaired(e: nat -> Gf, paired: (nat, nat) -> bool)
    requires forall p: nat, m: nat :: paired(p, m) == Paired(e, p, m)
    ensures Links(e, paired)
  {
  }

  lemma SumPartner(v: Gf, w: Gf, y: Gf, k: nat, n: nat)
    requires 0 < k <= 1023 && 0 < n <= 1023 && w == Plus(K1, E(k)) && y == Plus(K1, E(n))
    requires Mul(w, v) == NORM && MulBits(y, v) == NORM
    ensures k == n
  {
    Partner(k, v, w, y, n);
    SameNext(k, n);
  }

  lemma SameNext(k: nat, n: nat)
    requires 0 < k <= 1023 && 0 < n <= 1023 && k % 1023 == n % 1023
    ensures k == n
  {
  }

  lemma SumPlaces(a: Gf, p: nat, b: Gf, q: nat)
    requires p < 1023 && q < 1023 && IsTerm(a, p) && IsTerm(b, q) && Sum(a, E(p), b, E(q))
    ensures (p, q) == (33, 192) || (p, q) == (192, 33)
  {
    SumPlace(a, p, b, E(q));
    SumTurned(a, E(p), b, E(q));
    SumPlace(b, q, a, E(p));
    SumNorm(a, p, b, q, E(p), E(q));
    NormPlaces(p, q);
  }

  lemma NormPlaces(p: nat, q: nat)
    requires IsPlace(p) && IsPlace(q) && q < 1023 && Mul(Plus(K1, E(q + 1)), Plus(K1, E(p + 1))) == NORM
    ensures (p, q) == (33, 192) || (p, q) == (192, 33)
  {
    NormPartner(p, PartnerPlace(p), Plus(K1, E(p + 1)), Plus(K1, E(q + 1)), q + 1);
    OnlyPartners(p, q);
  }

  lemma NormPartner(p: nat, m: nat, v: Gf, w: Gf, k: nat)
    requires IsPlace(p) && m == PartnerPlace(p) && 0 < k <= 1023
    requires v == Plus(K1, E(p + 1)) && w == Plus(K1, E(k)) && Mul(w, v) == NORM
    ensures k == m + 1
  {
    PlacePartner(p, m, v, w, Plus(K1, E(m + 1)), k, m + 1);
  }

  lemma PlacePartner(p: nat, m: nat, v: Gf, w: Gf, y: Gf, k: nat, n: nat)
    requires IsPlace(p) && 0 < k <= 1023 && m == PartnerPlace(p) && n == m + 1
    requires v == Plus(K1, E(p + 1)) && w == Plus(K1, E(k)) && y == Plus(K1, E(n)) && Mul(w, v) == NORM
    ensures k == n
  {
    assert m < 1023 && MulBits(y, v) == NORM by { PartnerValue(p, m, v, y); }
    SumPartner(v, w, y, k, n);
  }

  lemma PartnerValue(p: nat, m: nat, v: Gf, y: Gf)
    requires IsPlace(p) && m == PartnerPlace(p) && v == Plus(K1, E(p + 1)) && y == Plus(K1, E(m + 1))
    ensures m < 1023 && MulBits(y, v) == NORM
  {
    TableOfPowers();
    PartnerIn((n: nat) => E(n), p, m);
    PairedIs(p, m, v, y);
  }

  // ----- the pair there is

  lemma AmplitudeAt(delta: bv8, p: nat, n: nat, k: nat, v: Gf, a: Gf)
    requires n == 997 * p && k == n % 1023 && E(k) == v && ScaleBits(SymbolOf(delta), v) == a
    ensures Amplitude(delta, p) == a
  {
    var d := SymbolOf(delta);
    ScaleSmall(d);
    IterScale(n, d, ONE);
    EMod(n);
    ScaleIsBits(d, v);
  }

  lemma PairPowers()
    ensures E(33) == Gf(0, 23) && E(192) == Gf(29, 5) && E(165) == Gf(0, 30) && E(123) == Gf(23, 30)
  {
    FirstPowers();
    LastPowers();
    FirstMultiples();
    ValueAt(192, 165, 27, 30, Gf(5, 12), Gf(29, 5));
    ValueAt(123, 99, 24, 2, Gf(31, 15), Gf(23, 30));
  }

  /** The values of difference 19 at both places. */
  lemma PairAmplitudes(p: nat, q: nat)
    requires (997 * p) % 1023 == 165 && (997 * q) % 1023 == 123
    ensures Amplitude(19, p) == Gf(0, 7) && Amplitude(19, q) == Gf(1, 7)
  {
    PairPowers();
    AmplitudeAt(19, p, 997 * p, 165, Gf(0, 30), Gf(0, 7));
    AmplitudeAt(19, q, 997 * q, 123, Gf(23, 30), Gf(1, 7));
  }

  lemma TermsBits(a: Gf, x: Gf, b: Gf, c: Gf)
    requires MulBits(x, a) == b && MulBits(x, b) == c
    ensures Terms(a, x) == Triple(a, b, c)
  {
    MulIsBits(x, a);
    MulIsBits(x, b);
  }

  lemma PairSum()
    ensures Sum(Gf(0, 7), Gf(0, 23), Gf(1, 7), Gf(29, 5))
  {
    TermsBits(Gf(0, 7), Gf(0, 23), Gf(0, 30), Gf(0, 4));
    TermsBits(Gf(1, 7), Gf(29, 5), Gf(7, 15), Gf(13, 13));
  }

  lemma AmplitudeInjective(delta: bv8, eps: bv8, p: nat, n: nat)
    requires delta < 32 && eps < 32 && n == 997 * p && Amplitude(delta, p) == Amplitude(eps, p)
    ensures delta == eps
  {
    var d := delta ^ eps;
    XorBelow(delta, eps, d);
    var v, w := Gf(0, SymbolOf(delta)), Gf(0, SymbolOf(eps));
    IterPlus(n, v, w);
    PlusSame(Iter(n, v), Iter(n, w));
    AmplitudeNonzero(d, p);
  }

  lemma XorBelow(a: bv8, b: bv8, c: bv8)
    requires a < 32 && b < 32 && c == a ^ b
    ensures c < 32 && SymbolOf(c) == SymbolOf(a) ^ SymbolOf(b) && (c == 0 <==> a == b)
  {
  }

  ghost predicate Fit(p: nat, q: nat) { E(p) == Gf(0, 23) && E(q) == Gf(29, 5) && Shifts(p, q) }

  ghost predicate Shifts(p: nat, q: nat) { (997 * p) % 1023 == 165 && (997 * q) % 1023 == 123 }

  lemma PairShifts()
    ensures Shifts(33, 192)
  {
  }

  lemma PairFits()
    ensures Fit(33, 192)
  {
    PairPowers();
    PairShifts();
  }

  lemma PairValues(p: nat, q: nat)
    requires Fit(p, q)
    ensures Sum(Amplitude(19, p), E(p), Amplitude(19, q), E(q))
    ensures Sum(Amplitude(19, q), E(q), Amplitude(19, p), E(p))
  {
    PairAmplitudes(p, q);
    PairSum();
    SumTurned(Gf(0, 7), Gf(0, 23), Gf(1, 7), Gf(29, 5));
  }

  lemma SumIsTwo(p: nat, q: nat, delta: bv8, eps: bv8)
    requires 0 < delta < 32 && 0 < eps < 32
    ensures IsTwo(CLASH, p, q, delta, eps) <==> Sum(Amplitude(delta, p), E(p), Amplitude(eps, q), E(q))
  {
    var r, t := ErrorRemainder(delta, p), ErrorRemainder(eps, q);
    SumTerms(r ^ t, p, q, delta, eps, Amplitude(delta, p), Amplitude(eps, q), r, t);
    ClashSyndrome();
    if SyndromeOf(r ^ t) == Triple(K0, K1, K2) { SyndromeInjective(CLASH, r ^ t, Triple(K0, K1, K2)); }
  }

  /** The two places fix the two values. */
  lemma SumUnique(a: Gf, c: Gf, x: Gf, b: Gf, d: Gf, y: Gf)
    requires Sum(a, x, b, y) && Sum(c, x, d, y)
    ensures a == c
  {
    SumProduct(a, x, b, y);
    SumProduct(c, x, d, y);
    var v := Plus(K2, Mul(x, Mul(x, K0)));
    MulZero(a);
    MulCommutes(a, v);
    MulCommutes(c, v);
    MulCancel(v, a, c);
  }

  lemma SumDifference(delta: bv8, p: nat, b: Gf, d: Gf, y: Gf)
    requires delta < 32 && Sum(Amplitude(delta, p), E(p), b, y) && Sum(Amplitude(19, p), E(p), d, y)
    ensures delta == 19
  {
    SumUnique(Amplitude(delta, p), Amplitude(19, p), E(p), b, d, y);
    AmplitudeInjective(delta, 19, p, 997 * p);
  }

  lemma PairDifferences(p: nat, q: nat, delta: bv8, eps: bv8)
    requires delta < 32 && eps < 32 && Sum(Amplitude(19, p), E(p), Amplitude(19, q), E(q))
    requires Sum(Amplitude(delta, p), E(p), Amplitude(eps, q), E(q))
    ensures delta == 19 && eps == 19
  {
    SumDifference(delta, p, Amplitude(eps, q), Amplitude(19, q), E(q));
    SumTurned(Amplitude(delta, p), E(p), Amplitude(eps, q), E(q));
    SumTurned(Amplitude(19, p), E(p), Amplitude(19, q), E(q));
    SumDifference(eps, q, Amplitude(delta, p), Amplitude(19, p), E(p));
  }

  ghost predicate ClashAt(p: nat, q: nat) { (p == 33 && q == 192) || (p == 192 && q == 33) }

  lemma ClashValues(p: nat, q: nat)
    requires ClashAt(p, q)
    ensures Sum(Amplitude(19, p), E(p), Amplitude(19, q), E(q))
  {
    assert Fit(p, q) || Fit(q, p) by { PairFits(); }
    if Fit(p, q) { PairValues(p, q); } else { PairValues(q, p); }
  }

  /**
   Two errors lead from one constant to the other exactly if both have the difference 19 and
   they are 33 and 192 places before the end.
   */
  lemma TwoThatClash(p: nat, q: nat, delta: bv8, eps: bv8)
    requires p < 1023 && q < 1023 && 0 < delta < 32 && 0 < eps < 32
    ensures IsTwo(CLASH, p, q, delta, eps) <==> ClashAt(p, q) && delta == 19 && eps == 19
  {
    SumIsTwo(p, q, delta, eps);
    var a, b := Amplitude(delta, p), Amplitude(eps, q);
    if IsTwo(CLASH, p, q, delta, eps) {
      assert IsAmplitude(a, p, delta) && IsAmplitude(b, q, eps);
      SumPlaces(a, p, b, q);
      ClashValues(p, q);
      PairDifferences(p, q, delta, eps);
    }
    if ClashAt(p, q) { ClashValues(p, q); }
  }
}
