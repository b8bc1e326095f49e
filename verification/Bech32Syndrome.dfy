/**
 The remainder of a polynomial over GF(32) modulo the generator, evaluated at
 powers of e that are roots of the generator.
 */
module Bech32Syndrome {
  import opened Bech32
  import opened Bech32Field

  // ----- polynomials over GF(32), constant term first

  /** The value at e^j. */
  ghost function Eval(j: nat, p: seq<bv5>): Gf {
    if |p| == 0 then ZERO else Plus(Eval(j, p[..|p| - 1]), Scale(p[|p| - 1], E(j * (|p| - 1))))
  }

  ghost function Sum(p: seq<bv5>, q: seq<bv5>): seq<bv5>
    requires |p| == |q|
  {
    seq(|p|, i requires 0 <= i < |p| => XorOf(p[i], q[i]))
  }

  ghost function Scaled(t: bv5, p: seq<bv5>): seq<bv5> {
    seq(|p|, i requires 0 <= i < |p| => Times(t, p[i]))
  }

  function XorOf(a: bv5, b: bv5): bv5 { a ^ b }

  lemma {:induction false} EvalSum(j: nat, p: seq<bv5>, q: seq<bv5>)
    requires |p| == |q|
    ensures Eval(j, Sum(p, q)) == Plus(Eval(j, p), Eval(j, q))
  {
    if |p| > 0 {
      var n, x := |p| - 1, E(j * (|p| - 1));
      EvalSum(j, p[..n], q[..n]);
      assert Sum(p, q)[..n] == Sum(p[..n], q[..n]) && Sum(p, q)[n] == XorOf(p[n], q[n]);
      PlusScale(p[n], q[n], x);
      Exchange(Eval(j, p[..n]), Eval(j, q[..n]), Scale(p[n], x), Scale(q[n], x));
    } else {
      PlusZero(ZERO);
    }
  }

  lemma ScaleZero(t: bv5)
    ensures Scale(t, ZERO) == ZERO
  {
    TimesZero(t);
  }

  lemma {:induction false} EvalScaled(j: nat, t: bv5, p: seq<bv5>)
    ensures Eval(j, Scaled(t, p)) == Scale(t, Eval(j, p))
  {
    if |p| > 0 {
      var n, x := |p| - 1, E(j * (|p| - 1));
      EvalScaled(j, t, p[..n]);
      assert Scaled(t, p)[..n] == Scaled(t, p[..n]) && Scaled(t, p)[n] == Times(t, p[n]);
      ScaleScale(t, p[n], x);
      ScalePlus(t, Eval(j, p[..n]), Scale(p[n], x));
    } else {
      ScaleZero(t);
    }
  }

  lemma NextPower(j: nat, n: nat)
    ensures Iter(j, E(j * n)) == E(j * (n + 1))
  {
    assert j * (n + 1) == j + j * n;
    IterSumAt(j, j * n, j * (n + 1), ONE);
  }

  /** Moving all coefficients up multiplies the value by e^j. */
  lemma {:induction false} EvalUp(j: nat, p: seq<bv5>)
    ensures Eval(j, [0] + p) == Iter(j, Eval(j, p))
  {
    var q := [0] + p;
    if |p| == 0 {
      assert q[..0] == [];
      ScaleUnits(E(j * 0));
      PlusZero(ZERO);
      IterOfZero(j);
    } else {
      var n := |p| - 1;
      assert q[..|p|] == [0] + p[..n] && q[|p|] == p[n];
      EvalUp(j, p[..n]);
      IterPlus(j, Eval(j, p[..n]), Scale(p[n], E(j * n)));
      IterScale(j, p[n], E(j * n));
      NextPower(j, n);
    }
  }

  // ----- the generator

  /** The generator without its leading term. */
  const GENERATOR: seq<bv5> := [18, 29, 21, 20, 22, 29]

  /** e^j is a root of the generator. */
  ghost predicate IsRoot(j: nat) { Eval(j, GENERATOR) == E(j * 6) }

  lemma EvalSix(j: nat, p: seq<bv5>)
    requires |p| == 6
    ensures Eval(j, p) == Plus(Plus(Plus(Plus(Plus(Plus(ZERO, Scale(p[0], E(j * 0))), Scale(p[1], E(j * 1))),
              Scale(p[2], E(j * 2))), Scale(p[3], E(j * 3))), Scale(p[4], E(j * 4))), Scale(p[5], E(j * 5)))
  {
    EvalNext(j, p, 0);
    EvalNext(j, p, 1);
    EvalNext(j, p, 2);
    EvalNext(j, p, 3);
    EvalNext(j, p, 4);
    EvalNext(j, p, 5);
    assert p[..6] == p;
  }

  lemma EvalNext(j: nat, p: seq<bv5>, n: nat)
    requires n < |p|
    ensures Eval(j, p[..n + 1]) == Plus(Eval(j, p[..n]), Scale(p[n], E(j * n)))
  {
    assert p[..n + 1][..n] == p[..n];
  }

  lemma SixAt(j: nat, p: seq<bv5>, x0: Gf, x1: Gf, x2: Gf, x3: Gf, x4: Gf, x5: Gf)
    requires |p| == 6
    requires E(j * 0) == x0 && E(j * 1) == x1 && E(j * 2) == x2 && E(j * 3) == x3 && E(j * 4) == x4 && E(j * 5) == x5
    ensures Eval(j, p) ==
            Plus(Plus(Plus(Plus(Plus(Plus(ZERO, ScaleBits(p[0], x0)), ScaleBits(p[1], x1)), ScaleBits(p[2], x2)),
                           ScaleBits(p[3], x3)), ScaleBits(p[4], x4)), ScaleBits(p[5], x5))
  {
    EvalSix(j, p);
    ScaleIsBits(p[0], x0);
    ScaleIsBits(p[1], x1);
    ScaleIsBits(p[2], x2);
    ScaleIsBits(p[3], x3);
    ScaleIsBits(p[4], x4);
    ScaleIsBits(p[5], x5);
  }

  lemma Powers997()
    ensures E(0) == Gf(0, 1) && E(997) == Gf(13, 29) && E(1994) == Gf(27, 9) && E(2991) == Gf(26, 15) &&
            E(3988) == Gf(30, 22) && E(4985) == Gf(3, 20) && E(5982) == Gf(23, 21)
  {
    TopPowers();
    EAt(997, 997, 1994, Gf(13, 29), Gf(13, 29), Gf(27, 9));
    EAt(997, 1994, 2991, Gf(13, 29), Gf(27, 9), Gf(26, 15));
    EAt(997, 2991, 3988, Gf(13, 29), Gf(26, 15), Gf(30, 22));
    EAt(997, 3988, 4985, Gf(13, 29), Gf(30, 22), Gf(3, 20));
    EAt(997, 4985, 5982, Gf(13, 29), Gf(3, 20), Gf(23, 21));
  }

  lemma Root997()
    ensures IsRoot(997)
  {
    Powers997();
    SixAt(997, GENERATOR, Gf(0, 1), Gf(13, 29), Gf(27, 9), Gf(26, 15), Gf(30, 22), Gf(3, 20));
  }

  lemma Powers998()
    ensures E(0) == Gf(0, 1) && E(998) == Gf(3, 5) && E(1996) == Gf(4, 8) && E(2994) == Gf(27, 19) &&
            E(3992) == Gf(29, 3) && E(4990) == Gf(18, 26) && E(5988) == Gf(30, 26)
  {
    TopPowers();
    EAt(998, 998, 1996, Gf(3, 5), Gf(3, 5), Gf(4, 8));
    EAt(998, 1996, 2994, Gf(3, 5), Gf(4, 8), Gf(27, 19));
    EAt(998, 2994, 3992, Gf(3, 5), Gf(27, 19), Gf(29, 3));
    EAt(998, 3992, 4990, Gf(3, 5), Gf(29, 3), Gf(18, 26));
    EAt(998, 4990, 5988, Gf(3, 5), Gf(18, 26), Gf(30, 26));
  }

  lemma Root998()
    ensures IsRoot(998)
  {
    Powers998();
    SixAt(998, GENERATOR, Gf(0, 1), Gf(3, 5), Gf(4, 8), Gf(27, 19), Gf(29, 3), Gf(18, 26));
  }

  lemma Powers999()
    ensures E(0) == Gf(0, 1) && E(999) == Gf(30, 16) && E(1998) == Gf(10, 25) && E(2997) == Gf(22, 6) &&
            E(3996) == Gf(2, 17) && E(4995) == Gf(2, 2) && E(5994) == Gf(5, 1)
  {
    TopPowers();
    EAt(999, 999, 1998, Gf(30, 16), Gf(30, 16), Gf(10, 25));
    EAt(999, 1998, 2997, Gf(30, 16), Gf(10, 25), Gf(22, 6));
    EAt(999, 2997, 3996, Gf(30, 16), Gf(22, 6), Gf(2, 17));
    EAt(999, 3996, 4995, Gf(30, 16), Gf(2, 17), Gf(2, 2));
    EAt(999, 4995, 5994, Gf(30, 16), Gf(2, 2), Gf(5, 1));
  }

  lemma Root999()
    ensures IsRoot(999)
  {
    Powers999();
    SixAt(999, GENERATOR, Gf(0, 1), Gf(30, 16), Gf(10, 25), Gf(22, 6), Gf(2, 17), Gf(2, 2));
  }

  // ----- the coefficients of a remainder

  function G0(c: bv30): bv5 { (c & 31) as bv5 }
  function G1(c: bv30): bv5 { ((c >> 5) & 31) as bv5 }
  function G2(c: bv30): bv5 { ((c >> 10) & 31) as bv5 }
  function G3(c: bv30): bv5 { ((c >> 15) & 31) as bv5 }
  function G4(c: bv30): bv5 { ((c >> 20) & 31) as bv5 }
  function G5(c: bv30): bv5 { ((c >> 25) & 31) as bv5 }

  function SymbolOf(v: bv8): bv5 { (v & 31) as bv5 }

  function Coefficients6(c: bv30): seq<bv5> { [G0(c), G1(c), G2(c), G3(c), G4(c), G5(c)] }

  lemma StepGroup0(c: bv30, v: bv8)
    requires v < 32
    ensures G0(Step(c, v)) == XorOf(SymbolOf(v), Times(G5(c), 18))
  {
    TimesIsBits(G5(c), 18);
    StepBits0(c, v);
  }

  lemma StepBits0(c: bv30, v: bv8)
    requires v < 32
    ensures G0(Step(c, v)) == SymbolOf(v) ^ TimesBits(G5(c), 18)
  {
  }

  lemma StepGroup1(c: bv30, v: bv8)
    requires v < 32
    ensures G1(Step(c, v)) == XorOf(G0(c), Times(G5(c), 29))
  {
    TimesIsBits(G5(c), 29);
    StepBits1(c, v);
  }

  lemma StepBits1(c: bv30, v: bv8)
    requires v < 32
    ensures G1(Step(c, v)) == G0(c) ^ TimesBits(G5(c), 29)
  {
  }

  lemma StepGroup2(c: bv30, v: bv8)
    requires v < 32
    ensures G2(Step(c, v)) == XorOf(G1(c), Times(G5(c), 21))
  {
    TimesIsBits(G5(c), 21);
    StepBits2(c, v);
  }

  lemma StepBits2(c: bv30, v: bv8)
    requires v < 32
    ensures G2(Step(c, v)) == G1(c) ^ TimesBits(G5(c), 21)
  {
  }

  lemma StepGroup3(c: bv30, v: bv8)
    requires v < 32
    ensures G3(Step(c, v)) == XorOf(G2(c), Times(G5(c), 20))
  {
    TimesIsBits(G5(c), 20);
    StepBits3(c, v);
  }

  lemma StepBits3(c: bv30, v: bv8)
    requires v < 32
    ensures G3(Step(c, v)) == G2(c) ^ TimesBits(G5(c), 20)
  {
  }

  lemma StepGroup4(c: bv30, v: bv8)
    requires v < 32
    ensures G4(Step(c, v)) == XorOf(G3(c), Times(G5(c), 22))
  {
    TimesIsBits(G5(c), 22);
    StepBits4(c, v);
  }

  lemma StepBits4(c: bv30, v: bv8)
    requires v < 32
    ensures G4(Step(c, v)) == G3(c) ^ TimesBits(G5(c), 22)
  {
  }

  lemma StepGroup5(c: bv30, v: bv8)
    requires v < 32
    ensures G5(Step(c, v)) == XorOf(G4(c), Times(G5(c), 29))
  {
    TimesIsBits(G5(c), 29);
    StepBits5(c, v);
  }

  lemma StepBits5(c: bv30, v: bv8)
    requires v < 32
    ensures G5(Step(c, v)) == G4(c) ^ TimesBits(G5(c), 29)
  {
  }

  /** A step, on coefficients: all move up, and the generator takes the top one. */
  lemma StepCoefficients(c: bv30, v: bv8)
    requires v < 32
    ensures Coefficients6(Step(c, v)) == Sum([SymbolOf(v)] + Coefficients6(c)[..5], Scaled(G5(c), GENERATOR))
  {
    StepGroup0(c, v);
    StepGroup1(c, v);
    StepGroup2(c, v);
    StepGroup3(c, v);
    StepGroup4(c, v);
    StepGroup5(c, v);
    SixAlike(Coefficients6(Step(c, v)), Sum([SymbolOf(v)] + Coefficients6(c)[..5], Scaled(G5(c), GENERATOR)));
  }

  lemma SixAlike(p: seq<bv5>, q: seq<bv5>)
    requires |p| == |q| == 6
    requires p[0] == q[0] && p[1] == q[1] && p[2] == q[2] && p[3] == q[3] && p[4] == q[4] && p[5] == q[5]
    ensures p == q
  {
  }

  lemma SumOfZeros(v: bv5, p: seq<bv5>, zeros: seq<bv5>)
    requires |zeros| == |p| && forall i :: 0 <= i < |p| ==> zeros[i] == 0
    ensures Sum([v] + zeros, [0] + p) == [v] + p
  {
  }

  lemma EvalCons(j: nat, v: bv5, p: seq<bv5>)
    ensures Eval(j, [v] + p) == Plus(Gf(0, v), Iter(j, Eval(j, p)))
  {
    var zeros := seq(|p|, i => 0 as bv5);
    EvalUp(j, p);
    EvalZeros(j, v, |p|);
    EvalSum(j, [v] + zeros, [0] + p);
    SumOfZeros(v, p, zeros);
  }

  lemma {:induction false} EvalZeros(j: nat, v: bv5, n: nat)
    ensures Eval(j, [v] + seq(n, i => 0 as bv5)) == Gf(0, v)
  {
    var q := [v] + seq(n, i => 0 as bv5);
    if n == 0 {
      assert q == [v] && q[..0] == [];
      ScaleSmall(v);
      PlusZero(Gf(0, v));
      assert Plus(ZERO, Gf(0, v)) == Gf(0, v);
    } else {
      EvalZeros(j, v, n - 1);
      assert q[..n] == [v] + seq(n - 1, i => 0 as bv5) && q[n] == 0;
      ScaleUnits(E(j * n));
      PlusZero(Gf(0, v));
    }
  }

  lemma Cancel(a: Gf, b: Gf, c: Gf)
    ensures Plus(Plus(a, b), c) == Plus(a, Plus(b, c))
  {
  }

  lemma EvalSplit(j: nat, p: seq<bv5>)
    requires |p| == 6
    ensures Iter(j, Eval(j, p)) == Plus(Iter(j, Eval(j, p[..5])), Scale(p[5], E(j * 6)))
  {
    IterPlus(j, Eval(j, p[..5]), Scale(p[5], E(j * 5)));
    IterScale(j, p[5], E(j * 5));
    NextPower(j, 5);
  }

  lemma EvalReduced(j: nat, p: seq<bv5>, v: bv5, g: seq<bv5>)
    requires |p| == 6 && |g| == 6 && Eval(j, g) == E(j * 6)
    ensures Eval(j, Sum([v] + p[..5], Scaled(p[5], g))) == Plus(Gf(0, v), Iter(j, Eval(j, p)))
  {
    EvalSum(j, [v] + p[..5], Scaled(p[5], g));
    EvalScaled(j, p[5], g);
    EvalCons(j, v, p[..5]);
    EvalSplit(j, p);
    Cancel(Gf(0, v), Iter(j, Eval(j, p[..5])), Scale(p[5], E(j * 6)));
  }

  /** At a root of the generator, a step multiplies by e^j and adds the value. */
  lemma EvalStep(j: nat, c: bv30, v: bv8, d: bv30)
    requires IsRoot(j) && v < 32 && d == Step(c, v)
    ensures Eval(j, Coefficients6(d)) == Plus(Gf(0, SymbolOf(v)), Iter(j, Eval(j, Coefficients6(c))))
  {
    StepCoefficients(c, v);
    EvalReduced(j, Coefficients6(c), SymbolOf(v), GENERATOR);
  }

  // ----- the three values

  /** Three elements packed in one number. */
  datatype Triple = Triple(s0: Gf, s1: Gf, s2: Gf)

  function PlusT(a: Triple, b: Triple): Triple { Triple(Plus(a.s0, b.s0), Plus(a.s1, b.s1), Plus(a.s2, b.s2)) }

  ghost function SyndromeOf(residue: bv30): Triple {
    var p := Coefficients6(residue);
    Triple(Eval(997, p), Eval(998, p), Eval(999, p))
  }

  lemma ZeroRemainder(j: nat)
    ensures Eval(j, Coefficients6(0)) == ZERO
  {
    EvalZeros(j, 0, 5);
    SixAlike(Coefficients6(0), [0] + seq(5, i => 0 as bv5));
  }

  /** The remainder left by an error of `delta`, `p` places before the end. */
  ghost function ErrorRemainder(delta: bv8, p: nat): bv30 {
    if p == 0 then Step(0, delta) else Step(ErrorRemainder(delta, p - 1), 0)
  }

  /** The exponent of x^p at e^j. */
  function Exponent(j: nat, p: nat): nat { if p == 0 then 0 else j + Exponent(j, p - 1) }

  lemma {:induction false} ExponentIs(j: nat, k: nat)
    ensures Exponent(j, k) == j * k
    decreases k
  {
    if k > 0 {
      ExponentIs(j, k - 1);
      assert j * k == j + j * (k - 1);
    }
  }

  lemma ErrorFirst(j: nat, delta: bv8, d: bv30)
    requires IsRoot(j) && delta < 32 && d == Step(0, delta)
    ensures Eval(j, Coefficients6(d)) == Gf(0, SymbolOf(delta))
  {
    EvalStep(j, 0, delta, d);
    ZeroRemainder(j);
    IterOfZero(j);
    PlusZero(Gf(0, SymbolOf(delta)));
  }

  lemma ErrorMoves(j: nat, c: bv30, d: bv30, n: nat, v: Gf)
    requires IsRoot(j) && d == Step(c, 0) && Eval(j, Coefficients6(c)) == Iter(n, v)
    ensures Eval(j, Coefficients6(d)) == Iter(j + n, v)
  {
    EvalStep(j, c, 0, d);
    IterSum(j, n, v);
    ZeroPlus(Iter(j + n, v));
  }

  /** Its value at a root is the error times a power that tells the place. */
  lemma {:induction false} ErrorSyndrome(j: nat, delta: bv8, p: nat, d: bv30)
    requires IsRoot(j) && delta < 32 && d == ErrorRemainder(delta, p)
    ensures Eval(j, Coefficients6(d)) == Iter(Exponent(j, p), Gf(0, SymbolOf(delta)))
    decreases p
  {
    if p == 0 {
      ErrorFirst(j, delta, d);
    } else {
      var c := ErrorRemainder(delta, p - 1);
      var v, n := Gf(0, SymbolOf(delta)), Exponent(j, p - 1);
      assert d == Step(c, 0);
      assert Exponent(j, p) == j + n;
      assert Eval(j, Coefficients6(c)) == Iter(n, v) by { ErrorSyndrome(j, delta, p - 1, c); }
      assert Eval(j, Coefficients6(d)) == Iter(j + n, v) by { ErrorMoves(j, c, d, n, v); }
    }
  }

  lemma ZeroPlus(a: Gf)
    ensures Plus(Gf(0, SymbolOf(0)), a) == a
  {
  }
}
