/**
 The three values of a remainder determine it: at e^997, e^998, e^999 and their conjugates
 a polynomial with six coefficients vanishes only if it is zero.
 */
module Bech32Kernel {
  import opened Bech32Algebra
  import opened Bech32Errors
  import opened Bech32Field
  import opened Bech32Syndrome

  // ----- conjugation over GF(32)

  function Lower(p: nat, h: bv5): Gf { Gf(0, XPow(p, h)) }

  /** A root z of z^2 == x^p z + x^q goes to the other one, z + x^p. */
  function ConjRoot(p: nat, v: Gf): Gf { Plus(v, Lower(p, v.hi)) }

  /** e goes to e + 9, which is e^32. */
  function Conj(v: Gf): Gf { ConjRoot(5, v) }

  lemma LowerPlus(p: nat, a: bv5, b: bv5)
    ensures Lower(p, a ^ b) == Plus(Lower(p, a), Lower(p, b))
  {
    XPowPlus(p, a, b);
  }

  lemma ConjRootPlus(p: nat, a: Gf, b: Gf)
    ensures ConjRoot(p, Plus(a, b)) == Plus(ConjRoot(p, a), ConjRoot(p, b))
  {
    LowerPlus(p, a.hi, b.hi);
    Exchange(a, b, Lower(p, a.hi), Lower(p, b.hi));
  }

  lemma ConjPlus(a: Gf, b: Gf)
    ensures Conj(Plus(a, b)) == Plus(Conj(a), Conj(b))
  {
    ConjRootPlus(5, a, b);
  }

  lemma MulRootIs(p: nat, q: nat, h: bv5, l: bv5, n: bv5, m: bv5)
    requires n == XPow(p, h) && m == XPow(q, h)
    ensures MulRoot(p, q, Gf(h, l)) == Gf(n ^ l, m)
  {
  }

  lemma ConjRootIs(p: nat, h: bv5, l: bv5, n: bv5)
    requires n == XPow(p, h)
    ensures ConjRoot(p, Gf(h, l)) == Gf(h, l ^ n)
  {
  }

  lemma ConjMulRoot(p: nat, q: nat, v: Gf)
    ensures ConjRoot(p, MulRoot(p, q, v)) == Plus(XScale(p, ConjRoot(p, v)), MulRoot(p, q, ConjRoot(p, v)))
  {
    var n, m := XPow(p, v.hi), XPow(q, v.hi);
    ConjMulParts(p, q, v.hi, v.lo, n, m, n ^ v.lo, v.lo ^ n, XPow(p, n), XPow(p, v.lo));
  }

  lemma ConjMulParts(p: nat, q: nat, h: bv5, l: bv5, n: bv5, m: bv5, k: bv5, k': bv5, nn: bv5, o: bv5)
    requires n == XPow(p, h) && m == XPow(q, h) && nn == XPow(p, n) && o == XPow(p, l) && k == n ^ l && k' == l ^ n
    ensures ConjRoot(p, MulRoot(p, q, Gf(h, l))) ==
            Plus(XScale(p, ConjRoot(p, Gf(h, l))), MulRoot(p, q, ConjRoot(p, Gf(h, l))))
  {
    assert ConjRoot(p, MulRoot(p, q, Gf(h, l))) == Gf(k, m ^ (nn ^ o)) by { ConjOfMul(p, q, h, l, n, m, k, nn, o); }
    ConjRootIs(p, h, l, n);
    assert XScale(p, Gf(h, k')) == Gf(n, o ^ nn) by { XPowPlus(p, l, n); }
    MulRootIs(p, q, h, k', n, m);
    ConjHalves(l, n, m, o, nn, k, k');
  }

  lemma ConjOfMul(p: nat, q: nat, h: bv5, l: bv5, n: bv5, m: bv5, k: bv5, nn: bv5, o: bv5)
    requires n == XPow(p, h) && m == XPow(q, h) && nn == XPow(p, n) && o == XPow(p, l) && k == n ^ l
    ensures ConjRoot(p, MulRoot(p, q, Gf(h, l))) == Gf(k, m ^ (nn ^ o))
  {
    assert XPow(p, k) == nn ^ o by { XPowPlus(p, n, l); }
    assert MulRoot(p, q, Gf(h, l)) == Gf(k, m) by { MulRootIs(p, q, h, l, n, m); }
    ConjRootIs(p, k, m, XPow(p, k));
  }

  lemma ConjHalves(l: bv5, n: bv5, m: bv5, o: bv5, nn: bv5, k: bv5, k': bv5)
    requires k == n ^ l && k' == l ^ n
    ensures Gf(k, m ^ (nn ^ o)) == Plus(Gf(n, o ^ nn), Gf(n ^ k', m))
  {
  }

  lemma ConjE(v: Gf, t: nat)
    requires E(t) == Gf(1, 9)
    ensures Conj(MulE(v)) == Iter(t, Conj(v))
  {
    var w := Conj(v);
    ConjMulRoot(5, 21, v);
    IterIsMul(t, w);
    NineScales(w);
    ScaleUnits(MulE(w));
  }

  lemma NineScales(w: Gf)
    ensures Scale(9, w) == XScale(5, w)
  {
    PowersLow();
    ScaleXScale(1, 5, w);
    ScaleUnits(XScale(5, w));
  }

  ghost function Repeat<T>(f: T -> T, k: nat, v: T): T { if k == 0 then v else f(Repeat(f, k - 1, v)) }

  lemma {:induction false} RepeatSum<T>(f: T -> T, j: nat, k: nat, v: T)
    ensures Repeat(f, j + k, v) == Repeat(f, j, Repeat(f, k, v))
    decreases j
  {
    if j > 0 { RepeatSum(f, j - 1, k, v); }
  }

  /** A map that turns one step into t steps turns k steps into t times k. */
  lemma {:induction false} RepeatThrough<T>(f: T -> T, c: T -> T, t: nat, k: nat, v: T)
    requires forall w {:trigger c(f(w))} :: c(f(w)) == Repeat(f, t, c(w))
    ensures c(Repeat(f, k, v)) == Repeat(f, Exponent(t, k), c(v))
    decreases k
  {
    if k > 0 {
      RepeatThrough(f, c, t, k - 1, v);
      RepeatSum(f, t, Exponent(t, k - 1), c(v));
    }
  }

  lemma {:induction false} IterIsRepeat(k: nat, v: Gf)
    ensures Iter(k, v) == Repeat(MulE, k, v)
  {
    if k > 0 { IterIsRepeat(k - 1, v); }
  }

  /** Conjugation turns multiplication by e into multiplication by e^t. */
  ghost predicate Conjugates(t: nat) { forall v {:trigger Conj(MulE(v))} :: Conj(MulE(v)) == Repeat(MulE, t, Conj(v)) }

  lemma Conjugate(t: nat)
    requires E(t) == Gf(1, 9)
    ensures Conjugates(t)
  {
    forall v ensures Conj(MulE(v)) == Repeat(MulE, t, Conj(v)) {
      ConjE(v, t);
      IterIsRepeat(t, Conj(v));
    }
  }

  lemma ConjIter(k: nat, v: Gf, t: nat)
    requires Conjugates(t)
    ensures Conj(Iter(k, v)) == Iter(Exponent(t, k), Conj(v))
  {
    RepeatThrough(MulE, Conj, t, k, v);
    IterIsRepeat(k, v);
    IterIsRepeat(Exponent(t, k), Conj(v));
  }

  // ----- the polynomial of a remainder

  /** Coefficients in GF(32), lowest first, as elements of GF(1024), highest first. */
  ghost function Lifted(p: seq<bv5>): (q: seq<Gf>)
    ensures |q| == |p|
  {
    if |p| == 0 then [] else Lifted(p[1..]) + [Gf(0, p[0])]
  }

  lemma {:induction false} EvalIsAt(j: nat, p: seq<bv5>)
    ensures Eval(j, p) == At(Lifted(p), E(j))
  {
    if |p| > 0 {
      var rest, q := p[1..], Lifted(p);
      assert p == [p[0]] + rest;
      EvalCons(j, p[0], rest);
      EvalIsAt(j, rest);
      assert q[..|p| - 1] == Lifted(rest);
      IterIsMul(j, Eval(j, rest));
      PlusSame(Gf(0, p[0]), Mul(E(j), Eval(j, rest)));
    }
  }

  lemma ConjSmall(v: bv5)
    ensures Conj(Gf(0, v)) == Gf(0, v)
  {
    XPowZero(5, 0);
    PlusZero(Gf(0, v));
  }

  lemma {:induction false} EvalConj(j: nat, p: seq<bv5>, t: nat, m: nat)
    requires Conjugates(t) && m == Exponent(t, j)
    ensures Conj(Eval(j, p)) == Eval(m, p)
  {
    if |p| == 0 {
      ConjSmall(0);
    } else {
      var rest, v := p[1..], p[0];
      assert p == [v] + rest;
      EvalCons(j, v, rest);
      EvalCons(m, v, rest);
      EvalConj(j, rest, t, m);
      ConjPlus(Gf(0, v), Iter(j, Eval(j, rest)));
      ConjSmall(v);
      ConjIter(j, Eval(j, rest), t);
    }
  }

  // ----- six roots

  /** With e^j also its conjugate e^k is a root. */
  lemma RootPair(p: seq<bv5>, q: seq<Gf>, j: nat, k: nat, t: nat)
    requires q == Lifted(p) && Eval(j, p) == ZERO && Conjugates(t) && k == Exponent(t, j) % ORDER
    ensures At(q, E(j)) == ZERO && At(q, E(k)) == ZERO
  {
    var m := Exponent(t, j);
    EvalIsAt(j, p);
    EvalConj(j, p, t, m);
    ConjSmall(0);
    EvalIsAt(m, p);
    EMod(m);
  }

  lemma Different(i: nat, j: nat)
    requires i < j < ORDER
    ensures E(i) != E(j)
  {
    if E(i) == E(j) { EInjective(i, j); }
  }

  lemma SixRoots(r: seq<nat>, roots: seq<Gf>)
    requires |r| == 6 && (forall i, j :: 0 <= i < j < 6 ==> r[i] < r[j]) && r[5] < ORDER
    requires |roots| == 6 && forall i :: 0 <= i < 6 ==> roots[i] == E(r[i])
    ensures forall i, j :: 0 <= i < j < 6 ==> roots[i] != roots[j]
  {
    forall i, j | 0 <= i < j < 6 ensures roots[i] != roots[j] {
      assert r[i] < r[j] <= r[5];
      Different(r[i], r[j]);
    }
  }

  /** 997, 998, 999 and, before them, their products with 32 modulo 1023. */
  lemma Exponents() returns (r: seq<nat>, t: nat)
    ensures |r| == 6 && (forall i, j :: 0 <= i < j < 6 ==> r[i] < r[j]) && r[5] < ORDER && Conjugates(t)
    ensures r[3] == 997 && r[4] == 998 && r[5] == 999
    ensures r[0] == Exponent(t, r[3]) % ORDER && r[1] == Exponent(t, r[4]) % ORDER && r[2] == Exponent(t, r[5]) % ORDER
  {
    t := ThirtyTwo();
    r := [191, 223, 255, 997, 998, 999];
    ExponentMod(t, r[3], r[0]);
    ExponentMod(t, r[4], r[1]);
    ExponentMod(t, r[5], r[2]);
  }

  lemma ThirtyTwo() returns (t: nat)
    ensures t == 32 && Conjugates(t)
  {
    BinaryPowers();
    t := 32;
    Conjugate(t);
  }

  lemma ExponentMod(t: nat, j: nat, k: nat)
    requires t == 32 && k < 1023 && 32 * j == k + 1023 * 31
    ensures k == Exponent(t, j) % ORDER
  {
    ExponentIs(t, j);
    assert t * j == 32 * j;
  }

  lemma SixValues(p: seq<bv5>, q: seq<Gf>, r: seq<nat>, roots: seq<Gf>, t: nat)
    requires |r| == 6 && Conjugates(t) && q == Lifted(p)
    requires Eval(r[3], p) == ZERO && Eval(r[4], p) == ZERO && Eval(r[5], p) == ZERO
    requires r[0] == Exponent(t, r[3]) % ORDER && r[1] == Exponent(t, r[4]) % ORDER && r[2] == Exponent(t, r[5]) % ORDER
    requires |roots| == 6 && forall i :: 0 <= i < 6 ==> roots[i] == E(r[i])
    ensures forall i :: 0 <= i < 6 ==> At(q, roots[i]) == ZERO
  {
    RootPair(p, q, r[3], r[0], t);
    RootPair(p, q, r[4], r[1], t);
    RootPair(p, q, r[5], r[2], t);
    forall i | 0 <= i < 6 ensures At(q, roots[i]) == ZERO {
      assert i == 0 || i == 1 || i == 2 || i == 3 || i == 4 || i == 5;
    }
  }

  lemma {:induction false} LiftedZero(p: seq<bv5>)
    requires AllZero(Lifted(p))
    ensures forall i :: 0 <= i < |p| ==> p[i] == 0
  {
    if |p| > 0 {
      var q, rest := Lifted(p), Lifted(p[1..]);
      forall i | 0 <= i < |rest| ensures rest[i] == ZERO { assert q[i] == rest[i]; }
      assert q[|p| - 1] == Gf(0, p[0]);
      LiftedZero(p[1..]);
      forall i | 0 <= i < |p| ensures p[i] == 0 { if i > 0 { assert p[i] == p[1..][i - 1]; } }
    }
  }

  lemma GroupsZero(d: bv30)
    requires G0(d) == 0 && G1(d) == 0 && G2(d) == 0 && G3(d) == 0 && G4(d) == 0 && G5(d) == 0
    ensures d == 0
  {
  }

  lemma ZeroPolynomial(p: seq<bv5>)
    requires |p| == 6 && Eval(997, p) == ZERO && Eval(998, p) == ZERO && Eval(999, p) == ZERO
    ensures forall i :: 0 <= i < 6 ==> p[i] == 0
  {
    var r, t := Exponents();
    var roots := seq(6, i requires 0 <= i < 6 => E(r[i]));
    var q := Lifted(p);
    SixValues(p, q, r, roots, t);
    SixRoots(r, roots);
    TooManyRoots(q, roots);
    LiftedZero(p);
  }

  /** Only 0 has the values 0. */
  lemma SyndromeKernel(d: bv30)
    requires SyndromeOf(d) == Triple(ZERO, ZERO, ZERO)
    ensures d == 0
  {
    var p := Coefficients6(d);
    ZeroPolynomial(p);
    assert p[0] == 0 && p[1] == 0 && p[2] == 0 && p[3] == 0 && p[4] == 0 && p[5] == 0;
    GroupsZero(d);
  }

  lemma SameTriple(s: Triple)
    ensures PlusT(s, s) == Triple(ZERO, ZERO, ZERO)
  {
    PlusZero(s.s0);
    PlusZero(s.s1);
    PlusZero(s.s2);
  }

  lemma XorSame(a: bv30, b: bv30, c: bv30)
    requires c == a ^ b && c == 0
    ensures a == b
  {
  }

  /** Remainders with the same three values are the same. */
  lemma SyndromeInjective(a: bv30, b: bv30, s: Triple)
    requires SyndromeOf(a) == s && SyndromeOf(b) == s
    ensures a == b
  {
    var c := a ^ b;
    SyndromeXor(a, b, c);
    SameTriple(s);
    SyndromeKernel(c);
    XorSame(a, b, c);
  }
}
