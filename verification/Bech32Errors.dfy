/**
 What errors leave in a checksum: up to three of them are always detected, and the three
 values of a remainder determine it.
 */
module Bech32Errors {
  import opened Bech32
  import opened Bech32Algebra
  import opened Bech32Field
  import opened Bech32Syndrome

  // ----- a substituted character

  lemma {:induction false} TailOfZeros(delta: bv8, z: seq<bv8>)
    requires forall i :: 0 <= i < |z| ==> z[i] == 0
    ensures Fold(Step(0, delta), z) == ErrorRemainder(delta, |z|)
  {
    if |z| > 0 { TailOfZeros(delta, z[..|z| - 1]); }
  }

  lemma StepDifference(c: bv30, v: bv8, w: bv8, delta: bv8)
    requires delta == v ^ w
    ensures Step(c, v) ^ Step(c, w) == Step(0, delta)
  {
    XorZero(c, c);
    StepXor(c, c, 0, v, w, delta);
  }

  lemma FoldDifference(a: bv30, b: bv30, delta: bv8, tail: seq<bv8>)
    requires a ^ b == Step(0, delta)
    ensures Fold(a, tail) ^ Fold(b, tail) == ErrorRemainder(delta, |tail|)
  {
    var z := XorAll(tail, tail);
    FoldXor(a, b, tail, tail);
    forall i | 0 <= i < |z| ensures z[i] == 0 { SelfXor(tail[i]); }
    TailOfZeros(delta, z);
  }

  lemma OneStep(c: bv30, v: bv8)
    ensures Fold(c, [v]) == Step(c, v)
  {
    FoldNext(c, [v], 0);
    assert [v][..1] == [v];
  }

  lemma SplitAt(hrp: Text, v: seq<bv8>, i: nat, head: seq<bv8>, tail: seq<bv8>, x: bv8) returns (a: bv30)
    requires i < |v| && v[..i] == head && v[i] == x && v[i + 1..] == tail
    ensures a == Step(Fold(1, Coefficients(hrp, []) + head), x)
    ensures Fold(1, Coefficients(hrp, v)) == Fold(a, tail)
  {
    SplitFold(hrp, v, i, i + 1);
    assert v[i..i + 1] == [v[i]];
    OneStep(Fold(1, Coefficients(hrp, []) + head), x);
    a := Step(Fold(1, Coefficients(hrp, []) + head), x);
  }

  lemma ChangedFold(c: bv30, a: bv30, b: bv30, v: bv8, x: bv8, delta: bv8, tail: seq<bv8>, p: nat)
    requires a == Step(c, v) && b == Step(c, x) && delta == v ^ x && |tail| == p
    ensures Fold(a, tail) ^ Fold(b, tail) == ErrorRemainder(delta, p)
  {
    StepDifference(c, v, x, delta);
    FoldDifference(a, b, delta, tail);
  }

  /** The checksum of a value changed, relative to that of the original. */
  lemma ChangedChecksum(hrp: Text, v: seq<bv8>, w: seq<bv8>, i: nat, x: bv8, delta: bv8, p: nat)
    requires i < |v| && w == v[i := x] && delta == v[i] ^ x && p == |v| - 1 - i
    ensures Fold(1, Coefficients(hrp, v)) ^ Fold(1, Coefficients(hrp, w)) == ErrorRemainder(delta, p)
  {
    var head, tail := v[..i], v[i + 1..];
    assert w[..i] == head && w[i + 1..] == tail;
    var a := SplitAt(hrp, v, i, head, tail, v[i]);
    var b := SplitAt(hrp, w, i, head, tail, x);
    ChangedFold(Fold(1, Coefficients(hrp, []) + head), a, b, v[i], x, delta, tail, p);
  }

  // ----- the values of an error

  /** The value of an error at e^997. */
  ghost function Amplitude(delta: bv8, p: nat): Gf { Iter(997 * p, Gf(0, SymbolOf(delta))) }

  lemma NextTerm(j: nat, p: nat, m: nat, n: nat, v: Gf)
    requires m == j * p && n == (j + 1) * p
    ensures Iter(n, v) == Mul(E(p), Iter(m, v))
  {
    assert n == p + m;
    IterSumAt(p, m, n, v);
    IterIsMul(p, Iter(m, v));
  }

  lemma ErrorValue(j: nat, delta: bv8, p: nat, d: bv30, n: nat, v: Gf)
    requires IsRoot(j) && delta < 32 && d == ErrorRemainder(delta, p) && n == j * p && v == Gf(0, SymbolOf(delta))
    ensures Eval(j, Coefficients6(d)) == Iter(n, v)
  {
    ErrorSyndrome(j, delta, p, d);
    ExponentIs(j, p);
  }

  lemma ErrorValues(delta: bv8, p: nat, d: bv30, n0: nat, n1: nat, n2: nat, v: Gf)
    requires delta < 32 && d == ErrorRemainder(delta, p) && v == Gf(0, SymbolOf(delta))
    requires n0 == 997 * p && n1 == 998 * p && n2 == 999 * p
    ensures SyndromeOf(d) == Triple(Iter(n0, v), Iter(n1, v), Iter(n2, v))
  {
    ErrorAt997(delta, p, d, n0, v);
    ErrorAt998(delta, p, d, n1, v);
    ErrorAt999(delta, p, d, n2, v);
  }

  lemma ErrorAt997(delta: bv8, p: nat, d: bv30, n: nat, v: Gf)
    requires delta < 32 && d == ErrorRemainder(delta, p) && n == 997 * p && v == Gf(0, SymbolOf(delta))
    ensures Eval(997, Coefficients6(d)) == Iter(n, v)
  {
    Root997();
    ErrorValue(997, delta, p, d, n, v);
  }

  lemma ErrorAt998(delta: bv8, p: nat, d: bv30, n: nat, v: Gf)
    requires delta < 32 && d == ErrorRemainder(delta, p) && n == 998 * p && v == Gf(0, SymbolOf(delta))
    ensures Eval(998, Coefficients6(d)) == Iter(n, v)
  {
    Root998();
    ErrorValue(998, delta, p, d, n, v);
  }

  lemma ErrorAt999(delta: bv8, p: nat, d: bv30, n: nat, v: Gf)
    requires delta < 32 && d == ErrorRemainder(delta, p) && n == 999 * p && v == Gf(0, SymbolOf(delta))
    ensures Eval(999, Coefficients6(d)) == Iter(n, v)
  {
    Root999();
    ErrorValue(999, delta, p, d, n, v);
  }

  /** At the three roots an error has values in the proportion of its place. */
  lemma ErrorTerms(delta: bv8, p: nat, d: bv30, a: Gf, x: Gf)
    requires delta < 32 && d == ErrorRemainder(delta, p) && a == Amplitude(delta, p) && x == E(p)
    ensures SyndromeOf(d) == Triple(a, Mul(x, a), Mul(x, Mul(x, a)))
  {
    var v, n0, n1, n2 := Gf(0, SymbolOf(delta)), 997 * p, 998 * p, 999 * p;
    ErrorValues(delta, p, d, n0, n1, n2, v);
    TermsInStep(p, n0, n1, n2, v, a, x);
  }

  lemma TermsInStep(p: nat, n0: nat, n1: nat, n2: nat, v: Gf, a: Gf, x: Gf)
    requires n0 == 997 * p && n1 == 998 * p && n2 == 999 * p && a == Iter(n0, v) && x == E(p)
    ensures Iter(n1, v) == Mul(x, a) && Iter(n2, v) == Mul(x, Mul(x, a))
  {
    NextTerm(997, p, n0, n1, v);
    NextTerm(998, p, n1, n2, v);
  }

  lemma SymbolNonzero(delta: bv8)
    requires delta < 32
    ensures SymbolOf(delta) == 0 <==> delta == 0
  {
  }

  lemma AmplitudeNonzero(delta: bv8, p: nat)
    requires delta < 32
    ensures Amplitude(delta, p) == ZERO <==> delta == 0
  {
    SymbolNonzero(delta);
    var v := Gf(0, SymbolOf(delta));
    if delta == 0 {
      IterOfZero(997 * p);
    } else {
      IterIsMul(997 * p, v);
      PowerNonzero(997 * p);
      MulNonzero(E(997 * p), v);
    }
  }

  // ----- the values of a sum

  lemma GroupsXor(a: bv30, b: bv30)
    ensures G0(a ^ b) == XorOf(G0(a), G0(b)) && G1(a ^ b) == XorOf(G1(a), G1(b)) && G2(a ^ b) == XorOf(G2(a), G2(b))
    ensures G3(a ^ b) == XorOf(G3(a), G3(b)) && G4(a ^ b) == XorOf(G4(a), G4(b)) && G5(a ^ b) == XorOf(G5(a), G5(b))
  {
  }

  lemma CoefficientsXor(a: bv30, b: bv30)
    ensures Coefficients6(a ^ b) == Sum(Coefficients6(a), Coefficients6(b))
  {
    GroupsXor(a, b);
    SixAlike(Coefficients6(a ^ b), Sum(Coefficients6(a), Coefficients6(b)));
  }

  lemma SyndromeXor(a: bv30, b: bv30, c: bv30)
    requires c == a ^ b
    ensures SyndromeOf(c) == PlusT(SyndromeOf(a), SyndromeOf(b))
  {
    var p, q := Coefficients6(a), Coefficients6(b);
    CoefficientsXor(a, b);
    EvalSum(997, p, q);
    EvalSum(998, p, q);
    EvalSum(999, p, q);
  }

  lemma SyndromeZero()
    ensures SyndromeOf(0) == Triple(ZERO, ZERO, ZERO)
  {
    ZeroRemainder(997);
    ZeroRemainder(998);
    ZeroRemainder(999);
  }

  // ----- up to three errors

  lemma TwoTerms(a: Gf, x: Gf, b: Gf, y: Gf)
    requires x != y && Plus(a, b) == ZERO && Plus(Mul(x, a), Mul(y, b)) == ZERO
    ensures a == ZERO && b == ZERO
  {
    PlusSame(a, b);
    PlusMul(x, y, a);
    PlusSame(x, y);
    if a != ZERO { MulNonzero(Plus(x, y), a); }
  }

  /** Takes away the third of three terms. */
  lemma Eliminate(a: Gf, x: Gf, b: Gf, y: Gf, c: Gf, z: Gf)
    ensures Plus(Mul(z, Plus(Plus(a, b), c)), Plus(Plus(Mul(x, a), Mul(y, b)), Mul(z, c))) ==
            Plus(Mul(Plus(x, z), a), Mul(Plus(y, z), b))
  {
    MulPlus(z, Plus(a, b), c);
    MulPlus(z, a, b);
    PlusMul(x, z, a);
    PlusMul(y, z, b);
    Collect(Mul(z, a), Mul(z, b), Mul(z, c), Mul(x, a), Mul(y, b));
  }

  lemma Collect(za: Gf, zb: Gf, zc: Gf, xa: Gf, yb: Gf)
    ensures Plus(Plus(Plus(za, zb), zc), Plus(Plus(xa, yb), zc)) == Plus(Plus(xa, za), Plus(yb, zb))
  {
  }

  lemma SwapFactors(x: Gf, y: Gf, a: Gf)
    ensures Mul(x, Mul(y, a)) == Mul(y, Mul(x, a))
  {
    MulAssociates(x, y, a);
    MulAssociates(y, x, a);
    MulCommutes(x, y);
  }

  lemma ThreeTerms(a: Gf, x: Gf, b: Gf, y: Gf, c: Gf, z: Gf)
    requires x != y && x != z && y != z
    requires Plus(Plus(a, b), c) == ZERO && Plus(Plus(Mul(x, a), Mul(y, b)), Mul(z, c)) == ZERO
    requires Plus(Plus(Mul(x, Mul(x, a)), Mul(y, Mul(y, b))), Mul(z, Mul(z, c))) == ZERO
    ensures a == ZERO && b == ZERO && c == ZERO
  {
    var u, v := Mul(Plus(x, z), a), Mul(Plus(y, z), b);
    MulZero(z);
    PlusZero(ZERO);
    Eliminate(a, x, b, y, c, z);
    Eliminate(Mul(x, a), x, Mul(y, b), y, Mul(z, c), z);
    SwapFactors(Plus(x, z), x, a);
    SwapFactors(Plus(y, z), y, b);
    TwoTerms(u, x, v, y);
    PlusSame(x, z);
    PlusSame(y, z);
    if a != ZERO { MulNonzero(Plus(x, z), a); }
    if b != ZERO { MulNonzero(Plus(y, z), b); }
    PlusSame(Plus(a, b), c);
  }

  lemma PlacesDiffer(p: nat, q: nat)
    requires p < ORDER && q < ORDER && p != q
    ensures E(p) != E(q)
  {
    if E(p) == E(q) { EInjective(p, q); }
  }

  /** Three errors at different places never cancel. */
  lemma ThreeRemainders(d1: bv8, p1: nat, d2: bv8, p2: nat, d3: bv8, p3: nat, r1: bv30, r2: bv30, r3: bv30)
    requires d1 < 32 && d2 < 32 && d3 < 32 && p1 < p2 < p3 < ORDER
    requires r1 == ErrorRemainder(d1, p1) && r2 == ErrorRemainder(d2, p2) && r3 == ErrorRemainder(d3, p3)
    requires (r1 ^ r2) ^ r3 == 0
    ensures d1 == 0 && d2 == 0 && d3 == 0
  {
    var a, b, c := Amplitude(d1, p1), Amplitude(d2, p2), Amplitude(d3, p3);
    var x, y, z := E(p1), E(p2), E(p3);
    PlacesDiffer(p1, p2);
    PlacesDiffer(p1, p3);
    PlacesDiffer(p2, p3);
    SumOfThree(d1, p1, d2, p2, d3, p3, r1, r2, r3, a, x, b, y, c, z);
    ThreeTerms(a, x, b, y, c, z);
    AmplitudeNonzero(d1, p1);
    AmplitudeNonzero(d2, p2);
    AmplitudeNonzero(d3, p3);
  }

  lemma SumOfThree(d1: bv8, p1: nat, d2: bv8, p2: nat, d3: bv8, p3: nat, r1: bv30, r2: bv30, r3: bv30,
                   a: Gf, x: Gf, b: Gf, y: Gf, c: Gf, z: Gf)
    requires d1 < 32 && d2 < 32 && d3 < 32
    requires r1 == ErrorRemainder(d1, p1) && r2 == ErrorRemainder(d2, p2) && r3 == ErrorRemainder(d3, p3)
    requires a == Amplitude(d1, p1) && b == Amplitude(d2, p2) && c == Amplitude(d3, p3)
    requires x == E(p1) && y == E(p2) && z == E(p3) && (r1 ^ r2) ^ r3 == 0
    ensures Plus(Plus(a, b), c) == ZERO && Plus(Plus(Mul(x, a), Mul(y, b)), Mul(z, c)) == ZERO
    ensures Plus(Plus(Mul(x, Mul(x, a)), Mul(y, Mul(y, b))), Mul(z, Mul(z, c))) == ZERO
  {
    ErrorTerms(d1, p1, r1, a, x);
    ErrorTerms(d2, p2, r2, b, y);
    ErrorTerms(d3, p3, r3, c, z);
    SumOfValues(r1, r2, r3, SyndromeOf(r1), SyndromeOf(r2), SyndromeOf(r3));
  }

  lemma SumOfValues(r1: bv30, r2: bv30, r3: bv30, s: Triple, t: Triple, u: Triple)
    requires s == SyndromeOf(r1) && t == SyndromeOf(r2) && u == SyndromeOf(r3) && (r1 ^ r2) ^ r3 == 0
    ensures PlusT(PlusT(s, t), u) == Triple(ZERO, ZERO, ZERO)
  {
    var r := r1 ^ r2;
    SyndromeXor(r1, r2, r);
    SyndromeXor(r, r3, 0);
    SyndromeZero();
  }

  lemma ZeroError(p: nat)
    ensures ErrorRemainder(0, p) == 0
  {
    if p > 0 { ZeroError(p - 1); }
  }

  lemma ChangeDiffers(hrp: Text, v: seq<bv8>, w: seq<bv8>, i: nat, x: bv8, delta: bv8, p: nat, a: bv30, b: bv30,
                      d: bv30)
    requires i < |v| && w == v[i := x] && delta == v[i] ^ x && p == |v| - 1 - i
    requires a == Fold(1, Coefficients(hrp, v)) && b == Fold(1, Coefficients(hrp, w)) && d == ErrorRemainder(delta, p)
    ensures a ^ b == d
  {
    ChangedChecksum(hrp, v, w, i, x, delta, p);
  }

  /** Changing one value changes the checksum by what depends on difference and place. */
  ghost predicate Tracks(check: seq<bv8> -> bv30, rem: (bv8, nat) -> bv30) {
    forall v: seq<bv8>, i: nat, x: bv8 {:trigger v[i := x]} | i < |v| ::
      check(v) ^ check(v[i := x]) == rem(Xor(v[i], x), |v| - 1 - i)
  }

  lemma ThreeUpdates<T>(v: seq<T>, w: seq<T>, i: nat, j: nat, k: nat) returns (v1: seq<T>, v2: seq<T>)
    requires |v| == |w| && i < j < k < |v| && forall m :: 0 <= m < |v| && m != i && m != j && m != k ==> v[m] == w[m]
    ensures v1 == v[i := w[i]] && v2 == v1[j := w[j]] && w == v2[k := w[k]] && v1[j] == v[j] && v2[k] == v[k]
    ensures v[i] == w[i] && v[j] == w[j] && v[k] == w[k] ==> v == w
  {
    v1 := v[i := w[i]];
    v2 := v1[j := w[j]];
    assert w == v2[k := w[k]];
  }

  /** What three changes leave, taken together, is nothing if the checksum is the same. */
  lemma ThreeChanges(check: seq<bv8> -> bv30, rem: (bv8, nat) -> bv30, v: seq<bv8>, w: seq<bv8>, i: nat, j: nat, k: nat,
                     p1: nat, p2: nat, p3: nat)
    returns (d1: bv8, d2: bv8, d3: bv8, r1: bv30, r2: bv30, r3: bv30)
    requires Tracks(check, rem) && |v| == |w| && Symbols(v) && Symbols(w) && i < j < k < |v|
    requires forall m :: 0 <= m < |v| && m != i && m != j && m != k ==> v[m] == w[m]
    requires p1 == |v| - 1 - i && p2 == |v| - 1 - j && p3 == |v| - 1 - k
    requires check(v) == check(w)
    ensures d1 < 32 && d2 < 32 && d3 < 32 && r1 == rem(d1, p1) && r2 == rem(d2, p2) && r3 == rem(d3, p3)
    ensures (r3 ^ r2) ^ r1 == 0
    ensures d1 == 0 && d2 == 0 && d3 == 0 ==> v == w
  {
    var v1, v2 := ThreeUpdates(v, w, i, j, k);
    var a, b, c, d := check(v), check(v1), check(v2), check(w);
    d1, r1 := OneTracked(check, rem, v, v1, i, w[i], p1, a, b);
    d2, r2 := OneTracked(check, rem, v1, v2, j, w[j], p2, b, c);
    d3, r3 := OneTracked(check, rem, v2, w, k, w[k], p3, c, d);
    Telescope(a, b, c, d, r1, r2, r3);
  }

  lemma OneTracked(check: seq<bv8> -> bv30, rem: (bv8, nat) -> bv30, v: seq<bv8>, w: seq<bv8>, i: nat, x: bv8, p: nat,
                   a: bv30, b: bv30)
    returns (delta: bv8, r: bv30)
    requires Tracks(check, rem) && i < |v| && w == v[i := x] && v[i] < 32 && x < 32 && p == |v| - 1 - i
    requires a == check(v) && b == check(w)
    ensures delta < 32 && r == rem(delta, p) && a ^ b == r && (delta == 0 <==> v[i] == x)
  {
    delta := Xor(v[i], x);
    r := rem(delta, p);
    SmallXor(v[i], x);
  }

  lemma ChecksumTracks(hrp: Text, check: seq<bv8> -> bv30, rem: (bv8, nat) -> bv30)
    requires forall v :: check(v) == Fold(1, Coefficients(hrp, v))
    requires forall d, p :: rem(d, p) == ErrorRemainder(d, p)
    ensures Tracks(check, rem)
  {
    forall v: seq<bv8>, i: nat, x: bv8 | i < |v| ensures check(v) ^ check(v[i := x]) == rem(Xor(v[i], x), |v| - 1 - i) {
      ChangeDiffers(hrp, v, v[i := x], i, x, Xor(v[i], x), |v| - 1 - i, check(v), check(v[i := x]),
          rem(Xor(v[i], x), |v| - 1 - i));
    }
  }

  /** Values that differ, but in no more than three places, have different checksums, if
      there are no more than 1023 of them. */
  lemma ThreeErrorsDetected(hrp: Text, v: seq<bv8>, w: seq<bv8>, i: nat, j: nat, k: nat)
    requires |v| == |w| <= ORDER && Symbols(v) && Symbols(w) && v != w && i < j < k < |v|
    requires forall m :: 0 <= m < |v| && m != i && m != j && m != k ==> v[m] == w[m]
    ensures Fold(1, Coefficients(hrp, v)) != Fold(1, Coefficients(hrp, w))
  {
    var check := (u: seq<bv8>) => Fold(1, Coefficients(hrp, u));
    var rem := (d: bv8, p: nat) => ErrorRemainder(d, p);
    ChecksumTracks(hrp, check, rem);
    if check(v) == check(w) {
      var p1, p2, p3 := |v| - 1 - i, |v| - 1 - j, |v| - 1 - k;
      var d1, d2, d3, r1, r2, r3 := ThreeChanges(check, rem, v, w, i, j, k, p1, p2, p3);
      ThreeRemainders(d3, p3, d2, p2, d1, p1, r3, r2, r1);
    }
  }

  lemma Telescope(a: bv30, b: bv30, c: bv30, d: bv30, x: bv30, y: bv30, z: bv30)
    requires a ^ b == x && b ^ c == y && c ^ d == z && a == d
    ensures (z ^ y) ^ x == 0
  {
  }

  // ----- polynomials over GF(1024), highest coefficient first

  ghost function At(p: seq<Gf>, x: Gf): Gf {
    if |p| == 0 then ZERO else Plus(Mul(x, At(p[..|p| - 1], x)), p[|p| - 1])
  }

  /** p(x) + p(r), divided by x + r. */
  ghost function Quotient(p: seq<Gf>, r: Gf): (q: seq<Gf>)
    ensures |p| > 0 ==> |q| == |p| - 1
  {
    if |p| <= 1 then [] else Quotient(p[..|p| - 1], r) + [At(p[..|p| - 1], r)]
  }

  lemma {:induction false} QuotientDivides(p: seq<Gf>, r: Gf, x: Gf)
    requires |p| > 0
    ensures Plus(At(p, x), At(p, r)) == Mul(Plus(x, r), At(Quotient(p, r), x))
  {
    var n := |p| - 1;
    var p', c := p[..n], p[n];
    if n == 0 {
      assert p' == [];
      MulZero(x);
      MulZero(r);
      MulZero(Plus(x, r));
      PlusZero(Plus(ZERO, c));
    } else {
      QuotientDivides(p', r, x);
      var q := Quotient(p', r);
      assert (q + [At(p', r)])[..n - 1] == q;
      Divided(At(p', x), At(p', r), At(q, x), x, r, c);
    }
  }

  lemma Divided(px: Gf, pr: Gf, qx: Gf, x: Gf, r: Gf, c: Gf)
    requires Plus(px, pr) == Mul(Plus(x, r), qx)
    ensures Plus(Plus(Mul(x, px), c), Plus(Mul(r, pr), c)) == Mul(Plus(x, r), Plus(Mul(x, qx), pr))
  {
    var s := Plus(x, r);
    MulPlus(s, Mul(x, qx), pr);
    SwapFactors(s, x, qx);
    MulPlus(x, px, pr);
    PlusMul(x, r, pr);
    Rearrange(Mul(x, px), Mul(x, pr), Mul(r, pr), c);
  }

  lemma Rearrange(a: Gf, b: Gf, d: Gf, c: Gf)
    ensures Plus(Plus(a, c), Plus(d, c)) == Plus(Plus(a, b), Plus(b, d))
  {
    RearrangeHalf(a.hi, b.hi, d.hi, c.hi);
    RearrangeHalf(a.lo, b.lo, d.lo, c.lo);
  }

  lemma RearrangeHalf(a: bv5, b: bv5, d: bv5, c: bv5)
    ensures (a ^ c) ^ (d ^ c) == (a ^ b) ^ (b ^ d)
  {
  }

  ghost predicate AllZero(p: seq<Gf>) { forall i :: 0 <= i < |p| ==> p[i] == ZERO }

  /** A polynomial with as many roots as coefficients is zero. */
  lemma {:induction false} TooManyRoots(p: seq<Gf>, roots: seq<Gf>)
    requires |p| <= |roots| && (forall i, j :: 0 <= i < j < |roots| ==> roots[i] != roots[j])
    requires forall i :: 0 <= i < |roots| ==> At(p, roots[i]) == ZERO
    ensures AllZero(p)
    decreases |p|
  {
    if |p| > 0 {
      var r, rest, q := roots[0], roots[1..], Quotient(p, roots[0]);
      forall i | 0 <= i < |rest| ensures At(q, rest[i]) == ZERO {
        QuotientDivides(p, r, rest[i]);
        PlusZero(ZERO);
        PlusSame(rest[i], r);
        if At(q, rest[i]) != ZERO { MulNonzero(Plus(rest[i], r), At(q, rest[i])); }
      }
      TooManyRoots(q, rest);
      ZeroQuotient(p, r);
    }
  }

  lemma {:induction false} ZeroQuotient(p: seq<Gf>, r: Gf)
    requires |p| > 0 && AllZero(Quotient(p, r)) && At(p, r) == ZERO
    ensures AllZero(p)
  {
    var n := |p| - 1;
    var p' := p[..n];
    MulZero(r);
    if n == 0 {
      assert p' == [];
    } else {
      var q := Quotient(p', r);
      assert (q + [At(p', r)])[n - 1] == At(p', r);
      forall i | 0 <= i < |q| ensures q[i] == ZERO { assert (q + [At(p', r)])[i] == q[i]; }
      ZeroQuotient(p', r);
    }
    PlusSame(Mul(r, At(p', r)), p[n]);
  }
}
