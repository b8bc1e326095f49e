/**
 What the search for errors finds: the places of one or two errors that explain a remainder,
 if there are any.
 */
module Bech32Search {
  import opened Bech32Algebra
  import opened Bech32Errors
  import opened Bech32Field
  import opened Bech32Kernel
  import opened Bech32Locate
  import opened Bech32Syndrome
  import opened Helpers

  // ----- logarithms

  lemma LogIs(exp: seq<Gf>, log: Gf -> int, v: Gf)
    requires Tables(exp, log) && v != ZERO
    ensures 0 <= log(v) < ORDER && E(log(v)) == v
  {
    var n := LogOf(v);
  }

  lemma ExpIs(exp: seq<Gf>, log: Gf -> int, n: nat, k: nat)
    requires Tables(exp, log) && k == n % ORDER
    ensures exp[k] == E(n) && log(E(n)) == k
  {
    EMod(n);
  }

  /** Looking up v e^p. */
  lemma ShiftedIs(exp: seq<Gf>, log: Gf -> int, v: Gf, p: nat, x: Gf)
    requires Tables(exp, log) && x == E(p)
    ensures Shifted(exp, log, v, p) == Mul(x, v)
  {
    if v == ZERO {
      MulZero(x);
    } else {
      assert 0 <= log(v) && v == E(log(v)) by { LogIs(exp, log, v); }
      ShiftedPower(exp, log, v, p, x, log(v), (log(v) + p) % 1023);
    }
  }

  lemma ShiftedPower(exp: seq<Gf>, log: Gf -> int, v: Gf, p: nat, x: Gf, n: nat, k: nat)
    requires Tables(exp, log) && x == E(p) && v == E(n) && k == (n + p) % ORDER
    ensures exp[k] == Mul(x, v)
  {
    MulPowers(p, n, x, v);
    ExpIs(exp, log, n + p, k);
  }

  /** The logarithm of a quotient. */
  lemma LogQuotient(exp: seq<Gf>, log: Gf -> int, u: Gf, v: Gf, w: Gf, j: nat)
    requires Tables(exp, log) && v == E(j) && j < ORDER && w != ZERO && u == Mul(v, w)
    ensures u != ZERO && (log(u) - log(w) + 1023) % 1023 == j
  {
    var i := LogOf(w);
    LogOfProduct(exp, log, u, w, v, j, i);
    DifferenceBack(i, j, log(u));
  }

  lemma LogOfProduct(exp: seq<Gf>, log: Gf -> int, u: Gf, v: Gf, w: Gf, i: nat, j: nat)
    requires Tables(exp, log) && w == E(i) && v == E(j) && u == Mul(w, v)
    ensures u != ZERO && log(u) == (i + j) % ORDER
  {
    MulPowers(i, j, w, v);
    PowerNonzero(i + j);
    ExpIs(exp, log, i + j, (i + j) % ORDER);
  }

  lemma DifferenceBack(i: int, j: int, k: int)
    requires 0 <= i < 1023 && 0 <= j < 1023 && k == (i + j) % 1023
    ensures (k - i + 1023) % 1023 == j
  {
  }

  lemma PowersBack(u: Gf, w: Gf, x: Gf, i: nat, j: nat, n: nat)
    requires u == E(i) && w == E(j) && x == E(n) && i == (n + j) % ORDER
    ensures u == Mul(x, w)
  {
    MulPowers(n, j, x, w);
    EMod(n + j);
  }

  lemma QuotientBack(exp: seq<Gf>, log: Gf -> int, u: Gf, w: Gf, n: nat)
    requires Tables(exp, log) && u != ZERO && w != ZERO && n == (log(u) - log(w) + 1023) % 1023
    ensures u == Mul(E(n), w)
  {
    LogIs(exp, log, u);
    LogIs(exp, log, w);
    SumBack(log(u), log(w), n);
    PowersBack(u, w, E(n), log(u), log(w), n);
  }

  lemma SumBack(k: int, i: int, n: int)
    requires 0 <= i < 1023 && 0 <= k < 1023 && n == (k - i + 1023) % 1023
    ensures (n + i) % 1023 == k
  {
  }

  // ----- errors by their values

  /** An error `p` places before the end has this value at e^997. */
  ghost predicate IsTerm(a: Gf, p: nat) { exists delta: bv8 :: IsAmplitude(a, p, delta) }

  ghost predicate IsAmplitude(a: Gf, p: nat, delta: bv8) { 0 < delta < 32 && a == Amplitude(delta, p) }

  ghost function Terms(a: Gf, x: Gf): Triple { Triple(a, Mul(x, a), Mul(x, Mul(x, a))) }

  lemma {:induction false} SmallE(t: nat, m: nat)
    requires E(t) == Gf(0, 23)
    ensures E(Exponent(t, m)).hi == 0
    decreases m
  {
    if m > 0 {
      var n := Exponent(t, m - 1);
      SmallE(t, m - 1);
      IterSumAt(t, n, t + n, ONE);
      SmallTimes(t, E(n).lo, E(n));
    }
  }

  lemma MultipleOf33(m: nat, k: nat)
    requires k == 33 * m
    ensures E(k).hi == 0
  {
    OrderPowers();
    SmallE(33, m);
    ExponentIs(33, m);
  }

  lemma SmallTimes(t: nat, c: bv5, v: Gf)
    requires E(t) == Gf(0, 23) && v == Gf(0, c)
    ensures Iter(t, v).hi == 0
  {
    IterIsMul(t, v);
    TimesZero(23);
    ScaleUnits(MulE(v));
    PlusZero(Scale(23, v));
  }

  lemma ByteOf5(c: bv5) returns (delta: bv8)
    requires c != 0
    ensures 0 < delta < 32 && SymbolOf(delta) == c
  {
    delta := c as bv8;
  }

  /** Which values are values of an error, by logarithms. */
  lemma TermByLog(exp: seq<Gf>, log: Gf -> int, a: Gf, p: nat, n: nat)
    requires Tables(exp, log) && a != ZERO && n % 1023 == log(a) && (n + 26 * p) % 33 == 0
    ensures IsTerm(a, p)
  {
    LogIs(exp, log, a);
    var k := n + 26 * p;
    var m := k / 33;
    MultipleOf33(m, k);
    PowerNonzero(k);
    var v := E(k);
    var delta := ByteOf5(v.lo);
    IterSumAt(997 * p, k, 1023 * p + n, ONE);
    EMod(1023 * p + n);
    ModMultiple(p, n);
    assert Amplitude(delta, p) == a by {
      assert v == Gf(0, SymbolOf(delta));
    }
    assert IsAmplitude(a, p, delta);
  }

  lemma ModMultiple(p: nat, n: nat)
    ensures (1023 * p + n) % 1023 == n % 1023
  {
  }

  lemma ErrorLog(delta: bv8) returns (m: nat)
    requires 0 < delta < 32
    ensures E(m) == Gf(0, SymbolOf(delta)) && m % 33 == 0
  {
    assert SymbolOf(delta) != 0;
    SmallPower(SymbolOf(delta));
    m := 99 * Log32(SymbolOf(delta));
  }

  lemma LogOfTerm(exp: seq<Gf>, log: Gf -> int, a: Gf, p: nat)
    requires Tables(exp, log) && IsTerm(a, p)
    ensures a != ZERO && 0 <= log(a) < ORDER && (log(a) + 26 * p) % 33 == 0
  {
    var delta: bv8 :| IsAmplitude(a, p, delta);
    AmplitudeNonzero(delta, p);
    var m := ErrorLog(delta);
    TermLog(exp, log, a, p, Gf(0, SymbolOf(delta)), 997 * p, m, 997 * p + m);
  }

  lemma TermLog(exp: seq<Gf>, log: Gf -> int, a: Gf, p: nat, v: Gf, n: nat, m: nat, t: nat)
    requires Tables(exp, log) && n == 997 * p && t == n + m && a == Iter(n, v) && v == E(m) && m % 33 == 0 && a != ZERO
    ensures 0 <= log(a) < ORDER && (log(a) + 26 * p) % 33 == 0
  {
    IterSumAt(n, m, t, ONE);
    ExpIs(exp, log, t, t % ORDER);
    TermMod(p, m, log(a));
  }

  lemma Multiple33(x: int, k: int)
    requires x == 33 * k
    ensures x % 33 == 0
  {
  }

  lemma TermMod(p: nat, m: nat, l: int)
    requires m % 33 == 0 && l == (997 * p + m) % 1023
    ensures (l + 26 * p) % 33 == 0
  {
    var q, k := (997 * p + m) / 1023, m / 33;
    assert l == 997 * p + m - 1023 * q && m == 33 * k;
    Multiple33(l + 26 * p, 31 * (p - q) + k);
  }

  // ----- one error

  lemma SingleComplete(exp: seq<Gf>, log: Gf -> int, s: Triple, a: Gf, x: Gf, p: nat, length: nat, size: nat, i: int)
    requires Tables(exp, log) && IsTerm(a, p) && x == E(p) && p < length <= ORDER && i == size - 1 - p
    requires s.s0 == a && s.s1 == Mul(x, a) && s.s2 == Mul(x, s.s1)
    ensures LooksSingle(log, s) && OneError(log, s, length, size) == [i]
  {
    LogsOfTerms(exp, log, s.s0, s.s1, s.s2, x, p);
    SingleByLogs(log, s, p, length, size, i);
  }

  lemma LogsOfTerms(exp: seq<Gf>, log: Gf -> int, a: Gf, b: Gf, c: Gf, x: Gf, p: nat)
    requires Tables(exp, log) && IsTerm(a, p) && p < ORDER && x == E(p) && b == Mul(x, a) && c == Mul(x, b)
    ensures log(a) != -1 && log(b) != -1 && log(c) != -1 && (log(a) + 26 * p) % 33 == 0
    ensures (log(b) - log(a) + 1023) % 1023 == p && (log(c) - log(b) + 1023) % 1023 == p
  {
    assert a != ZERO && 0 <= log(a) && (log(a) + 26 * p) % 33 == 0 by { LogOfTerm(exp, log, a, p); }
    LogsOfPowers(exp, log, a, b, c, x, p);
  }

  lemma LogsOfPowers(exp: seq<Gf>, log: Gf -> int, a: Gf, b: Gf, c: Gf, x: Gf, p: nat)
    requires Tables(exp, log) && a != ZERO && x == E(p) && b == Mul(x, a) && c == Mul(x, b) && p < ORDER
    ensures log(b) != -1 && log(c) != -1
    ensures (log(b) - log(a) + 1023) % 1023 == p && (log(c) - log(b) + 1023) % 1023 == p
  {
    LogQuotient(exp, log, b, x, a, p);
    LogQuotient(exp, log, c, x, b, p);
  }

  lemma SingleByLogs(log: Gf -> int, s: Triple, p: nat, length: nat, size: nat, i: int)
    requires log(s.s0) != -1 && log(s.s1) != -1 && log(s.s2) != -1 && (log(s.s0) + 26 * p) % 33 == 0 && p < length
    requires (log(s.s1) - log(s.s0) + 1023) % 1023 == p && (log(s.s2) - log(s.s1) + 1023) % 1023 == p
    requires i == size - 1 - p
    ensures LooksSingle(log, s) && OneError(log, s, length, size) == [i]
  {
    LogsInStep(log(s.s0), log(s.s1), log(s.s2), p);
  }

  lemma LogsInStep(l0: int, l1: int, l2: int, p: nat)
    requires (l1 - l0 + 1023) % 1023 == p && (l2 - l1 + 1023) % 1023 == p
    ensures (2 * l1 - l2 - l0 + 2046) % 1023 == 0
  {
    var q, r := (l1 - l0 + 1023) / 1023, (l2 - l1 + 1023) / 1023;
    assert 2 * l1 - l2 - l0 + 2046 == 1023 * (q - r + 2);
  }

  lemma StepsAgree(l0: int, l1: int, l2: int, p: nat)
    requires (l1 - l0 + 1023) % 1023 == p && (2 * l1 - l2 - l0 + 2046) % 1023 == 0
    ensures (l2 - l1 + 1023) % 1023 == p
  {
    var q, r := (l1 - l0 + 1023) / 1023, (2 * l1 - l2 - l0 + 2046) / 1023;
    assert l2 - l1 + 1023 == p + 1023 * (q - r + 2);
  }

  /** What passes for a single error is one, if its place and value are possible. */
  lemma SingleSteps(exp: seq<Gf>, log: Gf -> int, s: Triple, p: nat)
    requires Tables(exp, log) && LooksSingle(log, s) && p == (log(s.s1) - log(s.s0) + 1023) % 1023
    ensures s.s0 != ZERO && s.s1 != ZERO && s.s2 != ZERO && s == Terms(s.s0, E(p))
  {
    SingleNumbers(log, s, p);
    StepsBack(exp, log, s.s0, s.s1, s.s2, p, E(p));
    TermsAre(s, E(p));
  }

  lemma StepsBack(exp: seq<Gf>, log: Gf -> int, a: Gf, b: Gf, c: Gf, p: nat, x: Gf)
    requires Tables(exp, log) && log(a) != -1 && log(b) != -1 && log(c) != -1 && x == E(p)
    requires p == (log(b) - log(a) + 1023) % 1023 && p == (log(c) - log(b) + 1023) % 1023
    ensures a != ZERO && b != ZERO && c != ZERO && b == Mul(x, a) && c == Mul(x, b)
  {
    QuotientBack(exp, log, b, a, p);
    QuotientBack(exp, log, c, b, p);
  }

  lemma TermsAre(s: Triple, x: Gf)
    requires s.s1 == Mul(x, s.s0) && s.s2 == Mul(x, s.s1)
    ensures s == Terms(s.s0, x)
  {
  }

  lemma SingleNumbers(log: Gf -> int, s: Triple, p: nat)
    requires LooksSingle(log, s) && p == (log(s.s1) - log(s.s0) + 1023) % 1023
    ensures log(s.s0) != -1 && log(s.s1) != -1 && log(s.s2) != -1 && p == (log(s.s2) - log(s.s1) + 1023) % 1023
  {
    StepsAgree(log(s.s0), log(s.s1), log(s.s2), p);
  }

  lemma SingleSound(exp: seq<Gf>, log: Gf -> int, s: Triple, length: nat, size: nat) returns (p: nat)
    requires Tables(exp, log) && LooksSingle(log, s) && OneError(log, s, length, size) != [] && length <= ORDER
    ensures p < length && IsTerm(s.s0, p) && s == Terms(s.s0, E(p)) && OneError(log, s, length, size) == [size - p - 1]
  {
    p := (log(s.s1) - log(s.s0) + 1023) % 1023;
    SinglePlace(log, s, length, size, p);
    SingleTerm(exp, log, s.s0, p);
    SingleSteps(exp, log, s, p);
  }

  lemma SingleTerm(exp: seq<Gf>, log: Gf -> int, a: Gf, p: nat)
    requires Tables(exp, log) && log(a) != -1 && (log(a) + 26 * p) % 33 == 0
    ensures IsTerm(a, p)
  {
    LogIs(exp, log, a);
    TermByLog(exp, log, a, p, log(a));
  }

  lemma SinglePlace(log: Gf -> int, s: Triple, length: nat, size: nat, p: nat)
    requires OneError(log, s, length, size) != [] && p == (log(s.s1) - log(s.s0) + 1023) % 1023
    ensures p < length && (log(s.s0) + 26 * p) % 33 == 0 && OneError(log, s, length, size) == [size - p - 1]
  {
  }

  // ----- two errors

  lemma EliminateOne(a: Gf, x: Gf, b: Gf, y: Gf, z: Gf)
    ensures Plus(Plus(Mul(x, a), Mul(y, b)), Mul(z, Plus(a, b))) == Plus(Mul(Plus(x, z), a), Mul(Plus(y, z), b))
  {
    MulPlus(z, a, b);
    PlusMul(x, z, a);
    PlusMul(y, z, b);
    Exchange(Mul(x, a), Mul(y, b), Mul(z, a), Mul(z, b));
  }

  /** Taking the first of two errors away leaves a multiple of the second. */
  lemma LeaveSecond(a: Gf, x: Gf, b: Gf, y: Gf)
    ensures Plus(Plus(Mul(x, a), Mul(y, b)), Mul(x, Plus(a, b))) == Mul(Plus(y, x), b)
  {
    EliminateOne(a, x, b, y, x);
    PlusZero(x);
    MulZero(a);
    PlusSame(ZERO, Mul(Plus(y, x), b));
    PlusZero(Mul(Plus(y, x), b));
  }

  /** Two errors never pass for one. */
  lemma PairNotSingle(exp: seq<Gf>, log: Gf -> int, s: Triple, a: Gf, x: Gf, b: Gf, y: Gf)
    requires Tables(exp, log) && a != ZERO && b != ZERO && x != y && s == PlusT(Terms(a, x), Terms(b, y))
    ensures !LooksSingle(log, s)
  {
    if LooksSingle(log, s) {
      var p := (log(s.s1) - log(s.s0) + 1023) % 1023;
      SingleSteps(exp, log, s, p);
      OneOfTwo(a, x, b, y, E(p));
    }
  }

  lemma OneOfTwo(a: Gf, x: Gf, b: Gf, y: Gf, z: Gf)
    requires x != y && Plus(Mul(x, a), Mul(y, b)) == Mul(z, Plus(a, b))
    requires Plus(Mul(x, Mul(x, a)), Mul(y, Mul(y, b))) == Mul(z, Plus(Mul(x, a), Mul(y, b)))
    ensures a == ZERO || b == ZERO
  {
    var u, v := Mul(Plus(x, z), a), Mul(Plus(y, z), b);
    EliminateOne(a, x, b, y, z);
    EliminateOne(Mul(x, a), x, Mul(y, b), y, z);
    PlusSame(Mul(z, Plus(a, b)), Mul(z, Plus(a, b)));
    PlusSame(Mul(z, Plus(Mul(x, a), Mul(y, b))), Mul(z, Plus(Mul(x, a), Mul(y, b))));
    SwapFactors(Plus(x, z), x, a);
    SwapFactors(Plus(y, z), y, b);
    TwoTerms(u, x, v, y);
    PlusSame(x, z);
    PlusSame(y, z);
    if a != ZERO && b != ZERO {
      if x != z { MulNonzero(Plus(x, z), a); } else { MulNonzero(Plus(y, z), b); }
    }
  }

  // ----- the search for a pair

  /** What TryPair looks at: a, b and d are s2 + x s1, s1 + x s0 and s1 + y s0. */
  ghost predicate Solves(s: Triple, x: Gf, y: Gf, a: Gf, b: Gf, u: Gf, v: Gf, w: Gf) {
    && u == Plus(s.s2, Mul(x, s.s1)) && v == Plus(s.s1, Mul(x, s.s0)) && w == Plus(s.s1, Mul(y, s.s0))
    && u == Mul(y, v) && v == Mul(Plus(x, y), b) && w == Mul(Plus(x, y), a)
  }

  /** Two errors give what TryPair looks for. */
  lemma PairSolves(s: Triple, a: Gf, x: Gf, b: Gf, y: Gf) returns (u: Gf, v: Gf, w: Gf)
    requires s == PlusT(Terms(a, x), Terms(b, y))
    ensures Solves(s, x, y, a, b, u, v, w)
  {
    u, v, w := Plus(s.s2, Mul(x, s.s1)), Plus(s.s1, Mul(x, s.s0)), Plus(s.s1, Mul(y, s.s0));
    LeaveSecond(a, x, b, y);
    LeaveSecond(Mul(x, a), x, Mul(y, b), y);
    LeaveSecond(b, y, a, x);
    PlusSame(x, y);
    PlusSame(a, b);
    PlusSame(Mul(x, a), Mul(y, b));
    SwapFactors(Plus(y, x), y, b);
  }

  /** And what TryPair finds are two errors that give the three values. */
  lemma SolvesPair(s: Triple, x: Gf, y: Gf, a: Gf, b: Gf, u: Gf, v: Gf, w: Gf)
    requires Solves(s, x, y, a, b, u, v, w) && x != y
    ensures s == PlusT(Terms(a, x), Terms(b, y))
  {
    FirstValue(s.s0, s.s1, x, y, a, b, v, w);
    SecondValue(s.s0, s.s1, x, y, a, b, v);
    ThirdValue(s.s1, s.s2, x, y, a, b, u, v);
  }

  lemma FirstValue(s0: Gf, s1: Gf, x: Gf, y: Gf, a: Gf, b: Gf, v: Gf, w: Gf)
    requires v == Plus(s1, Mul(x, s0)) && w == Plus(s1, Mul(y, s0)) && x != y
    requires v == Mul(Plus(x, y), b) && w == Mul(Plus(x, y), a)
    ensures s0 == Plus(a, b)
  {
    var z := Plus(x, y);
    PlusSame(x, y);
    MulPlus(z, a, b);
    PlusMul(x, y, s0);
    Common(s1, Mul(x, s0), Mul(y, s0));
    PlusSame(w, v);
    MulCancel(z, s0, Plus(a, b));
  }

  lemma Common(s: Gf, p: Gf, q: Gf)
    ensures Plus(Plus(s, q), Plus(s, p)) == Plus(p, q)
  {
  }

  lemma SecondValue(s0: Gf, s1: Gf, x: Gf, y: Gf, a: Gf, b: Gf, v: Gf)
    requires v == Plus(s1, Mul(x, s0)) && v == Mul(Plus(x, y), b) && s0 == Plus(a, b)
    ensures s1 == Plus(Mul(x, a), Mul(y, b))
  {
    MulPlus(x, a, b);
    PlusMul(x, y, b);
    MoveOver(s1, Mul(x, a), Mul(x, b), Mul(y, b));
  }

  lemma MoveOver(s: Gf, xa: Gf, xb: Gf, yb: Gf)
    requires Plus(s, Plus(xa, xb)) == Plus(xb, yb)
    ensures s == Plus(xa, yb)
  {
  }

  lemma ThirdValue(s1: Gf, s2: Gf, x: Gf, y: Gf, a: Gf, b: Gf, u: Gf, v: Gf)
    requires u == Plus(s2, Mul(x, s1)) && u == Mul(y, v) && v == Mul(Plus(x, y), b) && s1 == Plus(Mul(x, a), Mul(y, b))
    ensures s2 == Plus(Mul(x, Mul(x, a)), Mul(y, Mul(y, b)))
  {
    PlusMul(x, y, b);
    MulPlus(y, Mul(x, b), Mul(y, b));
    MulPlus(x, Mul(x, a), Mul(y, b));
    SwapFactors(x, y, b);
    MoveOver(s2, Mul(x, Mul(x, a)), Mul(x, Mul(y, b)), Mul(y, Mul(y, b)));
  }

  /** TryPair, in terms of the field. */
  lemma TrySecondIs(exp: seq<Gf>, log: Gf -> int, s: Triple, length: nat, size: nat, p: nat, v: Gf, q: nat)
    requires Tables(exp, log) && p < length <= ORDER
    ensures TrySecond(exp, log, s, length, size, p, v, q) ==
            if q >= length || p == q then None else
              CheckPair(log, v, Plus(s.s1, Mul(E(q), s.s0)), Plus(E(p), E(q)), p, q, size)
  {
    ShiftedIs(exp, log, s.s0, q, E(q));
  }

  lemma TryFirstOf(exp: seq<Gf>, log: Gf -> int, s: Triple, length: nat, size: nat, p: nat, m0: Gf, m1: Gf, u: Gf,
                   v: Gf, q: nat)
    requires |exp| == ORDER && p < length <= ORDER
    requires m0 == Shifted(exp, log, s.s0, p) && m1 == Shifted(exp, log, s.s1, p)
    requires u == Plus(s.s2, m1) && v == Plus(s.s1, m0) && q == (log(u) - log(v) + 1023) % 1023
    ensures TryPair(exp, log, s, length, size, p) ==
            if u == ZERO || v == ZERO then None else TrySecond(exp, log, s, length, size, p, v, q)
  {
  }

  lemma TryFirstIs(exp: seq<Gf>, log: Gf -> int, s: Triple, length: nat, size: nat, p: nat, x: Gf, u: Gf, v: Gf, q: nat)
    requires Tables(exp, log) && p < length <= ORDER && x == E(p) && q == (log(u) - log(v) + 1023) % 1023
    requires u == Plus(s.s2, Mul(x, s.s1)) && v == Plus(s.s1, Mul(x, s.s0))
    ensures TryPair(exp, log, s, length, size, p) ==
            if u == ZERO || v == ZERO then None else TrySecond(exp, log, s, length, size, p, v, q)
  {
    ShiftedIs(exp, log, s.s1, p, x);
    ShiftedIs(exp, log, s.s0, p, x);
    TryFirstOf(exp, log, s, length, size, p, Mul(x, s.s0), Mul(x, s.s1), u, v, q);
  }

  lemma TryPairIs(exp: seq<Gf>, log: Gf -> int, s: Triple, length: nat, size: nat, p: nat, u: Gf, v: Gf)
    requires Tables(exp, log) && p < length <= ORDER && u == Plus(s.s2, Mul(E(p), s.s1)) &&
             v == Plus(s.s1, Mul(E(p), s.s0))
    ensures TryPair(exp, log, s, length, size, p) ==
            if u == ZERO || v == ZERO then None else
              var q := (log(u) - log(v) + 1023) % 1023;
              if q >= length || p == q then None else
                CheckPair(log, v, Plus(s.s1, Mul(E(q), s.s0)), Plus(E(p), E(q)), p, q, size)
  {
    var q := (log(u) - log(v) + 1023) % 1023;
    TryFirstIs(exp, log, s, length, size, p, E(p), u, v, q);
    if u != ZERO && v != ZERO { TrySecondIs(exp, log, s, length, size, p, v, q); }
  }

  lemma SumTerm(lv: int, lz: int, lb: int, q: nat)
    requires (lv - lz + 1023) % 1023 == lb && (lb + 26 * q) % 33 == 0
    ensures (lv + (1023 - lz) + 26 * q) % 33 == 0
  {
    var k := (lv - lz + 1023) / 1023;
    assert lv + (1023 - lz) + 26 * q == (lb + 26 * q) + 33 * (31 * k);
  }

  /** A value divided by the sum of the places: the condition on its logarithm. */
  lemma DividedLog(exp: seq<Gf>, log: Gf -> int, v: Gf, z: Gf, b: Gf, q: nat)
    requires Tables(exp, log) && z != ZERO && v == Mul(z, b) && IsTerm(b, q)
    ensures v != ZERO && (log(v) + (1023 - log(z)) + 26 * q) % 33 == 0
  {
    assert b != ZERO && 0 <= log(b) && (log(b) + 26 * q) % 33 == 0 by { LogOfTerm(exp, log, b, q); }
    LogOfFactor(exp, log, v, z, b);
    SumTerm(log(v), log(z), log(b), q);
  }

  lemma LogOfFactor(exp: seq<Gf>, log: Gf -> int, v: Gf, z: Gf, b: Gf)
    requires Tables(exp, log) && z != ZERO && b != ZERO && v == Mul(z, b)
    ensures v != ZERO && (log(v) - log(z) + 1023) % 1023 == log(b)
  {
    var j := LogOf(b);
    MulCommutes(z, b);
    LogQuotient(exp, log, v, b, z, j);
  }

  lemma CheckPasses(exp: seq<Gf>, log: Gf -> int, x: Gf, y: Gf, a: Gf, b: Gf, v: Gf, w: Gf, p: nat, q: nat, size: nat)
    requires Tables(exp, log) && x != y && v == Mul(Plus(x, y), b) && w == Mul(Plus(x, y), a) && IsTerm(a, p) &&
             IsTerm(b, q)
    ensures v != ZERO && CheckPair(log, v, w, Plus(x, y), p, q, size) == Some(InOrder(p, q, size))
  {
    PlusSame(x, y);
    CheckBoth(exp, log, Plus(x, y), a, b, v, w, p, q, size);
  }

  lemma CheckBoth(exp: seq<Gf>, log: Gf -> int, z: Gf, a: Gf, b: Gf, v: Gf, w: Gf, p: nat, q: nat, size: nat)
    requires Tables(exp, log) && z != ZERO && v == Mul(z, b) && w == Mul(z, a) && IsTerm(a, p) && IsTerm(b, q)
    ensures v != ZERO && CheckPair(log, v, w, z, p, q, size) == Some(InOrder(p, q, size))
  {
    assert v != ZERO && (log(v) + (1023 - log(z)) + 26 * q) % 33 == 0 by { DividedLog(exp, log, v, z, b, q); }
    assert w != ZERO && (log(w) + (1023 - log(z)) + 26 * p) % 33 == 0 by { DividedLog(exp, log, w, z, a, p); }
    CheckByLogs(log, v, w, z, p, q, size);
  }

  lemma CheckByLogs(log: Gf -> int, v: Gf, w: Gf, z: Gf, p: nat, q: nat, size: nat)
    requires w != ZERO && (log(v) + (1023 - log(z)) + 26 * q) % 33 == 0 && (log(w) + (1023 - log(z)) + 26 * p) % 33 == 0
    ensures CheckPair(log, v, w, z, p, q, size) == Some(InOrder(p, q, size))
  {
  }

  /** The pair is found from its first place. */
  lemma TryPairComplete(exp: seq<Gf>, log: Gf -> int, s: Triple, length: nat, size: nat, p: nat, q: nat, a: Gf, b: Gf)
    requires Tables(exp, log) && p < length <= ORDER && q < length && p != q && IsTerm(a, p) && IsTerm(b, q)
    requires s == PlusT(Terms(a, E(p)), Terms(b, E(q)))
    ensures TryPair(exp, log, s, length, size, p) == Some(InOrder(p, q, size))
  {
    var x, y := E(p), E(q);
    var u, v, w := PairSolves(s, a, x, b, y);
    PlacesDiffer(p, q);
    CheckPasses(exp, log, x, y, a, b, v, w, p, q, size);
    LogQuotient(exp, log, u, y, v, q);
    TryPairIs(exp, log, s, length, size, p, u, v);
  }

  lemma DividedTerm(exp: seq<Gf>, log: Gf -> int, v: Gf, z: Gf, q: nat) returns (b: Gf)
    requires Tables(exp, log) && v != ZERO && z != ZERO && (log(v) + (1023 - log(z)) + 26 * q) % 33 == 0
    ensures IsTerm(b, q) && v == Mul(z, b)
  {
    var k := log(v) - log(z) + 1023;
    b := Quotient1024(exp, log, v, z, k % 1023);
    assert 0 <= log(v) && log(z) < 1023 by {
      LogIs(exp, log, v);
      LogIs(exp, log, z);
    }
    TermByLog(exp, log, b, q, k);
  }

  lemma Quotient1024(exp: seq<Gf>, log: Gf -> int, v: Gf, z: Gf, n: nat) returns (b: Gf)
    requires Tables(exp, log) && v != ZERO && z != ZERO && n == (log(v) - log(z) + 1023) % 1023
    ensures b != ZERO && log(b) == n && v == Mul(z, b)
  {
    b := E(n);
    QuotientBack(exp, log, v, z, n);
    MulCommutes(z, b);
    PowerNonzero(n);
  }

  /** Whatever pair is found explains the three values. */
  lemma TryPairSound(exp: seq<Gf>, log: Gf -> int, s: Triple, length: nat, size: nat, p: nat)
    returns (q: nat, a: Gf, b: Gf)
    requires Tables(exp, log) && p < length <= ORDER && TryPair(exp, log, s, length, size, p).Some?
    ensures q < length && p != q && IsTerm(a, p) && IsTerm(b, q) && s == PlusT(Terms(a, E(p)), Terms(b, E(q)))
    ensures TryPair(exp, log, s, length, size, p) == Some(InOrder(p, q, size))
  {
    var x := E(p);
    var u, v := Plus(s.s2, Mul(x, s.s1)), Plus(s.s1, Mul(x, s.s0));
    TryPairIs(exp, log, s, length, size, p, u, v);
    q := (log(u) - log(v) + 1023) % 1023;
    PlacesDiffer(p, q);
    a, b := FoundPair(exp, log, s, size, p, q, x, E(q), u, v, Plus(s.s1, Mul(E(q), s.s0)));
  }

  lemma FoundPair(exp: seq<Gf>, log: Gf -> int, s: Triple, size: nat, p: nat, q: nat, x: Gf, y: Gf, u: Gf, v: Gf, w: Gf)
    returns (a: Gf, b: Gf)
    requires Tables(exp, log) && x != y && u != ZERO && v != ZERO && y == E(q)
    requires u == Plus(s.s2, Mul(x, s.s1)) && v == Plus(s.s1, Mul(x, s.s0)) && w == Plus(s.s1, Mul(y, s.s0))
    requires q == (log(u) - log(v) + 1023) % 1023 && CheckPair(log, v, w, Plus(x, y), p, q, size).Some?
    ensures IsTerm(a, p) && IsTerm(b, q) && s == PlusT(Terms(a, x), Terms(b, y))
  {
    PlusSame(x, y);
    a, b := BothTerms(exp, log, Plus(x, y), v, w, p, q, size);
    assert u == Mul(y, v) by { QuotientBack(exp, log, u, v, q); }
    SolvesPair(s, x, y, a, b, u, v, w);
  }

  lemma CheckPairSome(log: Gf -> int, b: Gf, d: Gf, sum: Gf, p: nat, q: nat, size: nat)
    requires CheckPair(log, b, d, sum, p, q, size).Some?
    ensures d != ZERO && (log(b) + (1023 - log(sum)) + 26 * q) % 33 == 0 &&
            (log(d) + (1023 - log(sum)) + 26 * p) % 33 == 0
  {
  }

  lemma BothTerms(exp: seq<Gf>, log: Gf -> int, z: Gf, v: Gf, w: Gf, p: nat, q: nat, size: nat) returns (a: Gf, b: Gf)
    requires Tables(exp, log) && z != ZERO && v != ZERO && CheckPair(log, v, w, z, p, q, size).Some?
    ensures IsTerm(a, p) && IsTerm(b, q) && v == Mul(z, b) && w == Mul(z, a)
  {
    CheckPairSome(log, v, w, z, p, q, size);
    b := DividedTerm(exp, log, v, z, q);
    a := DividedTerm(exp, log, w, z, p);
  }

  lemma {:induction false} TwoErrorsIs(exp: seq<Gf>, log: Gf -> int, s: Triple, length: nat, size: nat, start: nat)
    requires |exp| == ORDER && start <= length <= ORDER
    ensures var r := TwoErrors(exp, log, s, length, size, start);
            && (r != [] ==> exists p :: start <= p < length && TryPair(exp, log, s, length, size, p) == Some(r))
            && (r == [] ==> forall p :: start <= p < length ==> 
                  TryPair(exp, log, s, length, size, p) in {None, Some([])})
    decreases length - start
  {
    if start < length {
      var pair := TryPair(exp, log, s, length, size, start);
      if pair.None? { TwoErrorsIs(exp, log, s, length, size, start + 1); }
    }
  }

  // ----- what explains a remainder

  ghost predicate IsOne(d: bv30, p: nat, delta: bv8) { 0 < delta < 32 && d == ErrorRemainder(delta, p) }

  /** One error, `p` places before the end. */
  ghost predicate OneOff(d: bv30, p: nat) { exists delta: bv8 :: IsOne(d, p, delta) }

  ghost predicate IsTwo(d: bv30, p: nat, q: nat, delta: bv8, eps: bv8) {
    0 < delta < 32 && 0 < eps < 32 && d == ErrorRemainder(delta, p) ^ ErrorRemainder(eps, q)
  }

  /** Two errors, `p` and `q` places before the end. */
  ghost predicate TwoOff(d: bv30, p: nat, q: nat) {
    p != q && exists delta: bv8, eps: bv8 :: IsTwo(d, p, q, delta, eps)
  }

  lemma OneHasTerms(d: bv30, p: nat) returns (a: Gf)
    requires OneOff(d, p)
    ensures IsTerm(a, p) && SyndromeOf(d) == Terms(a, E(p))
  {
    var delta: bv8 :| IsOne(d, p, delta);
    a := Amplitude(delta, p);
    ErrorTerms(delta, p, d, a, E(p));
    assert IsAmplitude(a, p, delta);
  }

  lemma TermsAreOne(d: bv30, p: nat, a: Gf)
    requires IsTerm(a, p) && SyndromeOf(d) == Terms(a, E(p))
    ensures OneOff(d, p)
  {
    var delta: bv8 :| IsAmplitude(a, p, delta);
    var r := ErrorRemainder(delta, p);
    ErrorTerms(delta, p, r, a, E(p));
    SyndromeInjective(d, r, Terms(a, E(p)));
    assert IsOne(d, p, delta);
  }

  lemma TwoHaveTerms(d: bv30, p: nat, q: nat) returns (a: Gf, b: Gf)
    requires TwoOff(d, p, q)
    ensures IsTerm(a, p) && IsTerm(b, q) && SyndromeOf(d) == PlusT(Terms(a, E(p)), Terms(b, E(q)))
  {
    var delta: bv8, eps: bv8 :| IsTwo(d, p, q, delta, eps);
    a, b := Amplitude(delta, p), Amplitude(eps, q);
    SumTerms(d, p, q, delta, eps, a, b, ErrorRemainder(delta, p), ErrorRemainder(eps, q));
    assert IsAmplitude(a, p, delta) && IsAmplitude(b, q, eps);
  }

  lemma SumTerms(d: bv30, p: nat, q: nat, delta: bv8, eps: bv8, a: Gf, b: Gf, r: bv30, t: bv30)
    requires delta < 32 && eps < 32 && r == ErrorRemainder(delta, p) && t == ErrorRemainder(eps, q) && d == r ^ t
    requires a == Amplitude(delta, p) && b == Amplitude(eps, q)
    ensures SyndromeOf(d) == PlusT(Terms(a, E(p)), Terms(b, E(q)))
  {
    ErrorTerms(delta, p, r, a, E(p));
    ErrorTerms(eps, q, t, b, E(q));
    SyndromeXor(r, t, d);
  }

  lemma TermsAreTwo(d: bv30, p: nat, q: nat, a: Gf, b: Gf)
    requires p != q && IsTerm(a, p) && IsTerm(b, q) && SyndromeOf(d) == PlusT(Terms(a, E(p)), Terms(b, E(q)))
    ensures TwoOff(d, p, q)
  {
    var delta: bv8 :| IsAmplitude(a, p, delta);
    var eps: bv8 :| IsAmplitude(b, q, eps);
    var r, t := ErrorRemainder(delta, p), ErrorRemainder(eps, q);
    SumTerms(r ^ t, p, q, delta, eps, a, b, r, t);
    SyndromeInjective(d, r ^ t, SyndromeOf(d));
    assert IsTwo(d, p, q, delta, eps);
  }

  /** One error within the length is found, and nothing else. */
  lemma OneFound(exp: seq<Gf>, log: Gf -> int, d: bv30, s: Triple, length: nat, size: nat, p: nat, i: int)
    requires Tables(exp, log) && s == SyndromeOf(d) && p < length <= ORDER && OneOff(d, p) && i == size - 1 - p
    ensures PossibleErrors(exp, log, s, length, size) == [i]
  {
    var a := OneHasTerms(d, p);
    SingleComplete(exp, log, s, a, E(p), p, length, size, i);
  }

  lemma TwoNotSingle(exp: seq<Gf>, log: Gf -> int, s: Triple, a: Gf, b: Gf, p: nat, q: nat)
    requires Tables(exp, log) && p < ORDER && q < ORDER && p != q && IsTerm(a, p) && IsTerm(b, q)
    requires s == PlusT(Terms(a, E(p)), Terms(b, E(q)))
    ensures !LooksSingle(log, s)
  {
    PlacesDiffer(p, q);
    LogOfTerm(exp, log, a, p);
    LogOfTerm(exp, log, b, q);
    PairNotSingle(exp, log, s, a, E(p), b, E(q));
  }

  /** With two errors within the length, two places are found. */
  lemma TwoFound(exp: seq<Gf>, log: Gf -> int, d: bv30, s: Triple, length: nat, size: nat, p: nat, q: nat)
    requires Tables(exp, log) && s == SyndromeOf(d) && p < length <= ORDER && q < length && TwoOff(d, p, q)
    ensures !LooksSingle(log, s) && PossibleErrors(exp, log, s, length, size) != []
  {
    var a, b := TwoHaveTerms(d, p, q);
    TwoNotSingle(exp, log, s, a, b, p, q);
    TryPairComplete(exp, log, s, length, size, p, q, a, b);
    TwoErrorsIs(exp, log, s, length, size, 0);
  }

  lemma SingleExplains(exp: seq<Gf>, log: Gf -> int, d: bv30, s: Triple, length: nat, size: nat) returns (p: nat)
    requires Tables(exp, log) && s == SyndromeOf(d) && length <= ORDER && LooksSingle(log, s) &&
             OneError(log, s, length, size) != []
    ensures p < length && OneOff(d, p) && OneError(log, s, length, size) == [size - p - 1]
  {
    p := SingleSound(exp, log, s, length, size);
    TermsAreOne(d, p, s.s0);
  }

  lemma PairExplains(exp: seq<Gf>, log: Gf -> int, d: bv30, s: Triple, length: nat, size: nat, p: nat) returns (q: nat)
    requires Tables(exp, log) && s == SyndromeOf(d) && p < length <= ORDER &&
             TryPair(exp, log, s, length, size, p).Some?
    ensures q < length && TwoOff(d, p, q) && TryPair(exp, log, s, length, size, p) == Some(InOrder(p, q, size))
  {
    var a, b;
    q, a, b := TryPairSound(exp, log, s, length, size, p);
    TermsAreTwo(d, p, q, a, b);
  }

  lemma FoundPairExplains(exp: seq<Gf>, log: Gf -> int, d: bv30, s: Triple, length: nat, size: nat, r: seq<int>)
    returns (p: nat, q: nat)
    requires Tables(exp, log) && s == SyndromeOf(d) && length <= ORDER
    requires r == TwoErrors(exp, log, s, length, size, 0) && r != []
    ensures p < length && q < length && TwoOff(d, p, q) && r == InOrder(p, q, size)
  {
    TwoErrorsIs(exp, log, s, length, size, 0);
    p :| 0 <= p < length && TryPair(exp, log, s, length, size, p) == Some(r);
    q := PairExplains(exp, log, d, s, length, size, p);
  }

  /** Places that are found explain the remainder. */
  lemma FoundExplains(exp: seq<Gf>, log: Gf -> int, d: bv30, s: Triple, length: nat, size: nat, r: seq<int>)
    returns (p: nat, q: nat)
    requires Tables(exp, log) && s == SyndromeOf(d) && length <= ORDER
    requires r == PossibleErrors(exp, log, s, length, size) && r != []
    ensures || (p < length && OneOff(d, p) && r == [size - p - 1])
            || (p < length && q < length && TwoOff(d, p, q) && r == InOrder(p, q, size))
  {
    if LooksSingle(log, s) {
      p := SingleExplains(exp, log, d, s, length, size);
      q := 0;
    } else {
      p, q := FoundPairExplains(exp, log, d, s, length, size, r);
    }
  }

  /** What the search answers, for any remainder: one place exactly if one error within the
      length explains it; two places that explain it if one does not but two do; and none
      exactly if neither does. */
  lemma SearchIsExact(exp: seq<Gf>, log: Gf -> int, d: bv30, length: nat, size: nat, r: seq<int>)
    requires Tables(exp, log) && length <= ORDER && r == PossibleErrors(exp, log, SyndromeOf(d), length, size)
    ensures forall p :: 0 <= p < length && OneOff(d, p) ==> r == [size - p - 1]
    ensures |r| == 1 ==> exists p :: 0 <= p < length && OneOff(d, p)
    ensures |r| == 2 <==> exists p, q :: 0 <= p < length && 0 <= q < length && TwoOff(d, p, q)
    ensures |r| == 2 ==>
              exists p, q :: 0 <= p < length && 0 <= q < length && TwoOff(d, p, q) && r == InOrder(p, q, size)
    ensures |r| <= 2
  {
    var s := SyndromeOf(d);
    forall p | 0 <= p < length && OneOff(d, p) ensures r == [size - p - 1] {
      OneFound(exp, log, d, s, length, size, p, size - 1 - p);
    }
    if p, q :| 0 <= p < length && 0 <= q < length && TwoOff(d, p, q) {
      TwoFound(exp, log, d, s, length, size, p, q);
      var p', q' := FoundPairExplains(exp, log, d, s, length, size, r);
    }
    if r != [] { var p', q' := FoundExplains(exp, log, d, s, length, size, r); }
  }
}
