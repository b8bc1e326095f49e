/**
 The tables of GF(32) and GF(1024), the syndrome constants, and the location of
 errors in a Bech32 string.
 */
module Bech32Locate {
  import opened Bech32
  import opened Bech32Algebra
  import opened Bech32Field
  import opened Bech32Strings
  import opened Bech32Syndrome
  import opened Helpers

  // ----- the tables

  /** Powers of x and their logarithms. */
  ghost predicate Tables32(exp: seq<bv5>, log: bv5 -> int) {
    && |exp| == 31 && (forall i :: 0 <= i < 31 ==> exp[i] == XPow(i, 1))
    && log(0) == -1 && (forall i :: 0 <= i < 31 ==> log(XPow(i, 1)) == i)
  }

  lemma Logs32Next(before: bv5 -> int, log: bv5 -> int, n: nat, v: bv5)
    requires n < 31 && v == XPow(n, 1) && (forall x :: log(x) == if x == v then n else before(x))
    requires before(0) == -1 && forall k :: 0 <= k < n ==> before(XPow(k, 1)) == k
    ensures log(0) == -1 && forall k :: 0 <= k < n + 1 ==> log(XPow(k, 1)) == k
  {
    LogTableIs(n);
    forall k | 0 <= k < n ensures log(XPow(k, 1)) == k { LogTableIs(k); }
  }

  method GenerateGF32() returns (exp: seq<bv5>, log: bv5 -> int)
    ensures Tables32(exp, log)
  {
    var v: bv5 := 1;
    exp := [1];
    log := (x: bv5) => if x == 0 then -1 else 0;
    for i := 1 to 31
      invariant |exp| == i && v == XPow(i - 1, 1)
      invariant forall k :: 0 <= k < i ==> exp[k] == XPow(k, 1)
      invariant log(0) == -1 && forall k :: 0 <= k < i ==> log(XPow(k, 1)) == k
    {
      v := X(v);
      exp := exp + [v];
      var before := log;
      log := (x: bv5) => if x == v then i else before(x);
      Logs32Next(before, log, i, v);
    }
  }

  /** Powers of e and their logarithms. */
  ghost predicate Tables(exp: seq<Gf>, log: Gf -> int) {
    && |exp| == ORDER && (forall i :: 0 <= i < ORDER ==> exp[i] == E(i))
    && log(ZERO) == -1 && (forall i :: 0 <= i < ORDER ==> log(E(i)) == i)
    && (forall v :: v != ZERO ==> 0 <= log(v) < ORDER)
  }

  lemma {:induction false} XPowFull(k: nat, m: nat)
    ensures XPow(k + 31 * m, 1) == XPow(k, 1)
    decreases m
  {
    if m > 0 {
      XPowFull(k, m - 1);
      PowersHigh();
      XPowSum(k + 31 * (m - 1), 31, 1);
    }
  }

  /** A product looked up by logarithms. */
  method TableProduct(exp: seq<bv5>, log: bv5 -> int, v: bv5, c: bv5, ghost k: nat) returns (r: bv5)
    requires Tables32(exp, log) && k < 31 && c == XPow(k, 1)
    ensures r == XPow(k, v)
  {
    if v == 0 {
      XPowZero(k, 0);
      return 0;
    }
    SomePower(v);
    var n := log(v) + log(c);
    r := exp[n % 31];
    XPowFull(n % 31, n / 31);
    assert n % 31 + 31 * (n / 31) == n;
    assert n == k + LogTable(v);
    XPowSum(k, LogTable(v), 1);
  }

  /** The next power of e, by the tables of GF(32). */
  method TimesE(exp: seq<bv5>, log: bv5 -> int, v: Gf) returns (w: Gf)
    requires Tables32(exp, log)
    ensures w == MulE(v)
  {
    PowersLow();
    PowersHigh();
    var low := TableProduct(exp, log, v.hi, 23, 21);
    var high := TableProduct(exp, log, v.hi, 9, 5);
    w := Gf(high ^ v.lo, low);
  }

  /** The logarithms of the powers below `n`. */
  ghost predicate LogsTo(log: Gf -> int, n: nat) {
    log(ZERO) == -1 && (forall v :: v != ZERO ==> 0 <= log(v) < ORDER) && forall k :: 0 <= k < n ==> log(E(k)) == k
  }

  lemma LogsNext(before: Gf -> int, log: Gf -> int, n: nat)
    requires LogsTo(before, n) && n < ORDER && forall x :: log(x) == if x == E(n) then n else before(x)
    ensures LogsTo(log, n + 1)
  {
    PowerNonzero(n);
    forall k | 0 <= k < n ensures log(E(k)) == k { if E(k) == E(n) { EInjective(k, n); } }
  }

  method GenerateGFTables() returns (exp: seq<Gf>, log: Gf -> int)
    ensures Tables(exp, log)
  {
    var exp32, log32 := GenerateGF32();
    var v := ONE;
    exp := [ONE];
    log := (x: Gf) => if x == ZERO then -1 else 0;
    for i := 1 to ORDER
      invariant |exp| == i && v == E(i - 1) && LogsTo(log, i)
      invariant forall k :: 0 <= k < i ==> exp[k] == E(k)
    {
      v := TimesE(exp32, log32, v);
      assert v == E(i);
      exp := exp + [v];
      var before := log;
      log := (x: Gf) => if x == v then i else before(x);
      LogsNext(before, log, i);
    }
  }

  // ----- the syndrome

  /** 1 << shift. */
  function Unit(shift: nat): bv5 {
    match shift
    case 0 => 1
    case 1 => 2
    case 2 => 4
    case 3 => 8
    case _ => 16
  }

  lemma UnitIs(shift: nat)
    requires shift < 5
    ensures Unit(shift) == XPow(shift, 1) && E(99 * shift) == Gf(0, Unit(shift))
  {
    PowersLow();
    assert shift == 0 || shift == 1 || shift == 2 || shift == 3 || shift == 4;
    SmallPowers(shift);
  }

  /** e^(j k) times 2^shift. */
  function ConstAt(j: nat, k: nat, shift: nat): Gf { E(Exponent(j, k) + 99 * shift) }

  function ConstsAt(i: nat): Triple { Triple(ConstAt(997, i / 5 + 1, i % 5), ConstAt(998, i / 5 + 1, i % 5),
                    ConstAt(999, i / 5 + 1, i % 5)) }

  lemma LookedUp(exp: seq<Gf>, log: Gf -> int, j: nat, k: nat, shift: nat)
    requires Tables(exp, log) && shift < 5
    ensures log(Gf(0, Unit(shift))) == 99 * shift
    ensures exp[(j * k + 99 * shift) % ORDER] == ConstAt(j, k, shift)
  {
    UnitIs(shift);
    ExponentIs(j, k);
    EMod(j * k + 99 * shift);
  }

  method ConstTriple(exp: seq<Gf>, log: Gf -> int, k: nat, shift: nat) returns (c: Triple)
    requires Tables(exp, log) && shift < 5
    ensures c == Triple(ConstAt(997, k, shift), ConstAt(998, k, shift), ConstAt(999, k, shift))
  {
    var b := log(Gf(0, Unit(shift)));
    LookedUp(exp, log, 997, k, shift);
    LookedUp(exp, log, 998, k, shift);
    LookedUp(exp, log, 999, k, shift);
    c := Triple(exp[(997 * k + b) % 1023], exp[(998 * k + b) % 1023], exp[(999 * k + b) % 1023]);
  }

  lemma ConstsIndex(k: nat, shift: nat, i: nat)
    requires k >= 1 && shift < 5 && i == 5 * (k - 1) + shift
    ensures ConstsAt(i) == Triple(ConstAt(997, k, shift), ConstAt(998, k, shift), ConstAt(999, k, shift))
  {
    assert i / 5 + 1 == k && i % 5 == shift;
  }

  ghost predicate AreConsts(consts: seq<Triple>, n: int) {
    |consts| == n && forall i :: 0 <= i < n ==> consts[i] == ConstsAt(i)
  }

  lemma OneMoreConst(consts: seq<Triple>, n: nat, next: nat, k: nat, shift: nat, c: Triple)
    requires AreConsts(consts, n) && k >= 1 && shift < 5 && n == 5 * (k - 1) + shift && next == n + 1
    requires c == Triple(ConstAt(997, k, shift), ConstAt(998, k, shift), ConstAt(999, k, shift))
    ensures AreConsts(consts + [c], next)
  {
    ConstsIndex(k, shift, n);
  }

  method GenerateSyndromeConstants(exp: seq<Gf>, log: Gf -> int) returns (consts: seq<Triple>)
    requires Tables(exp, log)
    ensures AreConsts(consts, 25)
  {
    consts := [];
    var n: nat := 0;
    for k := 1 to 6
      invariant AreConsts(consts, n) && n == 5 * (k - 1)
    {
      for shift := 0 to 5
        invariant AreConsts(consts, n) && n == 5 * (k - 1) + shift
      {
        var c := ConstTriple(exp, log, k, shift);
        OneMoreConst(consts, n, n + 1, k, shift, c);
        consts := consts + [c];
        n := n + 1;
      }
    }
  }

  predicate Bit(c: bv5, shift: nat) { c & Unit(shift) != 0 }

  /** The sum of the constants of the first `i` bits above the lowest five. */
  ghost function BitSum(j: nat, p: seq<bv5>, i: nat): Gf
    requires |p| == 6 && i <= 25
  {
    if i == 0 then Gf(0, p[0]) else
      Plus(BitSum(j, p, i - 1), if Bit(p[(i - 1) / 5 + 1], (i - 1) % 5) then ConstAt(j, (i - 1) / 5 + 1, (i - 1) % 5)
          else ZERO)
  }

  /** The three sums of the first `i` constants. */
  ghost function BitSums(p: seq<bv5>, i: nat): Triple
    requires i <= 25 && |p| == 6
  {
    Triple(BitSum(997, p, i), BitSum(998, p, i), BitSum(999, p, i))
  }

  lemma BitSumsNext(p: seq<bv5>, i: nat)
    requires i < 25 && |p| == 6
    ensures BitSums(p, i + 1) ==
            PlusT(BitSums(p, i), if Bit(p[i / 5 + 1], i % 5) then ConstsAt(i) else Triple(ZERO, ZERO, ZERO))
  {
  }

  lemma BitSumsAll(p: seq<bv5>)
    requires |p| == 6
    ensures BitSums(p, 25) == Triple(Eval(997, p), Eval(998, p), Eval(999, p))
  {
    BitSumIsEval(997, p, 5);
    BitSumIsEval(998, p, 5);
    BitSumIsEval(999, p, 5);
    assert p[..6] == p;
  }

  method Syndrome(residue: bv30, consts: seq<Triple>) returns (r: Triple)
    requires AreConsts(consts, 25)
    ensures var p := Coefficients6(residue); r == Triple(Eval(997, p), Eval(998, p), Eval(999, p))
  {
    var p := Coefficients6(residue);
    var low := Gf(0, p[0]);
    r := Triple(low, low, low);
    for i := 0 to 25
      invariant r == BitSums(p, i)
    {
      BitSumsNext(p, i);
      r := PlusT(r, if Bit(p[i / 5 + 1], i % 5) then consts[i] else Triple(ZERO, ZERO, ZERO));
    }
    BitSumsAll(p);
  }

  lemma PowerScaled(n: nat, m: nat, unit: bv5)
    requires E(m) == Gf(0, unit)
    ensures E(n + m) == Scale(unit, E(n))
  {
    IterSum(n, m, ONE);
    ScaleSmall(unit);
    IterScale(n, unit, ONE);
  }

  lemma ConstIsScaled(j: nat, k: nat, shift: nat)
    requires shift < 5
    ensures ConstAt(j, k, shift) == Scale(Unit(shift), E(j * k))
  {
    ExponentIs(j, k);
    UnitIs(shift);
    PowerScaled(Exponent(j, k), 99 * shift, Unit(shift));
  }

  lemma OneBit(c: bv5, shift: nat)
    requires shift < 5
    ensures c & Unit(shift) == if Bit(c, shift) then Unit(shift) else 0
  {
    if shift == 0 {
    } else if shift == 1 {
    } else if shift == 2 {
    } else if shift == 3 {
    } else {
    }
  }

  lemma BitTerm(j: nat, k: nat, shift: nat, c: bv5)
    requires shift < 5
    ensures (if Bit(c, shift) then ConstAt(j, k, shift) else ZERO) == Scale(c & Unit(shift), E(j * k))
  {
    OneBit(c, shift);
    ConstIsScaled(j, k, shift);
    ScaleUnits(E(j * k));
  }

  lemma FiveBits(c: bv5)
    ensures c == (c & 1) ^ (c & 2) ^ (c & 4) ^ (c & 8) ^ (c & 16)
  {
  }

  lemma ScaleByBits(c: bv5, y: Gf, z: Gf)
    ensures Plus(Plus(Plus(Plus(Plus(z, Scale(c & 1, y)), Scale(c & 2, y)), Scale(c & 4, y)), Scale(c & 8, y)),
            Scale(c & 16, y)) ==
            Plus(z, Scale(c, y))
  {
    FiveBits(c);
    PlusScale((c & 1), (c & 2), y);
    PlusScale((c & 1) ^ (c & 2), (c & 4), y);
    PlusScale((c & 1) ^ (c & 2) ^ (c & 4), (c & 8), y);
    PlusScale((c & 1) ^ (c & 2) ^ (c & 4) ^ (c & 8), (c & 16), y);
    Cancel5(z, Scale(c & 1, y), Scale(c & 2, y), Scale(c & 4, y), Scale(c & 8, y), Scale(c & 16, y));
  }

  lemma Cancel5(z: Gf, a: Gf, b: Gf, c: Gf, d: Gf, e: Gf)
    ensures Plus(Plus(Plus(Plus(Plus(z, a), b), c), d), e) == Plus(z, Plus(Plus(Plus(Plus(a, b), c), d), e))
  {
    Cancel(z, a, b);
    Cancel(z, Plus(a, b), c);
    Cancel(z, Plus(Plus(a, b), c), d);
    Cancel(z, Plus(Plus(Plus(a, b), c), d), e);
  }

  lemma {:induction false} BitSumIsEval(j: nat, p: seq<bv5>, k: nat)
    requires |p| == 6 && k <= 5
    ensures BitSum(j, p, 5 * k) == Eval(j, p[..k + 1])
  {
    EvalNext(j, p, k);
    if k == 0 {
      ScaleSmall(p[0]);
      assert j * 0 == 0;
      assert Plus(ZERO, Gf(0, p[0])) == Gf(0, p[0]);
    } else {
      BitSumIsEval(j, p, k - 1);
      FiveTerms(j, p, k, 5 * (k - 1), p[k], E(j * k));
      ScaleByBits(p[k], E(j * k), BitSum(j, p, 5 * (k - 1)));
    }
  }

  lemma FiveTerms(j: nat, p: seq<bv5>, k: nat, i: nat, c: bv5, y: Gf)
    requires |p| == 6 && 0 < k <= 5 && i == 5 * (k - 1) && c == p[k] && y == E(j * k)
    ensures BitSum(j, p, 5 * k) ==
            Plus(Plus(Plus(Plus(Plus(BitSum(j, p, i), Scale(c & 1, y)), Scale(c & 2, y)), Scale(c & 4, y)),
                Scale(c & 8, y)), Scale(c & 16, y))
  {
    BitSumNext(j, p, k, i, i + 1, 0);
    BitSumNext(j, p, k, i + 1, i + 2, 1);
    BitSumNext(j, p, k, i + 2, i + 3, 2);
    BitSumNext(j, p, k, i + 3, i + 4, 3);
    BitSumNext(j, p, k, i + 4, 5 * k, 4);
  }

  lemma BitSumNext(j: nat, p: seq<bv5>, k: nat, m: nat, next: nat, shift: nat)
    requires |p| == 6 && 0 < k <= 5 && m == 5 * (k - 1) + shift && next == m + 1 && shift < 5
    ensures BitSum(j, p, next) == Plus(BitSum(j, p, m), Scale(p[k] & Unit(shift), E(j * k)))
  {
    assert m / 5 + 1 == k && m % 5 == shift;
    BitTerm(j, k, shift, p[k]);
  }

  // ----- where the errors are

  datatype Message =
    | TooLong | InvalidCharacter | MissingSeparator | InvalidSeparatorPosition | InvalidBase32
    | InvalidChecksum | InvalidBech32Checksum | InvalidBech32mChecksum | NoError

  /** The condition of a single error. */
  predicate LooksSingle(log: Gf -> int, s: Triple) {
    var l0, l1, l2 := log(s.s0), log(s.s1), log(s.s2);
    l0 != -1 && l1 != -1 && l2 != -1 && (2 * l1 - l2 - l0 + 2046) % 1023 == 0
  }

  /** The place of a single error, counted from the start of the string. */
  function OneError(log: Gf -> int, s: Triple, length: nat, size: nat): seq<int> {
    var l0, l1 := log(s.s0), log(s.s1);
    var p1 := (l1 - l0 + 1023) % 1023;
    var e1 := l0 + (1023 - 997) * p1;
    if p1 < length && e1 % 33 == 0 then [size - p1 - 1] else []
  }

  /** v times e^p. */
  function Shifted(exp: seq<Gf>, log: Gf -> int, v: Gf, p: nat): Gf
    requires |exp| == ORDER
  {
    if v == ZERO then ZERO else exp[(log(v) + p) % 1023]
  }

  /** Two errors, the first of them guessed to be `p1` places before the end. */
  function TryPair(exp: seq<Gf>, log: Gf -> int, s: Triple, length: nat, size: nat, p1: nat): Option<seq<int>>
    requires |exp| == ORDER && p1 < length <= ORDER
  {
    var a := Plus(s.s2, Shifted(exp, log, s.s1, p1));
    var b := Plus(s.s1, Shifted(exp, log, s.s0, p1));
    if a == ZERO || b == ZERO then None else TrySecond(exp, log, s, length, size, p1, b,
        (log(a) - log(b) + 1023) % 1023)
  }

  function TrySecond(exp: seq<Gf>, log: Gf -> int, s: Triple, length: nat, size: nat, p1: nat, b: Gf, p2: nat)
    : Option<seq<int>>
    requires |exp| == ORDER && p1 < length <= ORDER
  {
    if p2 >= length || p1 == p2 then None else
      CheckPair(log, b, Plus(s.s1, Shifted(exp, log, s.s0, p2)), Plus(exp[p1], exp[p2]), p1, p2, size)
  }

  /** Both errors must be in GF(32). */
  function CheckPair(log: Gf -> int, b: Gf, d: Gf, sum: Gf, p1: nat, p2: nat, size: nat): Option<seq<int>> {
    if d == ZERO then None else
      var inv := 1023 - log(sum);
      var e2 := log(b) + inv + (1023 - 997) * p2;
      var e1 := log(d) + inv + (1023 - 997) * p1;
      if e2 % 33 != 0 || e1 % 33 != 0 then None else Some(InOrder(p1, p2, size))
  }

  /** The place further from the end first. */
  function InOrder(p1: nat, p2: nat, size: nat): seq<int> {
    if p1 > p2 then [size - p1 - 1, size - p2 - 1] else [size - p2 - 1, size - p1 - 1]
  }

  function TwoErrors(exp: seq<Gf>, log: Gf -> int, s: Triple, length: nat, size: nat, p1: nat): seq<int>
    requires |exp| == ORDER && p1 <= length <= ORDER
    decreases length - p1
  {
    if p1 == length then [] else
      var pair := TryPair(exp, log, s, length, size, p1);
      if pair.Some? then pair.value else TwoErrors(exp, log, s, length, size, p1 + 1)
  }

  method FindTwoErrors(exp: seq<Gf>, log: Gf -> int, s: Triple, length: nat, size: nat) returns (errors: seq<int>)
    requires |exp| == ORDER && length <= ORDER
    ensures errors == TwoErrors(exp, log, s, length, size, 0)
  {
    for p1 := 0 to length
      invariant TwoErrors(exp, log, s, length, size, 0) == TwoErrors(exp, log, s, length, size, p1)
    {
      var pair := TryPair(exp, log, s, length, size, p1);
      if pair.Some? { return pair.value; }
    }
    errors := [];
  }

  function PossibleErrors(exp: seq<Gf>, log: Gf -> int, s: Triple, length: nat, size: nat): seq<int>
    requires |exp| == ORDER && length <= ORDER
  {
    if LooksSingle(log, s) then OneError(log, s, length, size) else TwoErrors(exp, log, s, length, size, 0)
  }

  ghost function Residue(encoding: Encoding, hrp: Text, values: seq<bv8>): bv30
    requires !encoding.Invalid?
  {
    Fold(1, Coefficients(hrp, values)) ^ EncodingConstant(encoding)
  }

  /** The errors under one encoding, or none if the checksum is right. */
  ghost function ErrorsUnder(exp: seq<Gf>, log: Gf -> int, encoding: Encoding, hrp: Text, values: seq<bv8>,
                          size: nat): Option<seq<int>>
    requires |exp| == ORDER && |values| <= ORDER && !encoding.Invalid?
  {
    var residue := Residue(encoding, hrp, values);
    if residue == 0 then None else Some(PossibleErrors(exp, log, SyndromeOf(residue), |values|, size))
  }

  method LocateBySyndrome(exp: seq<Gf>, log: Gf -> int, consts: seq<Triple>, residue: bv30, length: nat, size: nat)
    returns (errors: seq<int>)
    requires |exp| == ORDER && length <= ORDER
    requires AreConsts(consts, 25)
    ensures errors == PossibleErrors(exp, log, SyndromeOf(residue), length, size)
  {
    var s := Syndrome(residue, consts);
    if LooksSingle(log, s) {
      errors := OneError(log, s, length, size);
    } else {
      errors := FindTwoErrors(exp, log, s, length, size);
    }
  }

  method FindErrors(exp: seq<Gf>, log: Gf -> int, consts: seq<Triple>, encoding: Encoding, hrp: Text, values: seq<bv8>,
                    size: nat)
    returns (errors: Option<seq<int>>)
    requires |exp| == ORDER && |values| <= ORDER && !encoding.Invalid?
    requires AreConsts(consts, 25)
    ensures errors == ErrorsUnder(exp, log, encoding, hrp, values, size)
  {
    var enc := PreparePolynomialCoefficients(hrp, values);
    var check := PolyMod(enc);
    var residue := check ^ EncodingConstant(encoding);
    if residue == 0 { return None; }
    var found := LocateBySyndrome(exp, log, consts, residue, |values|, size);
    return Some(found);
  }

  /** Both encodings are tried, and the one with fewer errors is reported. */
  function Report(bech32: Option<seq<int>>, bech32m: Option<seq<int>>): (Message, seq<int>) {
    if bech32.None? || bech32m.None? then (NoError, [])
    else
      var a, b := bech32.value, bech32m.value;
      if a == [] then (if b == [] then InvalidChecksum else InvalidBech32mChecksum, b)
      else if b != [] && |b| < |a| then (InvalidBech32mChecksum, b)
      else (InvalidBech32Checksum, a)
  }

  ghost function Located(exp: seq<Gf>, log: Gf -> int, str: Text, limit: nat): (Message, seq<int>)
    requires |exp| == ORDER && limit <= ORDER
  {
    var pos := RFind(str);
    if |str| > limit then (TooLong, seq(|str| - limit, i => limit + i))
    else if !Clean(str) then (InvalidCharacter, Scan(str).errors)
    else if pos == -1 then (MissingSeparator, [])
    else if pos == 0 || pos + CHECKSUM_SIZE >= |str| then (InvalidSeparatorPosition, [pos])
    else LocatedAfter(exp, log, str, pos)
  }

  /** The part of LocateErrors for strings with a human-readable part. */
  ghost function LocatedAfter(exp: seq<Gf>, log: Gf -> int, str: Text, pos: nat): (Message, seq<int>)
    requires |exp| == ORDER && pos < |str| <= ORDER
  {
    var hrp, values := Lowered(str[..pos]), Values(str[pos + 1..]);
    if NO_VALUE in values then (InvalidBase32, [BadPlace(str, pos)])
    else Report(ErrorsUnder(exp, log, Bech32.Bech32, hrp, values, |str|),
        ErrorsUnder(exp, log, Bech32m, hrp, values, |str|))
  }

  /** The first value from `i` on that is none. */
  function FirstBad(values: seq<bv8>, i: nat): nat
    decreases |values| - i
  {
    if i >= |values| || values[i] == NO_VALUE then i else FirstBad(values, i + 1)
  }

  /** The first character behind `pos` that stands for no value. */
  ghost function BadPlace(str: Text, pos: nat): nat
    requires pos < |str|
  {
    pos + 1 + FirstBad(Values(str[pos + 1..]), 0)
  }

  lemma {:induction false} FirstBadIs(values: seq<bv8>, start: nat, i: nat)
    requires start <= i <= |values| && forall j :: start <= j < i ==> values[j] != NO_VALUE
    ensures FirstBad(values, start) == FirstBad(values, i)
    decreases i - start
  {
    if start < i { FirstBadIs(values, start + 1, i); }
  }

  /** The values, or the first character that stands for none. */
  method ReadOrLocate(str: Text, pos: nat) returns (bad: Option<nat>, values: seq<bv8>)
    requires pos < |str|
    ensures bad.Some? <==> NO_VALUE in Values(str[pos + 1..])
    ensures bad.Some? ==> bad.value == BadPlace(str, pos)
    ensures bad.None? ==> values == Values(str[pos + 1..])
  {
    ghost var all := Values(str[pos + 1..]);
    values := [];
    for i := pos + 1 to |str|
      invariant values == all[..i - pos - 1] && NO_VALUE !in values
    {
      var rev := RevOf(str[i]);
      assert all[i - pos - 1] == rev;
      if rev == NO_VALUE {
        FirstBadIs(all, 0, i - pos - 1);
        return Some(i), values;
      }
      values := values + [rev];
    }
    assert all[..|all|] == all;
    bad := None;
  }

  method LocateErrors(exp: seq<Gf>, log: Gf -> int, consts: seq<Triple>, str: Text, limit: nat)
    returns (message: Message, errors: seq<int>)
    requires |exp| == ORDER && limit <= ORDER
    requires AreConsts(consts, 25)
    ensures (message, errors) == Located(exp, log, str, limit)
  {
    if |str| > limit { return TooLong, seq(|str| - limit, i => limit + i); }
    var clean, wrong := CheckCharacters(str);
    ScanFindsErrors(str);
    if !clean { return InvalidCharacter, wrong; }
    var pos := RFind(str);
    if pos == -1 { return MissingSeparator, []; }
    if pos == 0 || pos + CHECKSUM_SIZE >= |str| { return InvalidSeparatorPosition, [pos]; }
    message, errors := LocateAfter(exp, log, consts, str, pos);
  }

  method LocateAfter(exp: seq<Gf>, log: Gf -> int, consts: seq<Triple>, str: Text, pos: nat)
    returns (message: Message, errors: seq<int>)
    requires |exp| == ORDER && pos < |str| <= ORDER
    requires AreConsts(consts, 25)
    ensures (message, errors) == LocatedAfter(exp, log, str, pos)
  {
    var hrp := ToLower(str[..pos]);
    var bad, values := ReadOrLocate(str, pos);
    if bad.Some? { return InvalidBase32, [bad.value]; }
    message, errors := CompareEncodings(exp, log, consts, hrp, values, |str|);
  }

  /** The loop over the encodings. */
  method CompareEncodings(exp: seq<Gf>, log: Gf -> int, consts: seq<Triple>, hrp: Text, values: seq<bv8>, size: nat)
    returns (message: Message, errors: seq<int>)
    requires |exp| == ORDER && |values| <= ORDER
    requires AreConsts(consts, 25)
    ensures (message, errors) ==
            Report(ErrorsUnder(exp, log, Bech32.Bech32, hrp, values, size),
                ErrorsUnder(exp, log, Bech32m, hrp, values, size))
  {
    message, errors := InvalidChecksum, [];
    var encodings := [Bech32.Bech32, Bech32m];
    ghost var all := [ErrorsUnder(exp, log, Bech32.Bech32, hrp, values, size),
        ErrorsUnder(exp, log, Bech32m, hrp, values, size)];
    for i := 0 to 2
      invariant forall k :: 0 <= k < i ==> all[k].Some?
      invariant i == 0 ==> message == InvalidChecksum && errors == []
      invariant i == 1 ==>
                  && errors == all[0].value
                  && message == if errors == [] then InvalidChecksum else InvalidBech32Checksum
      invariant i == 2 ==> (message, errors) == Report(all[0], all[1])
    {
      var found := FindErrors(exp, log, consts, encodings[i], hrp, values, size);
      assert found == all[i];
      if found.None? { return NoError, []; }
      if errors == [] || (found.value != [] && |found.value| < |errors|) {
        errors := found.value;
        if errors != [] { message := if i == 0 then InvalidBech32Checksum else InvalidBech32mChecksum; }
      }
    }
  }
}
