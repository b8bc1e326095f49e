/**
 Multi-word unsigned integers of any width, updated in place.
 */
module ArithUint {
  import opened ArithLimbs
  import opened Helpers
  import opened Positional

  // ----- multiplication

  /** There is room for two carries beside a product of two digits. */
  lemma ProductFits(x: Word, y: Word)
    ensures 0 <= (x as int) * y <= (BASE - 1) * (BASE - 1)
  {
    var top: int := BASE - 1;
    var a: int, b: int := x, y;
    TimesLe(0, a, b);
    TimesLe(a, top, b);
    TimesLe(b, top, top);
  }

  lemma MulStep(b: int, v: int, x: int, i: nat)
    ensures b * (v + At(BASE, x, i)) == b * v + At(BASE, b * x, i)
  {
    AtTimes(BASE, b, x, i);
  }

  lemma ProductStep(x: Word, y: seq<Word>, i: nat, j: nat, n: int, carry: int, digit: int, w: int, carry': int)
    requires i < |y| && n == carry + digit + x * y[i] && n == w + BASE * carry'
    ensures At(BASE, w, i + j) + At(BASE, carry', i + j + 1) + At(BASE, x * Val(BASE, y[..i]), j) ==
            At(BASE, carry, i + j) + At(BASE, digit, i + j) + At(BASE, x * Val(BASE, y[..i + 1]), j)
  {
    CarryStep(BASE, i + j, n, carry, digit + x * y[i], w, carry');
    AtAdd(BASE, digit, x * y[i], i + j);
    ValPush(BASE, y, y[..i], i);
    MulStep(x, Val(BASE, y[..i]), y[i], i);
    AtAdd(BASE, x * Val(BASE, y[..i]), At(BASE, x * y[i], i), j);
    AtSum(x * y[i], i, j);
  }

  lemma OuterStep(x: seq<Word>, y: seq<Word>, j: nat, v: int, v': int, q: int, carry: int, high: int)
    requires j < |x| == |y| && high == x[j] * Val(BASE, y[|y| - j..])
    requires v + At(BASE, q, |y|) == Val(BASE, x[..j]) * Val(BASE, y)
    requires v' + At(BASE, carry, |y|) == v + At(BASE, x[j] * Val(BASE, y[..|y| - j]), j)
    ensures v' + At(BASE, q + carry + high, |y|) == Val(BASE, x[..j + 1]) * Val(BASE, y)
  {
    var w, lo, hi := |y|, Val(BASE, y[..|y| - j]), Val(BASE, y[|y| - j..]);
    ValSplit(y, w - j);
    // x[j] * y == x[j] * lo + (x[j] * hi) in place w - j
    MulStep(x[j], lo, hi, w - j);
    AtAdd(BASE, x[j] * lo, At(BASE, high, w - j), j);
    AtSum(high, w - j, j);
    AtAdd(BASE, q + carry, high, w);
    AtAdd(BASE, q, carry, w);
    ValPush(BASE, x, x[..j], j);
    RowProduct(Val(BASE, x[..j]), x[j], Val(BASE, y), j);
  }

  lemma RowProduct(v: int, x: int, y: int, j: nat)
    ensures (v + At(BASE, x, j)) * y == v * y + At(BASE, x * y, j)
  {
    AtTimes(BASE, y, x, j);
  }

  // ----- shifts

  lemma LeftStep(x: seq<Word>, i: nat, s: nat, k: nat, lo: int, hi: int)
    requires i < |x| && x[i] * Pow2(s) == hi * BASE + lo
    ensures At(BASE, Val(BASE, x[..i + 1]) * Pow2(s), k) == At(BASE, Val(BASE, x[..i]) * Pow2(s), k) +
            At(BASE, lo, i + k) + At(BASE, hi, i + k + 1)
  {
    var p := Pow2(s);
    ValPush(BASE, x, x[..i], i);
    RowProduct(Val(BASE, x[..i]), x[i], p, i);
    AtAdd(BASE, Val(BASE, x[..i]) * p, At(BASE, x[i] * p, i), k);
    AtSum(x[i] * p, i, k);
    AtAdd(BASE, lo, BASE * hi, i + k);
    AtCarry(BASE, hi, i + k);
  }

  lemma LeftMore(x: seq<Word>, i: nat, s: nat, k: nat, lo: int, hi: int, before: int, after: int, q: int, lost: int,
                 w: nat)
    requires i < |x| && x[i] * Pow2(s) == hi * BASE + lo
    requires before + At(BASE, q, w) == At(BASE, Val(BASE, x[..i]) * Pow2(s), k)
    requires after + At(BASE, lost, w) == before + At(BASE, lo, i + k) + At(BASE, hi, i + k + 1)
    ensures after + At(BASE, q + lost, w) == At(BASE, Val(BASE, x[..i + 1]) * Pow2(s), k)
  {
    LeftStep(x, i, s, k, lo, hi);
    AtAdd(BASE, q, lost, w);
  }

  lemma ShiftedValue(d: seq<Word>, w: nat, v: int, r: int, s: nat, k: nat, shift: nat, q: int)
    requires shift == 32 * k + s && |d| == w && r == Val(BASE, d) && r + At(BASE, q, w) == At(BASE, v * Pow2(s), k)
    ensures 0 <= r < Radix(w) && r == (v * Pow2(shift)) % Radix(w)
  {
    ShiftedBy(v, s, k, shift);
    ValBound(d);
    ModAt(v * Pow2(shift), w, q, r);
  }

  lemma ShiftedBy(v: int, s: nat, k: nat, shift: nat)
    requires shift == 32 * k + s
    ensures At(BASE, v * Pow2(s), k) == v * Pow2(shift)
  {
    AtIsPow2(v * Pow2(s), k);
    Pow2Add(s, 32 * k);
    Associate(v, Pow2(s), Pow2(32 * k));
  }

  lemma Associate(a: int, b: int, c: int)
    ensures a * b * c == a * (b * c)
  {
  }

  /** What digit `i` adds to a number moved right by k digits and s bits. */
  lemma RightStep(x: seq<Word>, i: nat, s: nat, k: nat, v: int, v': int, low: int, high: int, rest: int)
    requires i < |x| && k < i && x[i] == high * Pow2(s) + rest && low * Pow2(s) == rest * BASE
    requires v' == v + At(BASE, low, i - k - 1) + At(BASE, high, i - k)
    ensures At(BASE, v' * Pow2(s), k) - At(BASE, v * Pow2(s), k) == At(BASE, x[i], i)
  {
    var p := Pow2(s);
    RowProduct(v + At(BASE, low, i - k - 1), high, p, i - k);
    RowProduct(v, low, p, i - k - 1);
    AtAdd(BASE, v * p + At(BASE, low * p, i - k - 1), At(BASE, high * p, i - k), k);
    AtAdd(BASE, v * p, At(BASE, low * p, i - k - 1), k);
    AtSum(high * p, i - k, k);
    AtSum(low * p, i - k - 1, k);
    AtCarry(BASE, rest, i - 1);
    AtAdd(BASE, high * p, rest, i);
  }

  lemma RightFirst(x: seq<Word>, p: int, k: nat, top: int, rest: int)
    requires k < |x| && x[k] == top + rest && 0 <= rest < p
    ensures At(BASE, top, k) + (Val(BASE, x[..k]) + At(BASE, rest, k)) == Val(BASE, x[..k + 1])
    ensures 0 <= Val(BASE, x[..k]) + At(BASE, rest, k) < At(BASE, p, k)
  {
    ValPush(BASE, x, x[..k], k);
    AtAdd(BASE, top, rest, k);
    ValBound(x[..k]);
    AtAdd(BASE, rest, 1, k);
    if rest + 1 < p { AtLess(rest + 1, p, k); }
    AtZero(k);
    if rest > 0 { AtLess(0, rest, k); }
  }

  lemma {:induction false} AtLonger(i: nat, k: nat, c: int)
    requires i <= k && c >= 1
    ensures Radix(i) <= At(BASE, c, k)
    decreases k
  {
    if i == k {
      if c > 1 { AtLess(1, c, k); }
    } else {
      AtLonger(i, k - 1, c);
      AtZero(i);
    }
  }

  /** The first `i` digits of `x`, moved right by k digits and s bits, with what is lost. */
  ghost predicate RightDone(x: seq<Word>, i: nat, k: nat, s: nat, v: int, rest: int) {
    i <= |x| &&
    if i <= k then v == 0 && rest == Val(BASE, x[..i])
    else At(BASE, v * Pow2(s), k) + rest == Val(BASE, x[..i]) && 0 <= rest < At(BASE, Pow2(s), k)
  }

  lemma RightNext(x: seq<Word>, i: nat, k: nat, s: nat, v: int, v': int, rest: int, high: int, low: int, r: int)
    returns (rest': int)
    requires i < |x| && RightDone(x, i, k, s, v, rest)
    requires x[i] == high * Pow2(s) + r && 0 <= r < Pow2(s) && low * Pow2(s) == r * BASE
    requires v' ==
             if i < k then v
             else if i == k then v + high
             else v + At(BASE, low, i - k - 1) + At(BASE, high, i - k)
    ensures RightDone(x, i + 1, k, s, v', rest')
  {
    if i > k {
      RightStep(x, i, s, k, v, v', low, high, r);
      ValPush(BASE, x, x[..i], i);
      rest' := rest;
    } else if i == k {
      RightFirst(x, Pow2(s), k, high * Pow2(s), r);
      rest' := Val(BASE, x[..k]) + At(BASE, r, k);
    } else {
      rest' := Val(BASE, x[..i + 1]);
    }
  }

  lemma RightAll(x: seq<Word>, k: nat, s: nat, shift: nat, v: int, rest: int)
    requires shift == 32 * k + s && RightDone(x, |x|, k, s, v, rest)
    ensures v == Val(BASE, x) / Pow2(shift)
  {
    assert x[..|x|] == x;
    ValBound(x);
    if |x| <= k {
      AtLonger(|x|, k, Pow2(s));
      AtZero(k);
    }
    ShiftedBy(v, s, k, shift);
    AtPow2(s, k);
    QuotRem(Val(BASE, x), Pow2(shift), v, rest);
  }

  /** x << s and the bits it loses. */
  method LeftBits(x: Word, s: nat) returns (hi: Word, lo: Word)
    requires s < 32
    ensures x * Pow2(s) == hi * BASE + lo && hi < Pow2(s) && lo % Pow2(s) == 0
  {
    LeftParts(x, s);
    Pow2Word();
    hi, lo := if s == 0 then 0 else x / Pow2(32 - s), x * Pow2(s) % BASE;
  }

  /** x >> s, and the bits it loses at the top of the next lower word. */
  method RightBits(x: Word, s: nat) returns (high: Word, low: Word, ghost r: nat)
    requires s < 32
    ensures x == high * Pow2(s) + r && r < Pow2(s) && low * Pow2(s) == r * BASE
    ensures high < Pow2(32 - s) && low % Pow2(32 - s) == 0 && (s == 0 ==> low == 0)
  {
    r := x % Pow2(s);
    if s == 0 {
      Pow2Word();
      high, low := x, 0;
    } else {
      RightParts(x, s);
      high, low := x / Pow2(s), x * Pow2(32 - s) % BASE;
      RightLow(r, s);
    }
  }

  lemma RightLow(r: int, s: nat)
    requires s <= 32
    ensures r * Pow2(32 - s) * Pow2(s) == r * BASE
  {
    Pow2Word();
    Pow2Add(32 - s, s);
    Associate(r, Pow2(32 - s), Pow2(s));
  }

  lemma TwoDigits(x: Word, y: Word)
    ensures Val(BASE, [x, y]) == x + BASE * y
  {
    var d := [x, y];
    assert d[..2] == d;
    ValPush(BASE, d, d[..1], 1);
    ValPush(BASE, d, [], 0);
    assert At(BASE, y, 1) == BASE * At(BASE, y, 0);
  }

  lemma LowDigits(d: seq<Word>, b: Word64)
    requires |d| >= 2 && d[0] == b % BASE && d[1] == b / BASE && forall i :: 2 <= i < |d| ==> d[i] == 0
    ensures Val(BASE, d) == b
  {
    ValSplit(d, 2);
    ValZero(d[2..]);
    AtZero(2);
    assert d[..2] == [d[0], d[1]];
    TwoDigits(d[0], d[1]);
  }

  // ----- comparison and length

  /** Above digit `i` the numbers agree, at digit `i` they differ. */
  lemma DigitDecides(x: seq<Word>, y: seq<Word>, i: nat)
    requires i < |x| == |y| && x[i + 1..] == y[i + 1..] && x[i] < y[i]
    ensures Val(BASE, x) < Val(BASE, y)
  {
    ValSplit(x, i + 1);
    ValSplit(y, i + 1);
    ValPush(BASE, x, x[..i], i);
    ValPush(BASE, y, y[..i], i);
    ValBound(x[..i]);
    ValBound(y[..i]);
    AtAdd(BASE, x[i], 1, i);
    if x[i] + 1 < y[i] { AtLess(x[i] as int + 1, y[i], i); }
  }

  /** How far up the highest bit is. */
  ghost predicate IsBits(v: int, n: nat) {
    v < Pow2(n) && (n > 0 ==> Pow2(n - 1) <= v)
  }

  lemma SomeBits(v: int, n: nat)
    requires IsBits(v, n) && v >= 0
    ensures n != 0 <==> v != 0
  {
    assert Pow2(0) == 1;
  }

  lemma TopDigit(x: seq<Word>, pos: nat, n: nat)
    requires pos < |x| && (forall j :: pos < j < |x| ==> x[j] == 0) && Pow2(n) <= x[pos] < Pow2(n + 1)
    ensures IsBits(Val(BASE, x), 32 * pos + n + 1)
  {
    ValSplit(x, pos + 1);
    ValZero(x[pos + 1..]);
    AtZero(pos + 1);
    ValPush(BASE, x, x[..pos], pos);
    ValBound(x[..pos]);
    AtAdd(BASE, x[pos], 1, pos);
    var v: int := x[pos];
    if Pow2(n) < v { AtLess(Pow2(n), v, pos); }
    if v + 1 < Pow2(n + 1) { AtLess(v + 1, Pow2(n + 1), pos); }
    AtPow2(n, pos);
    AtPow2(n + 1, pos);
  }

  /** The highest bit of a word, looked for from the top. */
  method HighestBit(x: Word) returns (n: nat)
    requires x != 0
    ensures Pow2(n) <= x < Pow2(n + 1) && n < 32
  {
    Pow2Word();
    n := 31;
    while n > 0
      invariant 0 <= n <= 31 && x < Pow2(n + 1)
    {
      BitTest(x, Pow2(n));
      if x / Pow2(n) % 2 == 1 { return; }
      n := n - 1;
    }
  }

  lemma BitTest(x: nat, p: nat)
    requires p > 0 && x < 2 * p
    ensures x / p % 2 == 1 <==> p <= x
  {
    if p <= x { QuotRem(x, p, 1, x - p); } else { QuotRem(x, p, 0, x); }
  }

  // ----- division

  /** All bits below `n` are 0. */
  ghost predicate LowZero(d: seq<Word>, n: nat) {
    && (forall j :: 0 <= j < |d| && j < n / 32 ==> d[j] == 0)
    && (n / 32 < |d| ==> d[n / 32] % Pow2(n % 32) == 0)
  }

  lemma LowZeroAbove(d: seq<Word>, n: nat)
    requires LowZero(d, n + 1) && n / 32 < |d|
    ensures forall j :: 0 <= j < n / 32 ==> d[j] == 0
    ensures d[n / 32] % Pow2(n % 32 + 1) == 0
  {
    if n % 32 == 31 {
      assert d[n / 32] == 0;
    }
  }

  lemma LowZeroLess(d: seq<Word>, n: nat)
    requires LowZero(d, n + 1)
    ensures LowZero(d, n)
  {
    if n / 32 < |d| {
      LowZeroAbove(d, n);
      MultipleOfHalf(d[n / 32], Pow2(n % 32));
    }
  }

  lemma MultipleOfHalf(x: nat, p: nat)
    requires p > 0 && x % (2 * p) == 0
    ensures x % p == 0
  {
    var q, r := DivMod(x, 2 * p);
    Associate(q, 2, p);
    MulMod(q * 2, p);
  }

  /** d * 2^n. */
  ghost function Aligned(d: int, n: nat): int {
    if n == 0 then d else 2 * Aligned(d, n - 1)
  }

  lemma {:induction false} AlignedIs(d: int, n: nat)
    ensures Aligned(d, n) == d * Pow2(n)
  {
    if n > 0 {
      AlignedIs(d, n - 1);
      Factor(d, Pow2(n - 1), 2);
    }
  }

  /** Where the quotient stands when bit `next - 1` is next. */
  ghost predicate Dividing(n: int, d: int, q: int, num: int, next: nat) {
    n == q * d + num && 0 <= num < Aligned(d, next)
  }

  lemma ZeroLow(d: seq<Word>, n: nat)
    requires forall j :: 0 <= j < |d| ==> d[j] == 0
    ensures LowZero(d, n) && Val(BASE, d) == 0
  {
    ValZero(d);
    MulMod(0, Pow2(n % 32));
  }

  /** The word with bit `s` set, and what that makes of the number. */
  lemma SetBitValue(d: seq<Word>, n: nat, j: nat, s: nat, p: nat) returns (word: Word)
    requires n / 32 < |d| && LowZero(d, n + 1) && j == n / 32 && s == n % 32 && p == Pow2(s)
    ensures p < BASE && word == Or(d[j], p)
    ensures Val(BASE, d[j := word]) == Val(BASE, d) + Pow2(n) && LowZero(d[j := word], n)
  {
    LowZeroAbove(d, n);
    Pow2Word();
    Pow2Le(s + 1, 32);
    OrWord(p, d[j], s + 1);
    word := d[j] + p;
    SetBitPlace(d, n, j, s, p, word);
    MultipleOfHalf(d[j], p);
    AddMultiple(d[j], p);
  }

  lemma SetBitPlace(d: seq<Word>, n: nat, j: nat, s: nat, p: nat, word: Word)
    requires j < |d| && n == 32 * j + s && p == Pow2(s) && word == d[j] + p
    ensures Val(BASE, d[j := word]) == Val(BASE, d) + Pow2(n)
  {
    ValSet(d, j, word);
    AtAdd(BASE, d[j], p, j);
    AtPow2(s, j);
  }

  /** Shifted to the same number of bits, and one further. */
  lemma AlignedBelow(d: int, db: nat, s: nat, nb: nat)
    requires IsBits(d, db) && 0 < db && nb == db + s
    ensures 0 < Aligned(d, s) < Pow2(nb)
  {
    Pow2Add(db, s);
    TimesLess(d, Pow2(db), Pow2(s));
    TimesLess(0, d, Pow2(s));
    AlignedIs(d, s);
  }

  lemma AlignedAbove(d: int, db: nat, low: nat, next: nat, nb: nat)
    requires IsBits(d, db) && 0 < db && low == db - 1 && nb == low + next
    ensures Pow2(nb) <= Aligned(d, next)
  {
    Pow2Add(low, next);
    TimesLe(Pow2(low), d, Pow2(next));
    AlignedIs(d, next);
  }

  lemma DivideStart(n: int, d: int, nb: nat, db: nat, s: nat, next: nat)
    requires IsBits(n, nb) && IsBits(d, db) && 0 < db <= nb && n >= 0 && s == nb - db && next == s + 1
    ensures Dividing(n, d, 0, n, next) && 0 < Aligned(d, s) < Pow2(nb)
  {
    AlignedBelow(d, db, s, nb);
    AlignedAbove(d, db, db - 1, next, nb);
  }

  lemma DivideFits(n: int, d: int, nb: nat, db: nat, s: nat, next: nat, len: nat)
    requires IsBits(n, nb) && IsBits(d, db) && 0 < db <= nb <= 32 * len && n >= 0 && s == nb - db && next == s + 1
    ensures Dividing(n, d, 0, n, next) && 0 < Aligned(d, s) < At(BASE, 1, len)
  {
    DivideStart(n, d, nb, db, s, next);
    Pow2Le(nb, 32 * len);
    AtIsPow2(1, len);
  }

  lemma DivideSkips(n: int, d: int, q: int, num: int, next: nat)
    requires next > 0 && Dividing(n, d, q, num, next) && num < Aligned(d, next - 1)
    ensures Dividing(n, d, q, num, next - 1)
  {
  }

  lemma DivideTakes(n: int, d: int, q: int, num: int, next: nat)
    requires next > 0 && Dividing(n, d, q, num, next) && num >= Aligned(d, next - 1)
    ensures Dividing(n, d, q + Pow2(next - 1), num - Aligned(d, next - 1), next - 1)
  {
    AlignedIs(d, next - 1);
    RowSum(q, Pow2(next - 1), d);
  }

  lemma RowSum(a: int, b: int, d: int)
    ensures (a + b) * d == a * d + d * b
  {
  }

  lemma AddMultiple(x: nat, p: nat)
    requires p > 0 && x % p == 0
    ensures (x + p) % p == 0
  {
    DivExact(x, p);
    MulMod(x / p + 1, p);
  }

  lemma Remains(x: int, m: nat)
    requires 0 <= x < m
    ensures x % m == x
  {
    ModIs(x, m, 0, x);
  }

  class BaseUint {
    const pn: array<Word>

    /** The number the digits stand for. */
    ghost function Value(): int
      reads pn
    {
      Val(BASE, pn[..])
    }

    ghost function Modulus(): (m: nat)
      ensures m > 0
    {
      AtZero(pn.Length);
      Radix(pn.Length)
    }

    constructor (width: nat)
      ensures fresh(pn) && pn.Length == width && Value() == 0
    {
      pn := new Word[width](i => 0);
      new;
      ValZero(pn[..]);
    }

    constructor Copy(b: BaseUint)
      ensures fresh(pn) && pn[..] == b.pn[..]
    {
      pn := new Word[b.pn.Length](i requires 0 <= i < b.pn.Length reads b.pn => b.pn[i]);
    }

    /** The loop of operator+=, with the carry out of the last digit. */
    method AddCarry(b: BaseUint) returns (carry: Word64)
      requires b.pn.Length == pn.Length
      modifies pn
      ensures Value() + At(BASE, carry, pn.Length) == old(Value()) + old(b.Value())
    {
      ghost var x, y := pn[..], b.pn[..];
      carry := 0;
      for i := 0 to pn.Length
        invariant 0 <= carry <= 1
        invariant forall j :: i <= j < pn.Length ==> pn[j] == x[j] && b.pn[j] == y[j]
        invariant Val(BASE, pn[..i]) + At(BASE, carry, i) == Val(BASE, x[..i]) + Val(BASE, y[..i])
      {
        var n: Word64 := carry + pn[i] + b.pn[i];
        ghost var done, carry0, sum := pn[..i], carry, (x[i] as int) + y[i];
        pn[i] := n % BASE;
        carry := n / BASE;
        ValPush(BASE, pn[..], done, i);
        ValPush(BASE, x, x[..i], i);
        ValPush(BASE, y, y[..i], i);
        AtAdd(BASE, x[i], y[i], i);
        CarryStep(BASE, i, n, carry0, sum, pn[i], carry);
      }
      assert pn[..pn.Length] == pn[..] && x[..pn.Length] == x && y[..pn.Length] == y;
    }

    /** operator+= */
    method Add(b: BaseUint)
      requires b.pn.Length == pn.Length
      modifies pn
      ensures Value() == (old(Value()) + old(b.Value())) % Modulus()
    {
      var carry := AddCarry(b);
      ValBound(pn[..]);
      ModAt(old(Value()) + old(b.Value()), pn.Length, carry, Value());
    }

    /** The loop of operator++. */
    method IncrementCarry() returns (carry: bool)
      modifies pn
      ensures Value() == old(Value()) + 1 - if carry then Modulus() else 0
    {
      ghost var x := pn[..];
      var i := 0;
      carry := true;
      while i < pn.Length && carry
        invariant 0 <= i <= pn.Length
        invariant Value() == Val(BASE, x) + 1 - if carry then Radix(i) else 0
        decreases pn.Length - i, carry
      {
        ghost var d := pn[..];
        pn[i] := (pn[i] + 1) % BASE;
        assert pn[..] == d[i := pn[i]];
        ValSet(d, i, pn[i]);
        AtAdd(BASE, d[i], 1, i);
        if pn[i] == 0 {
          AtZero(i);
          AtCarry(BASE, 1, i);
          i := i + 1;
        } else {
          carry := false;
        }
      }
    }

    /** operator++ */
    method Increment()
      modifies pn
      ensures Value() == (old(Value()) + 1) % Modulus()
    {
      var carry := IncrementCarry();
      ValBound(pn[..]);
      ModIs(old(Value()) + 1, Modulus(), if carry then 1 else 0, Value());
    }

    /** The loop of operator--. */
    method DecrementBorrow() returns (borrow: bool)
      modifies pn
      ensures Value() == old(Value()) - 1 + if borrow then Modulus() else 0
    {
      ghost var x := pn[..];
      var i := 0;
      borrow := true;
      while i < pn.Length && borrow
        invariant 0 <= i <= pn.Length
        invariant Value() == Val(BASE, x) - 1 + if borrow then Radix(i) else 0
        decreases pn.Length - i, borrow
      {
        ghost var d := pn[..];
        pn[i] := (pn[i] as int - 1) % BASE;
        assert pn[..] == d[i := pn[i]];
        ValSet(d, i, pn[i]);
        AtAdd(BASE, pn[i], 1, i);
        if pn[i] == BASE - 1 {
          AtZero(i);
          AtCarry(BASE, 1, i);
          i := i + 1;
        } else {
          borrow := false;
        }
      }
    }

    /** operator-- */
    method Decrement()
      modifies pn
      ensures Value() == (old(Value()) - 1) % Modulus()
    {
      var borrow := DecrementBorrow();
      ValBound(pn[..]);
      ModIs(old(Value()) - 1, Modulus(), if borrow then -1 else 0, Value());
    }

    /** operator~ */
    method Complement() returns (ret: BaseUint)
      ensures fresh(ret) && fresh(ret.pn) && ret.pn.Length == pn.Length
      ensures ret.Value() == Modulus() - 1 - Value()
    {
      ret := new BaseUint(pn.Length);
      ghost var x := pn[..];
      for i := 0 to pn.Length
        invariant pn[..] == x
        invariant Val(BASE, ret.pn[..i]) == Radix(i) - 1 - Val(BASE, x[..i])
      {
        ghost var done := ret.pn[..i];
        ret.pn[i] := BASE - 1 - pn[i];
        ValPush(BASE, x, x[..i], i);
        ValPush(BASE, ret.pn[..], done, i);
        AtAdd(BASE, ret.pn[i], x[i], i);
        AtAdd(BASE, BASE - 1, 1, i);
        AtCarry(BASE, 1, i);
      }
      assert ret.pn[..pn.Length] == ret.pn[..] && x[..pn.Length] == x;
    }

    /** Unary minus. */
    method Negate() returns (ret: BaseUint)
      ensures fresh(ret) && fresh(ret.pn) && ret.pn.Length == pn.Length
      ensures ret.Value() == if Value() == 0 then 0 else Modulus() - Value()
    {
      ret := Complement();
      var carry := ret.IncrementCarry();
      ValBound(pn[..]);
      ValBound(ret.pn[..]);
    }

    /** operator-= */
    method Subtract(b: BaseUint)
      requires b.pn.Length == pn.Length
      modifies pn
      ensures Value() == (old(Value()) - old(b.Value())) % Modulus()
    {
      ghost var x, y := Value(), b.Value();
      var minus := b.Negate();
      var carry := AddCarry(minus);
      ValBound(pn[..]);
      ghost var c: int := if y == 0 then carry else carry as int - 1;
      AtAdd(BASE, carry, -1, pn.Length);
      AtTimes(BASE, -1, 1, pn.Length);
      ModAt(x - y, pn.Length, c, Value());
    }
  
    /** operator*= by a 32-bit number. */
    method TimesWord(b32: Word)
      modifies pn
      ensures Value() == (b32 * old(Value())) % Modulus()
    {
      ghost var x := pn[..];
      var carry: Word64 := 0;
      for i := 0 to pn.Length
        invariant carry < BASE
        invariant forall j :: i <= j < pn.Length ==> pn[j] == x[j]
        invariant Val(BASE, pn[..i]) + At(BASE, carry, i) == b32 * Val(BASE, x[..i])
      {
        ProductFits(b32, pn[i]);
        var n: Word64 := carry + b32 * pn[i];
        ghost var done, carry0 := pn[..i], carry;
        pn[i] := n % BASE;
        carry := n / BASE;
        ValPush(BASE, pn[..], done, i);
        ValPush(BASE, x, x[..i], i);
        CarryStep(BASE, i, n, carry0, b32 * x[i], pn[i], carry);
        MulStep(b32, Val(BASE, x[..i]), x[i], i);
      }
      assert pn[..pn.Length] == pn[..] && x[..pn.Length] == x;
      ValBound(pn[..]);
      ModAt(b32 * Val(BASE, x), pn.Length, carry, Value());
    }

    /** The inner loop of operator*=: this += x * b * 2^(32 j), up to the last digit. */
    method AddProduct(x: Word, b: BaseUint, j: nat) returns (carry: Word64)
      requires j < pn.Length == b.pn.Length && b.pn != pn
      modifies pn
      ensures Value() + At(BASE, carry, pn.Length) == old(Value()) + At(BASE, x * Val(BASE, b.pn[..pn.Length - j]), j)
    {
      ghost var was, y := pn[..], b.pn[..];
      carry := 0;
      var i := 0;
      AtZero(j);
      while i + j < pn.Length
        invariant 0 <= i <= pn.Length - j && carry < BASE && b.pn[..] == y
        invariant Value() + At(BASE, carry, i + j) == Val(BASE, was) + At(BASE, x * Val(BASE, y[..i]), j)
      {
        ProductFits(x, b.pn[i]);
        var n: Word64 := carry + pn[i + j] + x * b.pn[i];
        ghost var d, carry0 := pn[..], carry;
        pn[i + j] := n % BASE;
        carry := n / BASE;
        assert pn[..] == d[i + j := pn[i + j]];
        ValSet(d, i + j, pn[i + j]);
        ProductStep(x, y, i, j, n, carry0, d[i + j], pn[i + j], carry);
        i := i + 1;
      }
    }

    /** operator*= */
    method Times(b: BaseUint)
      requires b.pn.Length == pn.Length
      modifies pn
      ensures Value() == (old(Value()) * old(b.Value())) % Modulus()
    {
      ghost var x, y, q := pn[..], b.pn[..], 0;
      var a := new BaseUint(pn.Length);
      AtZero(pn.Length);
      for j := 0 to pn.Length
        invariant pn[..] == x && b.pn[..] == y
        invariant a.Value() + At(BASE, q, pn.Length) == Val(BASE, x[..j]) * Val(BASE, y)
      {
        ghost var v := a.Value();
        var carry := a.AddProduct(pn[j], b, j);
        ghost var high := pn[j] * Val(BASE, y[pn.Length - j..]);
        OuterStep(x, y, j, v, a.Value(), q, carry, high);
        q := q + carry + high;
      }
      assert x[..pn.Length] == x;
      ValBound(a.pn[..]);
      ModAt(Val(BASE, x) * Val(BASE, y), pn.Length, q, a.Value());
      Assign(a);
    }

    /** operator= */
    method Assign(b: BaseUint)
      requires b.pn.Length == pn.Length
      modifies pn
      ensures pn[..] == old(b.pn[..])
    {
      forall i | 0 <= i < pn.Length { pn[i] := b.pn[i]; }
    }
  
    /** pn[j] |= x, where all bits of x are above those of pn[j]. */
    method OrDigit(j: nat, x: Word, ghost n: nat)
      requires j < pn.Length && n <= 32 && pn[j] < Pow2(n) && x % Pow2(n) == 0
      modifies pn
      ensures forall i :: 0 <= i < pn.Length && i != j ==> pn[i] == old(pn[i])
      ensures pn[j] == old(pn[j]) + x
      ensures Value() == old(Value()) + At(BASE, x, j)
    {
      ghost var d := pn[..];
      OrWord(pn[j], x, n);
      pn[j] := Or(pn[j], x);
      assert pn[..] == d[j := pn[j]];
      ValSet(d, j, pn[j]);
      AtAdd(BASE, d[j], x, j);
    }

    /** pn[j] |= x, where pn[j] is 0. */
    method PutDigit(j: nat, x: Word)
      requires j < pn.Length && pn[j] == 0
      modifies pn
      ensures forall i :: 0 <= i < pn.Length && i != j ==> pn[i] == old(pn[i])
      ensures pn[j] == x
      ensures Value() == old(Value()) + At(BASE, x, j)
    {
      ghost var d := pn[..];
      pn[j] := Or(pn[j], x);
      assert pn[..] == d[j := pn[j]];
      ValSet(d, j, pn[j]);
      AtZero(j);
    }

    /** The body of the loop of operator<<=; the bits beyond the last digit are lost. */
    method ShiftLeftDigit(hi: Word, lo: Word, j: nat, s: nat) returns (ghost lost: int)
      requires s < 32 && hi < Pow2(s) && lo % Pow2(s) == 0
      requires j < pn.Length ==> pn[j] < Pow2(s)
      requires forall i :: j < i < pn.Length ==> pn[i] == 0
      modifies pn
      ensures forall i :: j + 1 < i < pn.Length ==> pn[i] == 0
      ensures j + 1 < pn.Length ==> pn[j + 1] < Pow2(s)
      ensures Value() + At(BASE, lost, pn.Length) == old(Value()) + At(BASE, lo, j) + At(BASE, hi, j + 1)
    {
      ghost var w, lost' := pn.Length, 0;
      lost := 0;
      AtZero(w);
      AtZero(j + 1);
      if j + 1 < pn.Length && s != 0 {
        PutDigit(j + 1, hi);
      } else if s != 0 {
        lost := At(BASE, hi, j + 1 - w);
        AtSum(hi, j + 1 - w, w);
      }
      if j < pn.Length {
        OrDigit(j, lo, s);
      } else {
        lost' := At(BASE, lo, j - w);
        AtSum(lo, j - w, w);
      }
      AtAdd(BASE, lost, lost', w);
      lost := lost + lost';
    }

    method Clear()
      modifies pn
      ensures Value() == 0 && forall j :: 0 <= j < pn.Length ==> pn[j] == 0
    {
      forall i | 0 <= i < pn.Length { pn[i] := 0; }
      ValZero(pn[..]);
    }

    /** operator<<= */
    method ShiftLeft(shift: nat)
      modifies pn
      ensures Value() == (old(Value()) * Pow2(shift)) % Modulus()
    {
      ghost var x, q := pn[..], 0;
      var a := new BaseUint.Copy(this);
      Clear();
      var k, s := shift / 32, shift % 32;
      assert shift == 32 * k + s;
      AtZero(k);
      AtZero(pn.Length);
      for i := 0 to pn.Length
        invariant a.pn[..] == x
        invariant forall j :: i + k < j < pn.Length ==> pn[j] == 0
        invariant i + k < pn.Length ==> pn[i + k] < Pow2(s)
        invariant Value() + At(BASE, q, pn.Length) == At(BASE, Val(BASE, x[..i]) * Pow2(s), k)
      {
        var hi, lo := LeftBits(a.pn[i], s);
        ghost var before := Value();
        ghost var lost := ShiftLeftDigit(hi, lo, i + k, s);
        LeftMore(x, i, s, k, lo, hi, before, Value(), q, lost, pn.Length);
        q := q + lost;
      }
      assert x[..pn.Length] == x;
      ShiftedValue(pn[..], pn.Length, Val(BASE, x), Value(), s, k, shift, q);
    }

    /** The body of the loop of operator>>=. */
    method ShiftRightDigit(high: Word, low: Word, i: nat, k: nat, s: nat)
      requires i < pn.Length && s < 32 && high < Pow2(32 - s) && low % Pow2(32 - s) == 0 && (s == 0 ==> low == 0)
      requires forall j :: 0 <= j < pn.Length && i - k <= j ==> pn[j] == 0
      requires i > k ==> pn[i - k - 1] < Pow2(32 - s)
      modifies pn
      ensures forall j :: 0 <= j < pn.Length && i - k < j ==> pn[j] == 0
      ensures i >= k ==> pn[i - k] < Pow2(32 - s)
      ensures i < k ==> Value() == old(Value())
      ensures i == k ==> Value() == old(Value()) + high
      ensures i > k ==> Value() == old(Value()) + At(BASE, low, i - k - 1) + At(BASE, high, i - k)
    {
      if i > k { AtZero(i - k - 1); }
      if i - k - 1 >= 0 && s != 0 {
        OrDigit(i - k - 1, low, 32 - s);
      }
      if i - k >= 0 {
        PutDigit(i - k, high);
      }
    }

    /** operator>>= */
    method ShiftRight(shift: nat)
      modifies pn
      ensures Value() == old(Value()) / Pow2(shift)
    {
      ghost var x, rest := pn[..], 0;
      var a := new BaseUint.Copy(this);
      Clear();
      var k, s := shift / 32, shift % 32;
      for i := 0 to pn.Length
        invariant a.pn[..] == x
        invariant forall j :: 0 <= j < pn.Length && i - k <= j ==> pn[j] == 0
        invariant i > k ==> pn[i - k - 1] < Pow2(32 - s)
        invariant RightDone(x, i, k, s, Value(), rest)
      {
        ghost var v := Value();
        var high, low, r := RightBits(a.pn[i], s);
        ShiftRightDigit(high, low, i, k, s);
        rest := RightNext(x, i, k, s, v, Value(), rest, high, low, r);
      }
      assert x[..pn.Length] == x;
      RightAll(x, k, s, shift, Value(), rest);
    }
  
    /** Numeric order: the sign of this - b. */
    method CompareTo(b: BaseUint) returns (r: int)
      requires b.pn.Length == pn.Length
      ensures r in {-1, 0, 1}
      ensures r < 0 <==> Value() < b.Value()
      ensures r > 0 <==> Value() > b.Value()
    {
      var i := pn.Length;
      while i > 0
        invariant 0 <= i <= pn.Length && pn[i..] == b.pn[i..]
      {
        i := i - 1;
        if pn[i] < b.pn[i] { DigitDecides(pn[..], b.pn[..], i); return -1; }
        if pn[i] > b.pn[i] { DigitDecides(b.pn[..], pn[..], i); return 1; }
      }
      assert pn[..] == pn[0..] && b.pn[..] == b.pn[0..];
      return 0;
    }

    /** The position of the highest bit set plus one, or zero. */
    method Bits() returns (n: nat)
      ensures IsBits(Value(), n) && n <= 32 * pn.Length
    {
      var pos := pn.Length;
      while pos > 0
        invariant 0 <= pos <= pn.Length && forall j :: pos <= j < pn.Length ==> pn[j] == 0
      {
        pos := pos - 1;
        if pn[pos] != 0 {
          var top := HighestBit(pn[pos]);
          TopDigit(pn[..], pos, top);
          return 32 * pos + top + 1;
        }
      }
      ValZero(pn[..]);
      return 0;
    }

    /** operator=(uint64_t) */
    method Set(b: Word64)
      requires pn.Length >= 2
      modifies pn
      ensures Value() == b
    {
      Clear();
      pn[0] := b % BASE;
      ghost var d := pn[..];
      pn[1] := b / BASE;
      LowDigits(pn[..], b);
    }

    /** The low 64 bits. */
    method GetLow64() returns (r: Word64)
      requires pn.Length >= 2
      ensures r == Value() % (BASE * BASE)
    {
      Pow2Word();
      MulMod(pn[1], BASE);
      OrDisjoint(pn[0], pn[1] * BASE, 32);
      r := Or(pn[0], pn[1] * BASE);
      ValSplit(pn[..], 2);
      assert pn[..2] == [pn[0], pn[1]];
      assert Val(BASE, pn[..2]) == pn[0] + BASE * pn[1] by { TwoDigits(pn[0], pn[1]); }
      ValBound(pn[2..]);
      AtTimes(BASE, Val(BASE, pn[2..]), 1, 2);
      assert Radix(2) == BASE * BASE;
      ModIs(Value(), BASE * BASE, Val(BASE, pn[2..]), r);
    }
  
    /** Set bit `n` of a number that has no bit set up to there. */
    method SetBit(n: nat)
      requires n / 32 < pn.Length && LowZero(pn[..], n + 1)
      modifies pn
      ensures Value() == old(Value()) + Pow2(n) && LowZero(pn[..], n)
    {
      var j, s := n / 32, n % 32;
      ghost var d := pn[..];
      ghost var word := SetBitValue(d, n, j, s, Pow2(s));
      pn[j] := Or(pn[j], Pow2(s));
      assert pn[..] == d[j := word];
    }

    /** operator<<= that loses no bits. */
    method Align(shift: nat)
      requires 0 <= Aligned(Value(), shift) < Modulus()
      modifies pn
      ensures Value() == Aligned(old(Value()), shift)
    {
      AlignedIs(Value(), shift);
      Remains(Aligned(Value(), shift), Modulus());
      ShiftLeft(shift);
    }

    /** operator-= that does not wrap around. */
    method TakeAway(b: BaseUint)
      requires b.pn.Length == pn.Length && b.pn != pn && b.Value() <= Value()
      modifies pn
      ensures Value() == old(Value()) - b.Value()
    {
      ValBound(pn[..]);
      ValBound(b.pn[..]);
      Remains(Value() - b.Value(), Modulus());
      Subtract(b);
    }

    method Halve()
      modifies pn
      ensures Value() == old(Value()) / 2
    {
      ShiftRight(1);
      assert Pow2(1) == 2;
    }

    /** The loop of operator/=: `this` is 0 and `div` aligned. */
    method LongDivide(div: BaseUint, num: BaseUint, bits: nat, ghost d: int, ghost next: nat)
      requires pn.Length == div.pn.Length == num.pn.Length && pn != div.pn && pn != num.pn && div.pn != num.pn
      requires bits < 32 * pn.Length && next == bits + 1 && LowZero(pn[..], next) && Value() == 0
      requires Dividing(num.Value(), d, 0, num.Value(), next) && div.Value() == Aligned(d, bits)
      modifies pn, div.pn, num.pn
      ensures Dividing(old(num.Value()), d, Value(), num.Value(), 0)
    {
      ghost var n := num.Value();
      var shift: int := bits;
      while shift >= 0
        invariant -1 <= shift <= bits
        invariant shift >= 0 ==> div.Value() == Aligned(d, shift)
        invariant LowZero(pn[..], shift + 1)
        invariant Dividing(n, d, Value(), num.Value(), shift + 1)
      {
        DivideOnce(div, num, shift, n, d);
        div.Halve();
        shift := shift - 1;
      }
    }

    /** One round of the loop, up to where `div` is shifted back. */
    method DivideOnce(div: BaseUint, num: BaseUint, shift: nat, ghost n: int, ghost d: int)
      requires pn.Length == div.pn.Length == num.pn.Length && pn != div.pn && pn != num.pn && div.pn != num.pn
      requires shift < 32 * pn.Length && LowZero(pn[..], shift + 1)
      requires Dividing(n, d, Value(), num.Value(), shift + 1) && div.Value() == Aligned(d, shift)
      modifies pn, num.pn
      ensures Dividing(n, d, Value(), num.Value(), shift) && LowZero(pn[..], shift)
    {
      var c := num.CompareTo(div);
      if c >= 0 {
        DivideTakes(n, d, Value(), num.Value(), shift + 1);
        num.TakeAway(div);
        SetBit(shift);
      } else {
        DivideSkips(n, d, Value(), num.Value(), shift + 1);
        LowZeroLess(pn[..], shift);
      }
    }

    /** The quotient of `num` by `div`, which has no more bits than `num`. */
    method DivideBits(div: BaseUint, num: BaseUint, numBits: nat, divBits: nat)
      requires pn.Length == div.pn.Length == num.pn.Length && pn != div.pn && pn != num.pn && div.pn != num.pn
      requires IsBits(num.Value(), numBits) && IsBits(div.Value(), divBits) && 0 < divBits <= numBits <= 32 * pn.Length
      requires forall j :: 0 <= j < pn.Length ==> pn[j] == 0
      modifies pn, div.pn, num.pn
      ensures Dividing(old(num.Value()), old(div.Value()), Value(), num.Value(), 0)
    {
      ghost var d, n := div.Value(), num.Value();
      var shift := numBits - divBits;
      ghost var next := shift + 1;
      ValBound(num.pn[..]);
      DivideFits(n, d, numBits, divBits, shift, next, pn.Length);
      div.Align(shift);
      ZeroLow(pn[..], next);
      assert num.Value() == n;
      LongDivide(div, num, shift, d, next);
    }

    /** operator/=. It fails, leaving 0, if the divisor is 0; otherwise `rest` is
        what is left of the dividend. */
    method Divide(b: BaseUint) returns (ok: bool, ghost rest: int)
      requires b.pn.Length == pn.Length >= 2
      modifies pn
      ensures ok <==> old(b.Value()) != 0
      ensures !ok ==> Value() == 0
      ensures ok ==> Value() == old(Value()) / old(b.Value()) && rest == old(Value()) % old(b.Value())
    {
      ghost var n, d := Value(), b.Value();
      ValBound(pn[..]);
      ValBound(b.pn[..]);
      var div := new BaseUint.Copy(b);
      var num := new BaseUint.Copy(this);
      Clear();
      var numBits := num.Bits();
      var divBits := div.Bits();
      ok := divBits != 0;
      assert ok <==> d != 0 by { SomeBits(d, divBits); }
      if divBits > numBits {
        Pow2Le(numBits, divBits - 1);
      } else if ok {
        DivideBits(div, num, numBits, divBits);
      }
      rest := num.Value();
      if ok {
        assert Dividing(n, d, Value(), rest, 0);
        QuotRem(n, d, Value(), rest);
      }
    }
  }
}
