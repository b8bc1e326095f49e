/**
 The compact format of difficulty targets: a number as a 23-bit mantissa, a
 sign and a count of bytes.
 */
module Compact {
  import opened ArithLimbs
  import opened ArithUint
  import opened Helpers

  const MANTISSA: int := 0x80_0000
  const EXPONENT: int := 0x100_0000

  // ----- what a compact number means

  function SizeOf(n: Word): int { n / EXPONENT }
  function SignOf(n: Word): bool { n / MANTISSA % 2 == 1 }

  /** The mantissa, less the bytes of it that are behind the point. */
  function WordOf(n: Word): int {
    var size := SizeOf(n);
    if size <= 3 then n % MANTISSA / Pow2(8 * (3 - size)) else n % MANTISSA
  }

  /** The number it stands for, whether or not it fits. */
  ghost function Expanded(n: Word): int {
    var size := SizeOf(n);
    if size <= 3 then WordOf(n) else WordOf(n) * Pow2(8 * (size - 3))
  }

  /** The first byte counts the bytes, the other three come first; the sign is the highest bit
      of these. */
  lemma Examples()
    ensures Expanded(0x04123456) == 0x12345600 && !SignOf(0x04123456)
    ensures Expanded(0x05009234) == 0x92340000 && !SignOf(0x05009234)
    ensures Expanded(0x01fedcba) == 0x7e && SignOf(0x01fedcba)
    ensures Expanded(0x02123456) == 0x1234 && Expanded(0x01003456) == 0
  {
    SmallPowers();
  }

  /** The test SetCompact makes. */
  predicate Overflows(word: int, size: int) {
    word != 0 && (size > 34 || (word > 0xff && size > 33) || (word > 0xffff && size > 32))
  }

  lemma WordBound(n: Word)
    ensures 0 <= WordOf(n) < MANTISSA && 0 <= SizeOf(n) < 256
  {
    if SizeOf(n) <= 3 {
      var q, r := DivMod(n % MANTISSA, Pow2(8 * (3 - SizeOf(n))));
    }
  }

  lemma TimesReaches(w: nat, a: nat, b: nat)
    ensures w * Pow2(a) >= Pow2(a + b) <==> w >= Pow2(b)
  {
    Pow2Add(a, b);
    if w >= Pow2(b) { TimesLe(Pow2(b), w, Pow2(a)); } else { TimesLess(w, Pow2(b), Pow2(a)); }
  }

  lemma SmallPowers()
    ensures Pow2(8) == 0x100 && Pow2(15) == 0x8000 && Pow2(16) == 0x1_0000 && Pow2(23) == MANTISSA &&
            Pow2(24) == EXPONENT
  {
    assert Pow2(8) == 0x100;
    Pow2Add(8, 7);
    Pow2Add(8, 8);
    Pow2Add(16, 7);
    Pow2Add(16, 8);
  }

  lemma OverflowAt(w: nat, size: nat, bits: nat)
    requires w < MANTISSA && size > 3 && bits == 256
    ensures Overflows(w, size) <==> w * Pow2(8 * (size - 3)) >= Pow2(bits)
  {
    var a := 8 * (size - 3);
    SmallPowers();
    if a <= bits {
      TimesReaches(w, a, bits - a);
      if size <= 32 { Pow2Le(24, bits - a); }
    } else {
      Pow2Le(bits, a);
      if w > 0 { TimesLe(1, w, Pow2(a)); }
    }
  }

  /** The overflow flag is set exactly if the number needs more than 256 bits. */
  lemma OverflowExact(n: Word, bits: nat)
    requires bits == 256
    ensures Overflows(WordOf(n), SizeOf(n)) <==> Expanded(n) >= Pow2(bits)
  {
    WordBound(n);
    SmallPowers();
    Pow2Le(23, bits);
    if SizeOf(n) > 3 { OverflowAt(WordOf(n), SizeOf(n), bits); }
  }

  // ----- from a number to its compact form

  /** The number of bits of `x`. */
  ghost function Length(x: nat): nat {
    if x == 0 then 0 else 1 + Length(x / 2)
  }

  lemma {:induction false} LengthIsBits(x: nat)
    ensures IsBits(x, Length(x))
  {
    if x > 0 { LengthIsBits(x / 2); }
  }

  lemma BitsUnique(x: int, m: nat, n: nat)
    requires IsBits(x, m) && IsBits(x, n) && x >= 0
    ensures m == n
  {
    if m < n { Pow2Le(m, n - 1); }
    if n < m { Pow2Le(n, m - 1); }
  }

  lemma {:induction false} LengthMonotone(x: nat, y: nat)
    requires x <= y
    ensures Length(x) <= Length(y)
  {
    if x > 0 { LengthMonotone(x / 2, y / 2); }
  }

  /** The number in units of 256^(size - 3), rounded down. */
  ghost function Scaled(x: nat, size: nat): int {
    if size <= 3 then x * Pow2(8 * (3 - size)) else x / Pow2(8 * (size - 3))
  }

  /** The number of bytes, counting one more for the sign if the top bit is taken. */
  ghost function Bytes(x: nat): nat { if x == 0 then 0 else Length(x) / 8 + 1 }

  /** The compact form of a number. */
  ghost function CompactOf(x: nat): int { Scaled(x, Bytes(x)) + Bytes(x) * EXPONENT }

  lemma DivDiv(x: nat, p: nat, q: nat)
    requires p > 0 && q > 0
    ensures x / p / q == x / (p * q)
  {
    var a, r := DivMod(x, p);
    var b, t := DivMod(a, q);
    // x == (b q + t) p + r
    assert x == b * (p * q) + (t * p + r) by { Regroup(b, q, t, p, r); }
    TimesLe(t + 1, q, p);
    QuotRem(x, p * q, b, t * p + r);
  }

  lemma Regroup(b: int, q: int, t: int, p: int, r: int)
    ensures (b * q + t) * p + r == b * (p * q) + (t * p + r)
  {
  }

  lemma ScaledNext(x: nat, size: nat)
    ensures Scaled(x, size) / 256 == Scaled(x, size + 1)
  {
    SmallPowers();
    if size < 3 {
      Pow2Add(8 * (2 - size), 8);
      assert 8 * (2 - size) + 8 == 8 * (3 - size);
      Associate(x, Pow2(8 * (2 - size)), 256);
      QuotRem(Scaled(x, size), 256, x * Pow2(8 * (2 - size)), 0);
    } else if size == 3 {
      assert Pow2(0) == 1;
    } else {
      Pow2Add(8 * (size - 3), 8);
      DivDiv(x, Pow2(8 * (size - 3)), 256);
    }
  }

  /** A number of at most 8 size bits has at most 24 bits when scaled. */
  lemma ScaledBound(x: nat, size: nat, n: nat)
    requires x < Pow2(n) && n <= 8 * size && n + 24 >= 8 * size
    ensures Scaled(x, size) < Pow2(n + 24 - 8 * size)
  {
    if size <= 3 {
      Pow2Add(n, 8 * (3 - size));
      TimesLess(x, Pow2(n), Pow2(8 * (3 - size)));
    } else {
      var a := 8 * (size - 3);
      Pow2Add(n - a, a);
      var q, r := DivMod(x, Pow2(a));
      LessByTimes(q, Pow2(n - a), Pow2(a));
    }
  }

  lemma ScaledAtLeast(x: nat, size: nat, n: nat)
    requires x >= Pow2(n) && n + 24 >= 8 * size
    ensures Scaled(x, size) >= Pow2(n + 24 - 8 * size)
  {
    if size <= 3 {
      Pow2Add(n, 8 * (3 - size));
      TimesLe(Pow2(n), x, Pow2(8 * (3 - size)));
    } else {
      var a := 8 * (size - 3);
      Pow2Add(n - a, a);
      var q, r := DivMod(x, Pow2(a));
      TimesLess(x, (q + 1) * Pow2(a), 1);
      LessByTimes(Pow2(n - a), q + 1, Pow2(a));
    }
  }

  /** A nonzero mantissa has 16 to 23 bits. */
  lemma MantissaRange(x: nat)
    requires x > 0
    ensures 0x8000 <= Scaled(x, Bytes(x)) < MANTISSA
  {
    var len, e := Length(x), Bytes(x);
    LengthIsBits(x);
    SmallPowers();
    ScaledBound(x, e, len);
    ScaledAtLeast(x, e, len - 1);
    Pow2Le(len + 24 - 8 * e, 23);
    Pow2Le(15, len - 1 + 24 - 8 * e);
  }

  // ----- the properties of the round trip

  /** GetCompact keeps the order of numbers. */
  lemma CompactMonotone(x: nat, y: nat)
    requires x <= y
    ensures CompactOf(x) <= CompactOf(y)
  {
    LengthMonotone(x, y);
    if y > 0 { MantissaRange(y); }
    if x > 0 { MantissaRange(x); }
    ScaledMonotone(x, y, Bytes(x));
    FieldsOrder(Scaled(x, Bytes(x)), Bytes(x), Scaled(y, Bytes(y)), Bytes(y));
  }

  lemma FieldsOrder(m: int, e: int, m': int, e': int)
    requires 0 <= m < MANTISSA && 0 <= m' && e <= e' && (e == e' ==> m <= m')
    ensures m + e * EXPONENT <= m' + e' * EXPONENT
  {
  }

  lemma ScaledMonotone(x: nat, y: nat, size: nat)
    requires x <= y
    ensures Scaled(x, size) <= Scaled(y, size)
  {
    if size <= 3 {
      TimesLe(x, y, Pow2(8 * (3 - size)));
    } else {
      var p := Pow2(8 * (size - 3));
      var a, r := DivMod(x, p);
      var b, t := DivMod(y, p);
      if b < a { TimesLe(b + 1, a, p); assert false; }
    }
  }

  lemma Fields(mantissa: int, size: int)
    requires 0 <= mantissa < MANTISSA && 0 <= size < 256
    ensures var n := mantissa + size * EXPONENT;
            0 <= n < 0x1_0000_0000 && n / EXPONENT == size && n % MANTISSA == mantissa && n / MANTISSA % 2 == 0
  {
    var n := mantissa + size * EXPONENT;
    assert n == mantissa + (2 * size) * MANTISSA;
  }

  lemma CompactWord(x: nat) returns (n: Word)
    requires Length(x) <= 256
    ensures n == CompactOf(x) && SizeOf(n) == Bytes(x) && n % MANTISSA == Scaled(x, Bytes(x)) && !SignOf(n)
  {
    if x > 0 { MantissaRange(x); }
    Fields(Scaled(x, Bytes(x)), Bytes(x));
    n := CompactOf(x);
  }

  /** Scaling back down gives a number not above the original, and short of it by
      less than the unit. */
  lemma Rescaled(x: nat, size: nat)
    ensures size <= 3 ==> Scaled(x, size) / Pow2(8 * (3 - size)) == x
    ensures size > 3 ==> 0 <= x - Scaled(x, size) * Pow2(8 * (size - 3)) < Pow2(8 * (size - 3))
  {
    if size <= 3 {
      QuotRem(Scaled(x, size), Pow2(8 * (3 - size)), x, 0);
    } else {
      var q, r := DivMod(x, Pow2(8 * (size - 3)));
    }
  }

  /** The number a target becomes when stored in compact form. */
  ghost function Rounded(x: nat): int {
    var size := Bytes(x);
    if size <= 3 then x else Scaled(x, size) * Pow2(8 * (size - 3))
  }

  lemma ExpandFields(n: Word, x: nat, size: nat)
    requires SizeOf(n) == size && n % MANTISSA == Scaled(x, size)
    ensures Expanded(n) == if size <= 3 then x else Scaled(x, size) * Pow2(8 * (size - 3))
    ensures WordOf(n) == if size <= 3 then x else Scaled(x, size)
  {
    if size <= 3 { Rescaled(x, size); }
  }

  lemma ExpandedCompact(x: nat) returns (n: Word)
    requires Length(x) <= 256
    ensures n == CompactOf(x) && Expanded(n) == Rounded(x) && (WordOf(n) != 0 <==> x != 0) && !SignOf(n)
  {
    n := CompactWord(x);
    ExpandFields(n, x, Bytes(x));
    if x > 0 { MantissaRange(x); }
  }

  /** Compact form loses less than one part in 2^15, and never rounds up. */
  lemma RoundedClose(x: nat)
    ensures 0 <= Rounded(x) <= x && (x - Rounded(x)) * 0x8000 <= x
  {
    var size := Bytes(x);
    if size > 3 {
      var a := 8 * (size - 3);
      Rescaled(x, size);
      MantissaRange(x);
      LengthIsBits(x);
      SmallPowers();
      Pow2Add(a, 15);
      Pow2Le(a + 15, Length(x) - 1);
      TimesLe(0, Scaled(x, size), Pow2(a));
    }
  }

  /** A multiple of p below x is not above the last multiple of p before x. */
  lemma KeepsMultiple(x: int, s: int, t: int, p: int)
    requires p > 0 && t * p <= x && x - s * p < p
    ensures t * p <= s * p
  {
    LessByTimes(t, s + 1, p);
    TimesLe(t, s, p);
  }

  /** The top bit is a multiple of the unit, so rounding keeps it. */
  lemma RoundedTop(x: nat, size: nat, a: nat, len: nat)
    requires size == Bytes(x) > 3 && a == 8 * (size - 3) && len == Length(x)
    ensures Pow2(len - 1) <= Scaled(x, size) * Pow2(a)
  {
    LengthIsBits(x);
    Pow2Add(len - 1 - a, a);
    Rescaled(x, size);
    KeepsMultiple(x, Scaled(x, size), Pow2(len - 1 - a), Pow2(a));
  }

  lemma RoundedKeepsLength(x: nat)
    ensures 0 <= Rounded(x) && Length(Rounded(x)) == Length(x)
  {
    RoundedClose(x);
    var size, y, len := Bytes(x), Rounded(x), Length(x);
    if size > 3 {
      RoundedTop(x, size, 8 * (size - 3), len);
      LengthIsBits(x);
      LengthIsBits(y);
      BitsUnique(y, len, Length(y));
    }
  }

  /** What has been through the compact form once is not changed by it again. */
  lemma CompactIdempotent(x: nat)
    ensures 0 <= Rounded(x) && CompactOf(Rounded(x)) == CompactOf(x) && Rounded(Rounded(x)) == Rounded(x)
  {
    RoundedKeepsLength(x);
    var size, y := Bytes(x), Rounded(x);
    if size > 3 {
      var p := Pow2(8 * (size - 3));
      MantissaRange(x);
      TimesLe(1, Scaled(x, size), p);
      QuotRem(y, p, Scaled(x, size), 0);
    }
  }

  // ----- the sign

  /** The compact form with the sign bit. */
  ghost function SignedCompactOf(x: nat, negative: bool): int {
    CompactOf(x) + if negative && x != 0 then MANTISSA else 0
  }

  lemma SignFields(n: Word)
    requires !SignOf(n) && n + MANTISSA < 0x1_0000_0000
    ensures var m: Word := n + MANTISSA; SizeOf(m) == SizeOf(n) && m % MANTISSA == n % MANTISSA && SignOf(m)
  {
  }

  /** SetCompact after GetCompact: never more than the original, short of it by
      less than one part in 2^15, with the sign it was given and no overflow, and
      compacting again changes nothing. */
  lemma CompactRoundTrip(x: nat, negative: bool) returns (n: Word)
    requires Length(x) <= 256
    ensures n == SignedCompactOf(x, negative)
    ensures Expanded(n) == Rounded(x) && 0 <= Rounded(x) <= x && (x - Rounded(x)) * 0x8000 <= x
    ensures WordOf(n) != 0 && SignOf(n) <==> negative && x != 0
    ensures SignedCompactOf(Rounded(x), negative) == n
  {
    n := ExpandedCompact(x);
    RoundedClose(x);
    CompactIdempotent(x);
    RoundedZero(x);
    if negative && x != 0 {
      SignRoom(x);
      SignFields(n);
      n := n + MANTISSA;
    }
  }

  lemma RoundedZero(x: nat)
    ensures Rounded(x) == 0 <==> x == 0
  {
    RoundedKeepsLength(x);
  }

  lemma SignRoom(x: nat)
    requires 0 < x && Length(x) <= 256
    ensures CompactOf(x) + MANTISSA < 0x1_0000_0000
  {
    MantissaRange(x);
  }

  // ----- the methods

  lemma FewBits(x: nat, bits: nat)
    requires x < Pow2(bits)
    ensures Length(x) <= bits
  {
    LengthIsBits(x);
    if Length(x) > 0 { Pow2Order(Length(x) - 1, bits); }
  }

  lemma Pow2Order(m: nat, n: nat)
    requires Pow2(m) < Pow2(n)
    ensures m < n
  {
    if n <= m { Pow2Le(n, m); }
  }

  lemma ModulusIs(target: BaseUint)
    requires target.pn.Length == 8
    ensures target.Modulus() == Pow2(32 * target.pn.Length) >= Pow2(24)
  {
    AtIsPow2(1, target.pn.Length);
    Pow2Le(24, 32 * target.pn.Length);
  }

  /** The value SetCompact stores, the overflow lost. */
  method SetWord(target: BaseUint, word: int, size: int)
    requires target.pn.Length == 8 && 0 <= word < MANTISSA
    modifies target.pn
    ensures target.Value() == (if size <= 3 then word else word * Pow2(8 * (size - 3))) % target.Modulus()
  {
    target.Set(word);
    if size <= 3 {
      ModulusIs(target);
      SmallPowers();
      Remains(word, target.Modulus());
    } else {
      target.ShiftLeft(8 * (size - 3));
    }
  }

  /** SetCompact: the number, whether it is negative, and whether it is too large. */
  method SetCompact(target: BaseUint, n: Word) returns (negative: bool, overflow: bool)
    requires target.pn.Length == 8
    modifies target.pn
    ensures target.Value() == Expanded(n) % target.Modulus()
    ensures negative <==> WordOf(n) != 0 && SignOf(n)
    ensures overflow <==> Expanded(n) >= target.Modulus()
  {
    var size, word := n / EXPONENT, n % MANTISSA;
    WordBound(n);
    if size <= 3 { word := word / Pow2(8 * (3 - size)); }
    SetWord(target, word, size);
    negative := word != 0 && n / MANTISSA % 2 == 1;
    overflow := word != 0 && (size > 34 || (word > 0xff && size > 33) || (word > 0xffff && size > 32));
    assert overflow <==> Expanded(n) >= target.Modulus() by {
      OverflowExact(n, 32 * target.pn.Length);
      ModulusIs(target);
    }
  }

  /** The size by bits, corrected for the sign bit, is the number of bytes. */
  lemma SizeByBits(x: nat, bits: nat, size: nat)
    requires IsBits(x, bits) && size == (bits + 7) / 8
    ensures 0 <= Scaled(x, size) < EXPONENT
    ensures Scaled(x, size) >= MANTISSA ==> size + 1 == Bytes(x)
    ensures Scaled(x, size) < MANTISSA ==> size == Bytes(x)
  {
    LengthIsBits(x);
    BitsUnique(x, bits, Length(x));
    SmallPowers();
    if x > 0 {
      if bits % 8 == 0 {
        FullBytes(x, bits, size, bits - 1);
        assert size + 1 == Bytes(x);
      } else {
        assert size == Bytes(x);
        MantissaRange(x);
      }
    }
  }

  /** The top bit of the first byte is set. */
  lemma FullBytes(x: nat, bits: nat, size: nat, low: nat)
    requires x > 0 && IsBits(x, bits) && bits == 8 * size && low == bits - 1
    ensures MANTISSA <= Scaled(x, size) < EXPONENT
  {
    SmallPowers();
    ScaledBound(x, size, bits);
    ScaledAtLeast(x, size, low);
    assert low + 24 - 8 * size == 23 && bits + 24 - 8 * size == 24;
  }

  /** The first three bytes of the number, as GetCompact finds them. */
  method TopBytes(target: BaseUint, size: nat) returns (word: Word)
    requires target.pn.Length == 8 && 0 <= target.Value() && (size <= 3 ==> target.Value() < EXPONENT)
    requires 0 <= Scaled(target.Value(), size) < EXPONENT
    ensures word == Scaled(target.Value(), size)
  {
    if size <= 3 {
      var low := target.GetLow64();
      Remains(target.Value(), BASE * BASE);
      Remains(low * Pow2(8 * (3 - size)), BASE);
      word := low * Pow2(8 * (3 - size)) % BASE;
    } else {
      var bn := new BaseUint.Copy(target);
      bn.ShiftRight(8 * (size - 3));
      var low := bn.GetLow64();
      Remains(bn.Value(), BASE * BASE);
      word := low % BASE;
    }
  }

  /** GetCompact. */
  method GetCompact(target: BaseUint, negative: bool) returns (n: Word)
    requires target.pn.Length == 8
    ensures target.Value() >= 0 && n == SignedCompactOf(target.Value(), negative)
  {
    ghost var x := target.Value();
    ValBound(target.pn[..]);
    var bits := target.Bits();
    var size := (bits + 7) / 8;
    SizeByBits(x, bits, size);
    if size <= 3 { SmallPowers(); Pow2Le(bits, 24); }
    var word := TopBytes(target, size);
    word, size := ClearSign(word, size, x);
    FewBits(x, bits);
    n := Assemble(word, size, negative, x);
  }

  /** A mantissa whose highest bit is set would be read as negative: it gives up a byte. */
  method ClearSign(word: Word, size: nat, ghost x: nat) returns (word': Word, size': nat)
    requires word == Scaled(x, size) && word < EXPONENT
    requires (word >= MANTISSA ==> size + 1 == Bytes(x)) && (word < MANTISSA ==> size == Bytes(x))
    ensures word' == Scaled(x, Bytes(x)) && size' == Bytes(x)
  {
    word', size' := word, size;
    if word / MANTISSA % 2 == 1 {
      ScaledNext(x, size);
      word', size' := word / 256, size + 1;
    }
  }

  method Assemble(word: Word, size: nat, negative: bool, ghost x: nat) returns (n: Word)
    requires Length(x) <= 256 && word == Scaled(x, Bytes(x)) && size == Bytes(x)
    ensures n == SignedCompactOf(x, negative)
  {
    ghost var r := CompactWord(x);
    n := word + size * EXPONENT;
    if x > 0 { MantissaRange(x); SignRoom(x); }
    if negative && word != 0 { n := n + MANTISSA; }
  }
}
