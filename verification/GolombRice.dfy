/**
 Golomb-Rice codes in a stream of bits.
 */
module GolombRice {
  import opened Helpers

  type Bits = seq<bool>

  // ----- a number in a fixed number of bits, highest first

  function BitsOf(x: nat, p: nat): (b: Bits)
    ensures |b| == p
  {
    if p == 0 then [] else BitsOf(x / 2, p - 1) + [x % 2 == 1]
  }

  function ValueOf(b: Bits): nat {
    if |b| == 0 then 0 else 2 * ValueOf(b[..|b| - 1]) + if b[|b| - 1] then 1 else 0
  }

  lemma {:induction false} BitsValue(x: nat, p: nat)
    ensures ValueOf(BitsOf(x, p)) == x % Pow2(p)
  {
    if p > 0 {
      BitsValue(x / 2, p - 1);
      assert BitsOf(x, p)[..p - 1] == BitsOf(x / 2, p - 1);
      HalfMod(x, Pow2(p - 1));
    }
  }

  lemma HalfMod(x: nat, m: nat)
    requires m > 0
    ensures x % (2 * m) == 2 * (x / 2 % m) + x % 2
  {
    var q, r := x / 2 / m, x / 2 % m;
    assert x / 2 == q * m + r;
    assert x == q * (2 * m) + (2 * r + x % 2);
    QuotRem(x, 2 * m, q, 2 * r + x % 2);
  }

  // ----- the code

  function Ones(n: nat): Bits { seq(n, i => true) }

  function Quotient(x: nat, p: nat): nat { Shifted(x, Pow2(p)) }

  function Shifted(x: nat, m: nat): (q: nat)
    requires m > 0
    ensures q * m + x % m == x
  {
    x / m
  }

  /** The quotient by 2^p in unary, a 0, and the remainder in p bits. */
  function Code(p: nat, x: nat): Bits { Ones(Quotient(x, p)) + [false] + BitsOf(x, p) }

  predicate BitSet(x: nat, k: nat) { x / Pow2(k) % 2 == 1 }

  lemma {:induction false} BitAt(x: nat, p: nat, j: nat)
    requires j < p
    ensures BitsOf(x, p)[j] <==> BitSet(x, p - 1 - j)
  {
    if j < p - 1 {
      BitAt(x / 2, p - 1, j);
      DivTwice(x, Pow2(p - 2 - j));
    } else {
      assert Pow2(0) == 1;
    }
  }

  lemma DivTwice(x: nat, m: nat)
    requires m > 0
    ensures x / 2 / m == x / (2 * m)
  {
    var q, r := x / 2 / m, x / 2 % m;
    assert x == q * (2 * m) + (2 * r + x % 2);
    QuotRem(x, 2 * m, q, 2 * r + x % 2);
  }

  /** As many ones as the quotient says, a zero, and the bits of the remainder from the
      highest on. */
  lemma CodeShape(p: nat, x: nat, q: nat)
    requires q == x / Pow2(p)
    ensures |Code(p, x)| == q + 1 + p && !Code(p, x)[q] && (forall i :: 0 <= i < q ==> Code(p, x)[i])
    ensures var rest := Code(p, x)[q + 1..]; forall j :: 0 <= j < p ==> (rest[j] <==> BitSet(x, p - 1 - j))
  {
    assert Code(p, x)[q + 1..] == BitsOf(x, p);
    forall j | 0 <= j < p ensures BitsOf(x, p)[j] <==> BitSet(x, p - 1 - j) { BitAt(x, p, j); }
  }

  /** At most 64 bits are written at a time. */
  method WriteOnes(bits: Bits, n: nat) returns (r: Bits)
    ensures r == bits + Ones(n)
  {
    r := bits;
    var q := n;
    while q > 0
      invariant 0 <= q <= n && r == bits + Ones(n - q)
    {
      var k := if q <= 64 then q else 64;
      r := r + Ones(k);
      q := q - k;
    }
  }

  /** GolombRiceEncode appends the code. */
  method Encode(bits: Bits, p: nat, x: nat) returns (r: Bits)
    ensures r == bits + Code(p, x)
  {
    r := WriteOnes(bits, Quotient(x, p));
    r := r + [false];
    r := r + BitsOf(x, p);
  }

  /** The number of ones at the start. */
  function Unary(b: Bits): (n: nat)
    ensures n <= |b| && (forall i :: 0 <= i < n ==> b[i]) && (n < |b| ==> !b[n])
  {
    if |b| == 0 || !b[0] then 0 else 1 + Unary(b[1..])
  }

  /** The value at the start of the stream and the number of bits it takes; none if
      the stream ends before it is complete. */
  function Decoded(b: Bits, p: nat): Option<(nat, nat)> {
    var q := Unary(b);
    if q + 1 + p > |b| then None else Some((q * Pow2(p) + ValueOf(b[q + 1..q + 1 + p]), q + 1 + p))
  }

  method Decode(b: Bits, start: nat, p: nat) returns (r: Option<(nat, nat)>)
    requires start <= |b|
    ensures r == Decoded(b[start..], p)
  {
    ghost var s := b[start..];
    var q := 0;
    while start + q < |b| && b[start + q]
      invariant start + q <= |b| && forall i :: 0 <= i < q ==> s[i]
    {
      assert s[q] == b[start + q];
      q := q + 1;
    }
    assert start + q < |b| ==> !s[q];
    UnaryIs(s, q);
    if start + q + 1 + p > |b| { return None; }
    assert s[q + 1..q + 1 + p] == b[start + q + 1..start + q + 1 + p];
    r := Some((q * Pow2(p) + ValueOf(b[start + q + 1..start + q + 1 + p]), q + 1 + p));
  }

  lemma UnaryIs(b: Bits, n: nat)
    requires n <= |b| && (forall i :: 0 <= i < n ==> b[i]) && (n < |b| ==> !b[n])
    ensures Unary(b) == n
  {
  }

  lemma PartsDecode(q: nat, b: Bits, rest: Bits, p: nat, m: nat)
    requires |b| == p && m == Pow2(p)
    ensures Decoded(Ones(q) + [false] + b + rest, p) == Some((q * m + ValueOf(b), q + 1 + p))
  {
    var all := Ones(q) + [false] + b + rest;
    UnaryIs(all, q);
    assert all[q + 1..q + 1 + p] == b;
  }

  /** The code is lossless. */
  lemma CodeDecodes(p: nat, x: nat, rest: Bits)
    ensures Decoded(Code(p, x) + rest, p) == Some((x, |Code(p, x)|))
  {
    PartsDecode(Quotient(x, p), BitsOf(x, p), rest, p, Pow2(p));
    BitsValue(x, p);
  }

  lemma {:induction false} ValueBelow(b: Bits)
    ensures ValueOf(b) < Pow2(|b|)
  {
    if |b| > 0 { ValueBelow(b[..|b| - 1]); }
  }

  /** The bits above are not looked at. */
  lemma {:induction false} ValueBits(b: Bits, q: nat)
    ensures BitsOf(q * Pow2(|b|) + ValueOf(b), |b|) == b
  {
    if |b| > 0 {
      var n, m := |b| - 1, Pow2(|b| - 1);
      ValueBits(b[..n], q);
      var bit := if b[n] then 1 else 0;
      assert q * (2 * m) == 2 * (q * m) by { Swap(q, m); }
      assert q * Pow2(|b|) + ValueOf(b) == 2 * (q * m + ValueOf(b[..n])) + bit;
      assert b == b[..n] + [b[n]];
    }
  }

  lemma Swap(q: int, m: int)
    ensures q * (2 * m) == 2 * (q * m)
  {
  }

  /** Nothing but a code decodes. */
  lemma DecodedIsCode(b: Bits, p: nat)
    requires Decoded(b, p).Some?
    ensures var (x, k) := Decoded(b, p).value; k <= |b| && Code(p, x) == b[..k]
  {
    var q := Unary(b);
    var c := b[q + 1..q + 1 + p];
    var x := q * Pow2(p) + ValueOf(c);
    ValueBelow(c);
    QuotRem(x, Pow2(p), q, ValueOf(c));
    ValueBits(c, q);
    assert Quotient(x, p) == q;
    assert b[..q] == Ones(q);
    assert b[..q + 1 + p] == b[..q] + [b[q]] + c;
  }
}
