/**
 Bech32 and Bech32m strings (BIP 173, BIP 350). Characters are bytes.
 */
module Bech32 {
  type Text = seq<bv8>

  const CHECKSUM_SIZE: nat := 6
  const SEPARATOR: bv8 := 0x31

  datatype Encoding = Invalid | Bech32 | Bech32m

  datatype DecodeResult = DecodeResult(encoding: Encoding, hrp: Text, data: seq<bv8>)

  predicate Symbols(v: seq<bv8>) { forall i :: 0 <= i < |v| ==> v[i] < 32 }

  // ----- the checksum

  function EncodingConstant(encoding: Encoding): bv30
    requires !encoding.Invalid?
  {
    if encoding.Bech32? then 1 else 0x2bc830a3
  }

  function Pick(c0: bv5, mask: bv5, k: bv30): bv30 { if c0 & mask != 0 then k else 0 }

  /** c0 times what x^6 leaves when divided by the generator. */
  function Reduce(c0: bv5): bv30 {
    Pick(c0, 1, 0x3b6a57b2) ^ Pick(c0, 2, 0x26508e6d) ^ Pick(c0, 4, 0x1ea119fa) ^ Pick(c0, 8, 0x3d4233dd) ^
    Pick(c0, 16, 0x2a1462b3)
  }

  /** The coefficient of x^5. */
  function Top(c: bv30): bv5 { (c >> 25) as bv5 }

  /** c(x) * x + v, divided by the generator: one round of PolyMod. */
  function Step(c: bv30, v: bv8): bv30 {
    ((c & 0x1ffffff) << 5) ^ (v as bv30) ^ Reduce(Top(c))
  }

  ghost function Fold(c: bv30, v: seq<bv8>): bv30 {
    if |v| == 0 then c else Step(Fold(c, v[..|v| - 1]), v[|v| - 1])
  }

  lemma FoldNext(c: bv30, v: seq<bv8>, i: nat)
    requires i < |v|
    ensures Fold(c, v[..i + 1]) == Step(Fold(c, v[..i]), v[i])
  {
    assert v[..i + 1][..i] == v[..i];
  }

  method PolyMod(v: seq<bv8>) returns (c: bv30)
    ensures c == Fold(1, v)
  {
    c := 1;
    for i := 0 to |v|
      invariant c == Fold(1, v[..i])
    {
      FoldNext(1, v, i);
      c := Step(c, v[i]);
    }
    assert v[..|v|] == v;
  }

  // ----- one step is a linear map that loses nothing

  lemma ReduceXor(a: bv5, b: bv5)
    ensures Reduce(a ^ b) == Reduce(a) ^ Reduce(b)
  {
  }

  lemma TopXor(a: bv30, b: bv30)
    ensures Top(a ^ b) == Top(a) ^ Top(b)
  {
  }

  lemma LowXor(a: bv30, b: bv30)
    ensures (((a ^ b) & 0x1ffffff) << 5) == ((a & 0x1ffffff) << 5) ^ ((b & 0x1ffffff) << 5)
  {
  }

  lemma WideXor(v: bv8, w: bv8)
    ensures (v ^ w) as bv30 == (v as bv30) ^ (w as bv30)
  {
  }

  lemma Xor3(a: bv30, b: bv30, c: bv30, d: bv30, e: bv30, f: bv30)
    ensures (a ^ b) ^ (c ^ d) ^ (e ^ f) == (a ^ c ^ e) ^ (b ^ d ^ f)
  {
  }

  lemma StepXor(a: bv30, b: bv30, c: bv30, v: bv8, w: bv8, x: bv8)
    requires c == a ^ b && x == v ^ w
    ensures Step(c, x) == Step(a, v) ^ Step(b, w)
  {
    TopXor(a, b);
    ReduceXor(Top(a), Top(b));
    LowXor(a, b);
    WideXor(v, w);
    Xor3((a & 0x1ffffff) << 5, (b & 0x1ffffff) << 5, v as bv30, w as bv30, Reduce(Top(a)), Reduce(Top(b)));
  }

  lemma StepKernel(c: bv30)
    requires Step(c, 0) == 0
    ensures c == 0
  {
  }

  // ----- many steps

  ghost function XorAll(v: seq<bv8>, w: seq<bv8>): seq<bv8>
    requires |v| == |w|
  {
    seq(|v|, i requires 0 <= i < |v| => Xor(v[i], w[i]))
  }

  lemma {:induction false} FoldXorTo(a: bv30, b: bv30, v: seq<bv8>, w: seq<bv8>, x: seq<bv8>, i: nat)
    requires |v| == |w| && x == XorAll(v, w) && i <= |v|
    ensures Fold(a ^ b, x[..i]) == Fold(a, v[..i]) ^ Fold(b, w[..i])
  {
    if i > 0 {
      var n := i - 1;
      FoldXorTo(a, b, v, w, x, n);
      FoldNext(a, v, n);
      FoldNext(b, w, n);
      FoldNext(a ^ b, x, n);
      assert x[n] == Xor(v[n], w[n]);
      StepXor(Fold(a, v[..n]), Fold(b, w[..n]), Fold(a ^ b, x[..n]), v[n], w[n], x[n]);
    }
  }

  /** The checksum is linear. */
  lemma FoldXor(a: bv30, b: bv30, v: seq<bv8>, w: seq<bv8>)
    requires |v| == |w|
    ensures Fold(a ^ b, XorAll(v, w)) == Fold(a, v) ^ Fold(b, w)
  {
    FoldXorTo(a, b, v, w, XorAll(v, w), |v|);
    assert v[..|v|] == v && w[..|v|] == w && XorAll(v, w)[..|v|] == XorAll(v, w);
  }

  lemma {:induction false} FoldConcat(c: bv30, v: seq<bv8>, w: seq<bv8>)
    ensures Fold(c, v + w) == Fold(Fold(c, v), w)
    decreases |w|
  {
    if |w| == 0 {
      assert v + w == v;
    } else {
      var n := |w| - 1;
      assert (v + w)[..|v| + n] == v + w[..n];
      FoldConcat(c, v, w[..n]);
    }
  }

  /** A difference stays, however many equal values follow it. */
  lemma {:induction false} DifferenceStays(d: bv30, v: seq<bv8>)
    requires d != 0 && forall i :: 0 <= i < |v| ==> v[i] == 0
    ensures Fold(d, v) != 0
  {
    if |v| > 0 {
      DifferenceStays(d, v[..|v| - 1]);
      var c := Fold(d, v[..|v| - 1]);
      if Step(c, 0) == 0 { StepKernel(c); }
    }
  }

  // ----- what goes into the checksum

  function Xor(v: bv8, w: bv8): bv8 { v ^ w }
  function HighBits(c: bv8): bv8 { c >> 5 }
  function LowBits(c: bv8): bv8 { c & 31 }

  /** The numbers the checksum is computed of. */
  ghost function Coefficients(hrp: Text, values: seq<bv8>): seq<bv8> {
    seq(|hrp|, i requires 0 <= i < |hrp| => HighBits(hrp[i])) + [0] +
    seq(|hrp|, i requires 0 <= i < |hrp| => LowBits(hrp[i])) + values
  }

  method PreparePolynomialCoefficients(hrp: Text, values: seq<bv8>) returns (ret: seq<bv8>)
    ensures ret == Coefficients(hrp, values)
  {
    ret := [];
    for i := 0 to |hrp|
      invariant ret == seq(i, j requires 0 <= j < i => HighBits(hrp[j]))
    {
      ret := ret + [hrp[i] >> 5];
    }
    ret := ret + [0];
    ghost var high := ret;
    for i := 0 to |hrp|
      invariant ret == high + seq(i, j requires 0 <= j < i => LowBits(hrp[j]))
    {
      ret := ret + [hrp[i] & 31];
    }
    ret := ret + values;
  }

  ghost function Verified(hrp: Text, values: seq<bv8>): Encoding {
    var check := Fold(1, Coefficients(hrp, values));
    if check == EncodingConstant(Bech32) then Bech32
    else if check == EncodingConstant(Bech32m) then Bech32m
    else Invalid
  }

  method VerifyChecksum(hrp: Text, values: seq<bv8>) returns (encoding: Encoding)
    ensures encoding == Verified(hrp, values)
    ensures encoding == Bech32 <==> Fold(1, Coefficients(hrp, values)) == 1
    ensures encoding == Bech32m <==> Fold(1, Coefficients(hrp, values)) == 0x2bc830a3
  {
    var enc := PreparePolynomialCoefficients(hrp, values);
    var check := PolyMod(enc);
    if check == EncodingConstant(Bech32) { return Bech32; }
    if check == EncodingConstant(Bech32m) { return Bech32m; }
    return Invalid;
  }

  /** m >> (5 * (6 - i)) for each i up to 6. */
  function Prefixes(m: bv30): seq<bv30> { [0, m >> 25, m >> 20, m >> 15, m >> 10, m >> 5, m] }

  function Low5(m: bv30): bv8 { (m & 31) as bv8 }

  /** The 5-bit groups of a checksum, the first one highest. */
  function Groups(m: bv30): seq<bv8> { LowOf(m >> 25, m >> 20, m >> 15, m >> 10, m >> 5, m) }

  function LowOf(s1: bv30, s2: bv30, s3: bv30, s4: bv30, s5: bv30, s6: bv30): seq<bv8> {
    [Low5(s1), Low5(s2), Low5(s3), Low5(s4), Low5(s5), Low5(s6)]
  }

  const ZEROES: seq<bv8> := [0, 0, 0, 0, 0, 0]

  ghost function Checksum(encoding: Encoding, hrp: Text, values: seq<bv8>): seq<bv8>
    requires !encoding.Invalid?
  {
    Groups(Fold(1, Coefficients(hrp, values) + ZEROES) ^ EncodingConstant(encoding))
  }

  /** Convert the 5-bit groups to checksum values. */
  method SplitGroups(m: bv30) returns (ret: seq<bv8>)
    ensures ret == Groups(m)
  {
    var prefixes := Prefixes(m);
    ghost var groups := Groups(m);
    ret := [];
    for i := 0 to CHECKSUM_SIZE
      invariant ret == groups[..i]
    {
      ret := ret + [Low5(prefixes[i + 1])];
    }
  }

  method CreateChecksum(encoding: Encoding, hrp: Text, values: seq<bv8>) returns (ret: seq<bv8>)
    requires !encoding.Invalid?
    ensures ret == Checksum(encoding, hrp, values)
    ensures Fold(1, Coefficients(hrp, values + ret)) == if encoding.Bech32? then 1 else 0x2bc830a3
  {
    ChecksumRemainder(encoding, hrp, values, Checksum(encoding, hrp, values));
    var enc := PreparePolynomialCoefficients(hrp, values);
    enc := enc + ZEROES;
    var check := PolyMod(enc);
    var m := check ^ EncodingConstant(encoding);
    ret := SplitGroups(m);
  }

  // ----- what the checksum detects

  function Cap(k: nat): bv30 {
    match k
    case 0 => 1
    case 1 => 0x20
    case 2 => 0x400
    case 3 => 0x8000
    case 4 => 0x10_0000
    case _ => 0x200_0000
  }

  lemma StepSmall(c: bv30, v: bv8, k: nat)
    requires c < Cap(k) && v < 32 && k <= 5
    ensures Step(c, v) == 0 <==> c == 0 && v == 0
    ensures k < 5 ==> Step(c, v) < Cap(k + 1)
  {
  }

  /** Up to six values are kept apart. */
  lemma {:induction false} FewValues(v: seq<bv8>)
    requires Symbols(v) && |v| <= 6
    ensures |v| <= 5 ==> Fold(0, v) < Cap(|v|)
    ensures Fold(0, v) == 0 <==> forall i :: 0 <= i < |v| ==> v[i] == 0
  {
    if |v| > 0 {
      var n := |v| - 1;
      FewValues(v[..n]);
      StepSmall(Fold(0, v[..n]), v[n], n);
      assert v == v[..n] + [v[n]];
    }
  }

  /** Values that differ, but only within six places in a row, have different
      checksums, wherever the six are and however many values there are. */
  lemma BurstDetected(hrp: Text, v: seq<bv8>, w: seq<bv8>, i: nat, j: nat)
    requires |v| == |w| && i <= j <= |v| && j - i <= 6 && Symbols(v) && Symbols(w)
    requires v[..i] == w[..i] && v[j..] == w[j..] && v != w
    ensures Fold(1, Coefficients(hrp, v)) != Fold(1, Coefficients(hrp, w))
  {
    var c := Fold(1, Coefficients(hrp, []) + v[..i]);
    assert Fold(c, v[i..j]) != Fold(c, w[i..j]) by {
      WindowDiffers(c, v[i..j], w[i..j]);
    }
    SplitFold(hrp, v, i, j);
    SplitFold(hrp, w, i, j);
    SameTail(Fold(c, v[i..j]), Fold(c, w[i..j]), v[j..]);
  }

  lemma SplitFold(hrp: Text, v: seq<bv8>, i: nat, j: nat)
    requires i <= j <= |v|
    ensures Fold(1, Coefficients(hrp, v)) == Fold(Fold(Fold(1, Coefficients(hrp, []) + v[..i]), v[i..j]), v[j..])
  {
    var head := Coefficients(hrp, []) + v[..i];
    assert Coefficients(hrp, v) == head + v[i..j] + v[j..];
    FoldConcat(1, head + v[i..j], v[j..]);
    FoldConcat(1, head, v[i..j]);
  }

  lemma XorZero(a: bv30, b: bv30)
    ensures a ^ a == 0 && a ^ 0 == a && (a ^ b == 0 <==> a == b)
  {
  }

  /** Starting alike, different values lead apart. */
  lemma WindowDiffers(c: bv30, v: seq<bv8>, w: seq<bv8>)
    requires |v| == |w| <= 6 && Symbols(v) && Symbols(w) && v != w
    ensures Fold(c, v) != Fold(c, w)
  {
    var x := XorAll(v, w);
    FoldXor(c, c, v, w);
    XorZero(c, c);
    XorZero(Fold(c, v), Fold(c, w));
    forall i | 0 <= i < |x| ensures x[i] < 32 { SmallXor(v[i], w[i]); }
    var i :| 0 <= i < |v| && v[i] != w[i];
    SmallXor(v[i], w[i]);
    assert x[i] == Xor(v[i], w[i]);
    FewValues(x);
  }

  lemma SmallXor(v: bv8, w: bv8)
    requires v < 32 && w < 32
    ensures Xor(v, w) < 32 && (Xor(v, w) == 0 <==> v == w)
  {
  }

  /** Different states stay different over the same values. */
  lemma SameTail(a: bv30, b: bv30, v: seq<bv8>)
    requires a != b
    ensures Fold(a, v) != Fold(b, v)
  {
    var x := XorAll(v, v);
    FoldXor(a, b, v, v);
    XorZero(a, b);
    XorZero(Fold(a, v), Fold(b, v));
    forall i | 0 <= i < |x| ensures x[i] == 0 { SelfXor(v[i]); }
    DifferenceStays(a ^ b, x);
  }

  lemma SelfXor(v: bv8)
    ensures Xor(v, v) == 0
  {
  }

  /** One substituted value never verifies under the same encoding. */
  lemma SubstitutionDetected(hrp: Text, v: seq<bv8>, i: nat, x: bv8)
    requires i < |v| && Symbols(v) && x < 32 && x != v[i] && Verified(hrp, v) != Invalid
    ensures Verified(hrp, v[i := x]) != Verified(hrp, v)
  {
    var w := v[i := x];
    assert v[..i] == w[..i] && v[i + 1..] == w[i + 1..];
    BurstDetected(hrp, v, w, i, i + 1);
  }

  // ----- the checksum makes the string verify

  lemma StepGroup(c: bv30, d: bv30)
    requires c == d >> 5
    ensures Step(c, Low5(d)) == d
  {
  }

  lemma FoldSix(g0: bv8, g1: bv8, g2: bv8, g3: bv8, g4: bv8, g5: bv8,
                c1: bv30, c2: bv30, c3: bv30, c4: bv30, c5: bv30, c6: bv30)
    requires Step(0, g0) == c1 && Step(c1, g1) == c2 && Step(c2, g2) == c3
    requires Step(c3, g3) == c4 && Step(c4, g4) == c5 && Step(c5, g5) == c6
    ensures Fold(0, [g0, g1, g2, g3, g4, g5]) == c6
  {
    FoldThree(0, [g0, g1, g2, g3, g4, g5], 0, c1, c2, c3);
    FoldThree(0, [g0, g1, g2, g3, g4, g5], 3, c4, c5, c6);
    assert [g0, g1, g2, g3, g4, g5][..6] == [g0, g1, g2, g3, g4, g5];
  }

  lemma FoldThree(c: bv30, g: seq<bv8>, k: nat, c1: bv30, c2: bv30, c3: bv30)
    requires k + 3 <= |g| && Step(Fold(c, g[..k]), g[k]) == c1 && Step(c1, g[k + 1]) == c2 && Step(c2, g[k + 2]) == c3
    ensures Fold(c, g[..k + 3]) == c3
  {
    FoldNext(c, g, k);
    FoldNext(c, g, k + 1);
    FoldNext(c, g, k + 2);
  }

  lemma ChainStands(s1: bv30, s2: bv30, s3: bv30, s4: bv30, s5: bv30, m: bv30)
    requires 0 == s1 >> 5 && s1 == s2 >> 5 && s2 == s3 >> 5 && s3 == s4 >> 5 && s4 == s5 >> 5 && s5 == m >> 5
    ensures Fold(0, LowOf(s1, s2, s3, s4, s5, m)) == m
  {
    StepGroup(0, s1);
    StepGroup(s1, s2);
    StepGroup(s2, s3);
    StepGroup(s3, s4);
    StepGroup(s4, s5);
    StepGroup(s5, m);
    FoldSix(Low5(s1), Low5(s2), Low5(s3), Low5(s4), Low5(s5), Low5(m), s1, s2, s3, s4, s5, m);
  }

  lemma ShiftsChain(s1: bv30, s2: bv30, s3: bv30, s4: bv30, s5: bv30, m: bv30)
    requires s1 == m >> 25 && s2 == m >> 20 && s3 == m >> 15 && s4 == m >> 10 && s5 == m >> 5
    ensures 0 == s1 >> 5 && s1 == s2 >> 5 && s2 == s3 >> 5 && s3 == s4 >> 5 && s4 == s5 >> 5
  {
    ShiftsHigh(s1, s2, s3, m);
    ShiftsLow(s3, s4, s5, m);
  }

  lemma ShiftsHigh(s1: bv30, s2: bv30, s3: bv30, m: bv30)
    requires s1 == m >> 25 && s2 == m >> 20 && s3 == m >> 15
    ensures 0 == s1 >> 5 && s1 == s2 >> 5 && s2 == s3 >> 5
  {
    assert 0 == (m >> 25) >> 5;
    assert m >> 25 == (m >> 20) >> 5;
    assert m >> 20 == (m >> 15) >> 5;
  }

  lemma ShiftsLow(s3: bv30, s4: bv30, s5: bv30, m: bv30)
    requires s3 == m >> 15 && s4 == m >> 10 && s5 == m >> 5
    ensures s3 == s4 >> 5 && s4 == s5 >> 5
  {
    ShiftTen(s3, s4, m);
    ShiftFive(s4, s5, m);
  }

  lemma ShiftTen(s3: bv30, s4: bv30, m: bv30)
    requires s3 == m >> 15 && s4 == m >> 10
    ensures s3 == s4 >> 5
  {
    assert m >> 15 == (m >> 10) >> 5;
  }

  lemma ShiftFive(s4: bv30, s5: bv30, m: bv30)
    requires s4 == m >> 10 && s5 == m >> 5
    ensures s4 == s5 >> 5
  {
    assert m >> 10 == (m >> 5) >> 5;
  }

  lemma ShiftsStand(s1: bv30, s2: bv30, s3: bv30, s4: bv30, s5: bv30, m: bv30)
    requires s1 == m >> 25 && s2 == m >> 20 && s3 == m >> 15 && s4 == m >> 10 && s5 == m >> 5
    ensures Fold(0, LowOf(s1, s2, s3, s4, s5, m)) == m
  {
    ShiftsChain(s1, s2, s3, s4, s5, m);
    ChainStands(s1, s2, s3, s4, s5, m);
  }

  lemma GroupsStandFor(m: bv30)
    ensures Fold(0, Groups(m)) == m
  {
    ShiftsStand(m >> 25, m >> 20, m >> 15, m >> 10, m >> 5, m);
  }

  lemma Appended(c: bv30, tail: seq<bv8>)
    requires |tail| == 6
    ensures Fold(c, tail) == Fold(c, ZEROES) ^ Fold(0, tail)
  {
    FoldXor(c, 0, ZEROES, tail);
    XorZero(c, c);
    forall i | 0 <= i < 6 ensures XorAll(ZEROES, tail)[i] == tail[i] { ZeroXor(tail[i]); }
    assert XorAll(ZEROES, tail) == tail;
  }

  lemma ZeroXor(v: bv8)
    ensures Xor(0, v) == v
  {
  }

  lemma XorBack(a: bv30, k: bv30)
    ensures a ^ (a ^ k) == k
  {
  }

  lemma TailFold(enc: seq<bv8>, tail: seq<bv8>, m: bv30, k: bv30)
    requires |tail| == 6 && Fold(0, tail) == m && m == Fold(1, enc + ZEROES) ^ k
    ensures Fold(1, enc + tail) == k
  {
    FoldConcat(1, enc, tail);
    FoldConcat(1, enc, ZEROES);
    Appended(Fold(1, enc), tail);
    XorBack(Fold(1, enc + ZEROES), k);
  }

  lemma CoefficientsAppend(hrp: Text, values: seq<bv8>, tail: seq<bv8>)
    ensures Coefficients(hrp, values + tail) == Coefficients(hrp, values) + tail
  {
  }

  lemma GroupsVerify(enc: seq<bv8>, m: bv30, k: bv30)
    requires m == Fold(1, enc + ZEROES) ^ k
    ensures Fold(1, enc + Groups(m)) == k
  {
    GroupsStandFor(m);
    TailFold(enc, Groups(m), m, k);
  }

  /** XOR-ing the computed groups into the tail gives the encoding's constant. */
  lemma ChecksumVerifies(encoding: Encoding, hrp: Text, values: seq<bv8>)
    requires !encoding.Invalid?
    ensures Verified(hrp, values + Checksum(encoding, hrp, values)) == encoding
  {
    var enc, k := Coefficients(hrp, values), EncodingConstant(encoding);
    GroupsVerify(enc, Fold(1, enc + ZEROES) ^ k, k);
    CoefficientsAppend(hrp, values, Checksum(encoding, hrp, values));
  }

  lemma ChecksumRemainder(encoding: Encoding, hrp: Text, values: seq<bv8>, checksum: seq<bv8>)
    requires !encoding.Invalid? && checksum == Checksum(encoding, hrp, values)
    ensures Fold(1, Coefficients(hrp, values + checksum)) == if encoding.Bech32? then 1 else 0x2bc830a3
  {
    var enc, k := Coefficients(hrp, values), EncodingConstant(encoding);
    GroupsVerify(enc, Fold(1, enc + ZEROES) ^ k, k);
    CoefficientsAppend(hrp, values, checksum);
  }
}
