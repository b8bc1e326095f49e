/**
 Strings published with the two standards (BIP 173 and BIP 350), read by the model. They
 settle what no law about the code can: the alphabet, the order of the parts that are
 summed up, and which constant belongs to which encoding.
 */
module Bech32Published {
  import opened Bech32
  import opened Bech32Strings
  import opened Helpers

  /** No separator, and no letter of the other case. */
  predicate IsPlain(c: bv8, upper: bool) {
    c != 0x31 && Printable(c) && (if upper then !IsLower(c) else !IsUpper(c))
  }

  ghost predicate Plain(t: Text, upper: bool) { forall i :: 0 <= i < |t| ==> IsPlain(t[i], upper) }

  /** Characters that stand for `v`. */
  ghost predicate Spells(t: Text, upper: bool, v: seq<bv8>) {
    |t| == |v| && forall i :: 0 <= i < |t| ==> IsPlain(t[i], upper) && RevOf(t[i]) == v[i] && v[i] < 32
  }

  lemma SpellsMore(t: Text, upper: bool, v: seq<bv8>, t': Text, v': seq<bv8>)
    requires Spells(t, upper, v) && Spells(t', upper, v')
    ensures Spells(t + t', upper, v + v')
  {
  }

  /** Up to four more values. */
  lemma Two(c0: bv30, v: seq<bv8>, c: bv30, x: seq<bv8>, c1: bv30, c2: bv30)
    requires Fold(c0, v) == c && |x| == 2 && Step(c, x[0]) == c1 && Step(c1, x[1]) == c2
    ensures Fold(c0, v + x) == c2
  {
    FoldConcat(c0, v, x);
    FoldNext(c, x, 0);
    FoldNext(c, x, 1);
    assert x[..0] == [] && x[..2] == x;
  }

  lemma One(c0: bv30, v: seq<bv8>, c: bv30, x: seq<bv8>, c1: bv30)
    requires Fold(c0, v) == c && |x| == 1 && Step(c, x[0]) == c1
    ensures Fold(c0, v + x) == c1
  {
    FoldConcat(c0, v, x);
    FoldNext(c, x, 0);
    assert x[..0] == [] && x[..1] == x;
  }

  lemma Three(c0: bv30, v: seq<bv8>, c: bv30, x: seq<bv8>, c1: bv30, c2: bv30, c3: bv30)
    requires Fold(c0, v) == c && |x| == 3 && Step(c, x[0]) == c1 && Step(c1, x[1]) == c2 && Step(c2, x[2]) == c3
    ensures Fold(c0, v + x) == c3
  {
    Two(c0, v, c, x[..2], c1, c2);
    One(c0, v + x[..2], c2, x[2..], c3);
    assert v + x == v + x[..2] + x[2..];
  }

  lemma Four(c0: bv30, v: seq<bv8>, c: bv30, x: seq<bv8>, c1: bv30, c2: bv30, c3: bv30, c4: bv30)
    requires Fold(c0, v) == c && |x| == 4
    requires Step(c, x[0]) == c1 && Step(c1, x[1]) == c2 && Step(c2, x[2]) == c3 && Step(c3, x[3]) == c4
    ensures Fold(c0, v + x) == c4
  {
    Two(c0, v, c, x[..2], c1, c2);
    Two(c0, v + x[..2], c2, x[2..], c3, c4);
    assert v + x == v + x[..2] + x[2..];
  }

  /** What is read, once the characters and the checksum are known; and it is what is
      written, up to case. */
  lemma Reads(str: Text, head: Text, upper: bool, hrp: Text, tail: Text, data: seq<bv8>, check: seq<bv8>,
              sum: seq<bv8>, c: bv30, encoding: Encoding)
    requires str == head + [0x31] + tail && |str| <= 90 && |head| > 0 && |check| == 6
    requires Plain(head, upper) && Spells(tail, upper, data + check) && hrp == Lowered(head)
    requires sum == Coefficients(hrp, []) && Fold(1, sum) == c && Fold(c, data + check) == Remainder(encoding)
    requires encoding != Invalid
    ensures Decoded(str, 90) == DecodeResult(encoding, hrp, data) && Encoded(encoding, hrp, data) == Lowered(str)
  {
    var values := data + check;
    ReadsParts(str, head, upper, hrp, tail, values);
    ReadsSum(hrp, values, sum, c, encoding);
    ReadsIs(str, hrp, values, data, encoding);
    ReadsBack(str, hrp, data, encoding);
  }

  lemma ReadsSum(hrp: Text, values: seq<bv8>, sum: seq<bv8>, c: bv30, encoding: Encoding)
    requires sum == Coefficients(hrp, []) && Fold(1, sum) == c && Fold(c, values) == Remainder(encoding)
    requires encoding != Invalid
    ensures Verified(hrp, values) == encoding
  {
    CoefficientsAppend(hrp, [], values);
    assert [] + values == values;
    FoldConcat(1, sum, values);
  }

  lemma ReadsBack(str: Text, hrp: Text, data: seq<bv8>, encoding: Encoding)
    requires Decoded(str, 90) == DecodeResult(encoding, hrp, data) && encoding != Invalid
    ensures Encoded(encoding, hrp, data) == Lowered(str)
  {
    Canonical(str, 90);
  }

  lemma ReadsIs(str: Text, hrp: Text, values: seq<bv8>, data: seq<bv8>, encoding: Encoding)
    requires Parsed(str, 90) == Some((hrp, values)) && Verified(hrp, values) == encoding != Invalid
    requires |values| == |data| + 6 && values[..|data|] == data
    ensures Decoded(str, 90) == DecodeResult(encoding, hrp, data)
  {
  }

  lemma ReadsParts(str: Text, head: Text, upper: bool, hrp: Text, tail: Text, values: seq<bv8>)
    requires str == head + [0x31] + tail && |str| <= 90 && |head| > 0 && |tail| >= 6
    requires Plain(head, upper) && Spells(tail, upper, values) && hrp == Lowered(head)
    ensures Parsed(str, 90) == Some((hrp, values))
  {
    var pos := |head|;
    assert str[..pos] == head && str[pos + 1..] == tail && str[pos] == SEPARATOR;
    SeparatorAt(str, head, upper, tail, values);
    PlainIsClean(str, head, upper, tail, values);
    SpelledValues(tail, upper, values);
  }

  lemma SeparatorAt(str: Text, head: Text, upper: bool, tail: Text, values: seq<bv8>)
    requires str == head + [0x31] + tail && Spells(tail, upper, values)
    ensures RFind(str) == |head|
  {
    forall i | |head| < i < |str| ensures str[i] != SEPARATOR { assert IsPlain(tail[i - |head| - 1], upper); }
    assert str[|head|] == SEPARATOR;
  }

  /** The remainder of a valid string. */
  function Remainder(encoding: Encoding): bv30 {
    match encoding
    case Invalid => 0
    case Bech32 => 1
    case Bech32m => 0x2bc830a3
  }

  lemma PlainIsClean(str: Text, head: Text, upper: bool, tail: Text, values: seq<bv8>)
    requires str == head + [0x31] + tail && Plain(head, upper) && Spells(tail, upper, values)
    ensures Clean(str)
  {
    forall i | 0 <= i < |str| ensures Printable(str[i]) && if upper then !IsLower(str[i]) else !IsUpper(str[i]) {
      assert i < |head| ==> IsPlain(head[i], upper);
      assert i > |head| ==> IsPlain(tail[i - |head| - 1], upper);
    }
  }

  lemma SpelledValues(tail: Text, upper: bool, values: seq<bv8>)
    requires Spells(tail, upper, values)
    ensures Values(tail) == values && NO_VALUE !in values
  {
  }

  // ----- A12UEL5L

  const S_HEAD: Text := [0x41]
  const S_HRP: Text := [0x61]
  const S_T1: Text := [0x32, 0x55, 0x45]
  const S_T2: Text := [0x4c, 0x35, 0x4c]
  const S_V1: seq<bv8> := [10, 28, 25]
  const S_V2: seq<bv8> := [31, 20, 31]

  /** A12UEL5L */
  const SHORT: Text := S_HEAD + [0x31] + S_TAIL
  const S_TAIL: Text := S_T1 + S_T2
  const S_DATA: seq<bv8> := []
  const S_CHECK: seq<bv8> := S_V1 + S_V2

  lemma ShortSpells1()
    ensures Spells(S_T1, true, S_V1)
  {
  }

  lemma ShortSpells2()
    ensures Spells(S_T2, true, S_V2)
  {
  }

  lemma ShortSpells()
    ensures Spells(S_TAIL, true, S_DATA + S_CHECK)
  {
    var t, v := S_T1, S_V1;
    ShortSpells1();
    ShortSpells2();
    SpellsMore(t, true, v, S_T2, S_V2);
    t, v := t + S_T2, v + S_V2;
    assert t == S_TAIL && v == S_DATA + S_CHECK;
  }

  const S_SUM1: seq<bv8> := [3, 0, 1]

  lemma ShortHead()
    ensures Lowered(S_HEAD) == S_HRP && Plain(S_HEAD, true)
    ensures Coefficients(S_HRP, []) == S_SUM1
  {
  }

  lemma ShortHeadSum()
    ensures Fold(1, S_SUM1) == 0x8c01
  {
    var v: seq<bv8> := [];
    Three(1, v, 0x1, S_SUM1, 0x23, 0x460, 0x8c01);
    v := v + S_SUM1;
    assert v == S_SUM1;
  }

  lemma ShortSum1()
    ensures Fold(0x8c01, S_V1 + S_V2) == 0x1
  {
    var v: seq<bv8> := [];
    Three(0x8c01, v, 0x8c01, S_V1, 0x11802a, 0x230055c, 0x3d6afc2b);
    v := v + S_V1;
    Three(0x8c01, v, 0x3d6afc2b, S_V2, 0x2f84386, 0x24622766, 0x1);
    v := v + S_V2;
    assert v == S_V1 + S_V2;
  }

  lemma ShortSum()
    ensures Fold(0x8c01, S_DATA + S_CHECK) == 0x1
  {
    ShortSum1();
    assert S_DATA + S_CHECK == S_V1 + S_V2;
  }

  /** The shortest string, in capitals. */
  lemma ShortDecodes()
    ensures Decoded(SHORT, 90) ==
            DecodeResult(Bech32.Bech32, [0x61], [])
    ensures Encoded(Bech32.Bech32, [0x61], []) == Lowered(SHORT)
  {
    ShortHead();
    ShortHeadSum();
    ShortSum();
    ShortSpells();
    Reads(SHORT, S_HEAD, true, S_HRP, S_TAIL, S_DATA, S_CHECK,
          S_SUM1, 0x8c01, Bech32.Bech32);
  }

  // ----- A1LQFN3A

  const SM_HEAD: Text := [0x41]
  const SM_HRP: Text := [0x61]
  const SM_T1: Text := [0x4c, 0x51, 0x46]
  const SM_T2: Text := [0x4e, 0x33, 0x41]
  const SM_V1: seq<bv8> := [31, 0, 9]
  const SM_V2: seq<bv8> := [19, 17, 29]

  /** A1LQFN3A */
  const SHORT_M: Text := SM_HEAD + [0x31] + SM_TAIL
  const SM_TAIL: Text := SM_T1 + SM_T2
  const SM_DATA: seq<bv8> := []
  const SM_CHECK: seq<bv8> := SM_V1 + SM_V2

  lemma ShortMSpells1()
    ensures Spells(SM_T1, true, SM_V1)
  {
  }

  lemma ShortMSpells2()
    ensures Spells(SM_T2, true, SM_V2)
  {
  }

  lemma ShortMSpells()
    ensures Spells(SM_TAIL, true, SM_DATA + SM_CHECK)
  {
    var t, v := SM_T1, SM_V1;
    ShortMSpells1();
    ShortMSpells2();
    SpellsMore(t, true, v, SM_T2, SM_V2);
    t, v := t + SM_T2, v + SM_V2;
    assert t == SM_TAIL && v == SM_DATA + SM_CHECK;
  }

  const SM_SUM1: seq<bv8> := [3, 0, 1]

  lemma ShortMHead()
    ensures Lowered(SM_HEAD) == SM_HRP && Plain(SM_HEAD, true)
    ensures Coefficients(SM_HRP, []) == SM_SUM1
  {
  }

  lemma ShortMHeadSum()
    ensures Fold(1, SM_SUM1) == 0x8c01
  {
    var v: seq<bv8> := [];
    Three(1, v, 0x1, SM_SUM1, 0x23, 0x460, 0x8c01);
    v := v + SM_SUM1;
    assert v == SM_SUM1;
  }

  lemma ShortMSum1()
    ensures Fold(0x8c01, SM_V1 + SM_V2) == 0x2bc830a3
  {
    var v: seq<bv8> := [];
    Three(0x8c01, v, 0x8c01, SM_V1, 0x11803f, 0x23007e0, 0x3d6aabbb);
    v := v + SM_V1;
    Three(0x8c01, v, 0x3d6aabbb, SM_V2, 0x2f2b18a, 0x253c66e3, 0x2bc830a3);
    v := v + SM_V2;
    assert v == SM_V1 + SM_V2;
  }

  lemma ShortMSum()
    ensures Fold(0x8c01, SM_DATA + SM_CHECK) == 0x2bc830a3
  {
    ShortMSum1();
    assert SM_DATA + SM_CHECK == SM_V1 + SM_V2;
  }

  /** The shortest string of the other encoding. */
  lemma ShortMDecodes()
    ensures Decoded(SHORT_M, 90) ==
            DecodeResult(Bech32m, [0x61], [])
    ensures Encoded(Bech32m, [0x61], []) == Lowered(SHORT_M)
  {
    ShortMHead();
    ShortMHeadSum();
    ShortMSum();
    ShortMSpells();
    Reads(SHORT_M, SM_HEAD, true, SM_HRP, SM_TAIL, SM_DATA, SM_CHECK,
          SM_SUM1, 0x8c01, Bech32m);
  }

  // ----- abcdef1qpzry9x8gf2tvdw0s3jn54khce6mua7lmqqqxw

  const W_HEAD: Text := [0x61, 0x62, 0x63, 0x64, 0x65, 0x66]
  const W_HRP: Text := [0x61, 0x62, 0x63, 0x64, 0x65, 0x66]
  const W_T1: Text := [0x71, 0x70, 0x7a, 0x72]
  const W_T2: Text := [0x79, 0x39, 0x78, 0x38]
  const W_T3: Text := [0x67, 0x66, 0x32, 0x74]
  const W_T4: Text := [0x76, 0x64, 0x77, 0x30]
  const W_T5: Text := [0x73, 0x33, 0x6a, 0x6e]
  const W_T6: Text := [0x35, 0x34, 0x6b, 0x68]
  const W_T7: Text := [0x63, 0x65, 0x36, 0x6d]
  const W_T8: Text := [0x75, 0x61, 0x37, 0x6c]
  const W_T9: Text := [0x6d, 0x71, 0x71]
  const W_T10: Text := [0x71, 0x78, 0x77]
  const W_V1: seq<bv8> := [0, 1, 2, 3]
  const W_V2: seq<bv8> := [4, 5, 6, 7]
  const W_V3: seq<bv8> := [8, 9, 10, 11]
  const W_V4: seq<bv8> := [12, 13, 14, 15]
  const W_V5: seq<bv8> := [16, 17, 18, 19]
  const W_V6: seq<bv8> := [20, 21, 22, 23]
  const W_V7: seq<bv8> := [24, 25, 26, 27]
  const W_V8: seq<bv8> := [28, 29, 30, 31]
  const W_V9: seq<bv8> := [27, 0, 0]
  const W_V10: seq<bv8> := [0, 6, 14]

  /** abcdef1qpzry9x8gf2tvdw0s3jn54khce6mua7lmqqqxw */
  const WHOLE: Text := W_HEAD + [0x31] + W_TAIL
  const W_TAIL: Text := W_T1 + W_T2 + W_T3 + W_T4 + W_T5 + W_T6 + W_T7 + W_T8 + W_T9 + W_T10
  const W_DATA: seq<bv8> := W_V1 + W_V2 + W_V3 + W_V4 + W_V5 + W_V6 + W_V7 + W_V8
  const W_CHECK: seq<bv8> := W_V9 + W_V10

  lemma WholeSpells1()
    ensures Spells(W_T1, false, W_V1)
  {
  }

  lemma WholeSpells2()
    ensures Spells(W_T2, false, W_V2)
  {
  }

  lemma WholeSpells3()
    ensures Spells(W_T3, false, W_V3)
  {
  }

  lemma WholeSpells4()
    ensures Spells(W_T4, false, W_V4)
  {
  }

  lemma WholeSpells5()
    ensures Spells(W_T5, false, W_V5)
  {
  }

  lemma WholeSpells6()
    ensures Spells(W_T6, false, W_V6)
  {
  }

  lemma WholeSpells7()
    ensures Spells(W_T7, false, W_V7)
  {
  }

  lemma WholeSpells8()
    ensures Spells(W_T8, false, W_V8)
  {
  }

  lemma WholeSpells9()
    ensures Spells(W_T9, false, W_V9)
  {
  }

  lemma WholeSpells10()
    ensures Spells(W_T10, false, W_V10)
  {
  }

  lemma WholeSpells()
    ensures Spells(W_TAIL, false, W_DATA + W_CHECK)
  {
    var t, v := W_T1, W_V1;
    WholeSpells1();
    WholeSpells2();
    SpellsMore(t, false, v, W_T2, W_V2);
    t, v := t + W_T2, v + W_V2;
    WholeSpells3();
    SpellsMore(t, false, v, W_T3, W_V3);
    t, v := t + W_T3, v + W_V3;
    WholeSpells4();
    SpellsMore(t, false, v, W_T4, W_V4);
    t, v := t + W_T4, v + W_V4;
    WholeSpells5();
    SpellsMore(t, false, v, W_T5, W_V5);
    t, v := t + W_T5, v + W_V5;
    WholeSpells6();
    SpellsMore(t, false, v, W_T6, W_V6);
    t, v := t + W_T6, v + W_V6;
    WholeSpells7();
    SpellsMore(t, false, v, W_T7, W_V7);
    t, v := t + W_T7, v + W_V7;
    WholeSpells8();
    SpellsMore(t, false, v, W_T8, W_V8);
    t, v := t + W_T8, v + W_V8;
    WholeSpells9();
    SpellsMore(t, false, v, W_T9, W_V9);
    t, v := t + W_T9, v + W_V9;
    WholeSpells10();
    SpellsMore(t, false, v, W_T10, W_V10);
    t, v := t + W_T10, v + W_V10;
    assert t == W_TAIL && v == W_DATA + W_CHECK;
  }

  const W_SUM1: seq<bv8> := [3, 3, 3, 3]
  const W_SUM2: seq<bv8> := [3, 3, 0, 1]
  const W_SUM3: seq<bv8> := [2, 3, 4, 5]
  const W_SUM4: seq<bv8> := [6]

  lemma WholeHead()
    ensures Lowered(W_HEAD) == W_HRP && Plain(W_HEAD, false)
    ensures Coefficients(W_HRP, []) == W_SUM1 + W_SUM2 + W_SUM3 + W_SUM4
  {
  }

  lemma WholeHeadSum()
    ensures Fold(1, W_SUM1 + W_SUM2 + W_SUM3 + W_SUM4) == 0x3be80e6a
  {
    var v: seq<bv8> := [];
    Four(1, v, 0x1, W_SUM1, 0x23, 0x463, 0x8c63, 0x118c63);
    v := v + W_SUM1;
    Four(1, v, 0x118c63, W_SUM2, 0x2318c63, 0x3d5bdbd1, 0x4dcbcd9, 0x3dc7154c);
    v := v + W_SUM2;
    Four(1, v, 0x3dc7154c, W_SUM3, 0x17456f7b, 0x8d50561, 0x401b5de, 0x266635a8);
    v := v + W_SUM3;
    One(1, v, 0x266635a8, W_SUM4, 0x3be80e6a);
    v := v + W_SUM4;
    assert v == W_SUM1 + W_SUM2 + W_SUM3 + W_SUM4;
  }

  lemma WholeSum1()
    ensures Fold(0x3be80e6a, W_V1 + W_V2 + W_V3 + W_V4) == 0x31223f8a
  {
    var v: seq<bv8> := [];
    Four(0x3be80e6a, v, 0x3be80e6a, W_V1, 0xf9cd266, 0x30018ce4, 0x1767cdec, 0xc815781);
    v := v + W_V1;
    Four(0x3be80e6a, v, 0xc815781, W_V2, 0x28db67b3, 0x2fd98d2c, 0x12be0710, 0x11e88668);
    v := v + W_V2;
    Four(0x3be80e6a, v, 0x11e88668, W_V3, 0x52fed5, 0xa5fdaa9, 0x2e301b62, 0x2f8ccedd);
    v := v + W_V3;
    Four(0x3be80e6a, v, 0x2f8ccedd, W_V4, 0x1816793a, 0x212c0d6a, 0xf95cffd, 0x31223f8a);
    v := v + W_V4;
    assert v == W_V1 + W_V2 + W_V3 + W_V4;
  }

  lemma WholeSum2()
    ensures Fold(0x31223f8a, W_V5 + W_V6 + W_V7 + W_V8) == 0x1a0d3656
  {
    var v: seq<bv8> := [];
    Four(0x31223f8a, v, 0x31223f8a, W_V5, 0x3311a03e, 0xe08010d, 0x29be197, 0x28166541);
    v := v + W_V5;
    Four(0x31223f8a, v, 0x28166541, W_V6, 0x3679d37d, 0x556e704, 0xc8c6efb, 0x297c48e0);
    v := v + W_V6;
    Four(0x31223f8a, v, 0x297c48e0, W_V7, 0x1b3c6751, 0x3f0597ac, 0x347f64d1, 0x3eea4538);
    v := v + W_V7;
    Four(0x31223f8a, v, 0x3eea4538, W_V8, 0x9853657, 0x2e07d307, 0x2975c268, 0x1a0d3656);
    v := v + W_V8;
    assert v == W_V5 + W_V6 + W_V7 + W_V8;
  }

  lemma WholeSum3()
    ensures Fold(0x1a0d3656, W_V9 + W_V10) == 0x1
  {
    var v: seq<bv8> := [];
    Three(0x1a0d3656, v, 0x1a0d3656, W_V9, 0x192fb74e, 0x615c3e7, 0x1f82a53f);
    v := v + W_V9;
    Three(0x1a0d3656, v, 0x1f82a53f, W_V10, 0xe8d5418, 0x12314323, 0x1);
    v := v + W_V10;
    assert v == W_V9 + W_V10;
  }

  lemma WholeSum()
    ensures Fold(0x3be80e6a, W_DATA + W_CHECK) == 0x1
  {
    WholeSum1();
    WholeSum2();
    WholeSum3();
    var first, second := W_V1 + W_V2 + W_V3 + W_V4, W_V5 + W_V6 + W_V7 + W_V8;
    FoldConcat(0x3be80e6a, first, second);
    FoldConcat(0x3be80e6a, first + second, W_CHECK);
    assert first + second == W_DATA;
  }

  /** The whole alphabet, in order. */
  lemma WholeDecodes()
    ensures Decoded(WHOLE, 90) ==
            DecodeResult(Bech32.Bech32, [0x61, 0x62, 0x63, 0x64, 0x65, 0x66], W_DATA)
    ensures Encoded(Bech32.Bech32, [0x61, 0x62, 0x63, 0x64, 0x65, 0x66], W_DATA) == Lowered(WHOLE)
  {
    WholeHead();
    WholeHeadSum();
    WholeSum();
    WholeSpells();
    Reads(WHOLE, W_HEAD, false, W_HRP, W_TAIL, W_DATA, W_CHECK,
          W_SUM1 + W_SUM2 + W_SUM3 + W_SUM4, 0x3be80e6a, Bech32.Bech32);
  }
}
