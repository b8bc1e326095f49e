/**
 Writing and reading Bech32 strings.
 */
module Bech32Strings {
  import opened Bech32
  import opened Helpers

  // ----- the alphabet

  /** -1 in the reverse table. */
  const NO_VALUE: bv8 := 0xff

  /** The character of a 5-bit value. */
  function CharOf(v: bv8): bv8 {
    if v == 0 then 0x71 else if v == 1 then 0x70 else if v == 2 then 0x7a else if v == 3 then 0x72 else
    if v == 4 then 0x79 else if v == 5 then 0x39 else if v == 6 then 0x78 else if v == 7 then 0x38 else
    if v == 8 then 0x67 else if v == 9 then 0x66 else if v == 10 then 0x32 else if v == 11 then 0x74 else
    if v == 12 then 0x76 else if v == 13 then 0x64 else if v == 14 then 0x77 else if v == 15 then 0x30 else
    if v == 16 then 0x73 else if v == 17 then 0x33 else if v == 18 then 0x6a else if v == 19 then 0x6e else
    if v == 20 then 0x35 else if v == 21 then 0x34 else if v == 22 then 0x6b else if v == 23 then 0x68 else
    if v == 24 then 0x63 else if v == 25 then 0x65 else if v == 26 then 0x36 else if v == 27 then 0x6d else
    if v == 28 then 0x75 else if v == 29 then 0x61 else if v == 30 then 0x37 else
    0x6c
  }

  /** The 5-bit value of a character of either case. */
  function RevOf(c: bv8): bv8 {
    if c == 0x71 || c == 0x51 then 0 else if c == 0x70 || c == 0x50 then 1 else if c == 0x7a || c == 0x5a then 2 else
    if c == 0x72 || c == 0x52 then 3 else if c == 0x79 || c == 0x59 then 4 else if c == 0x39 then 5 else
    if c == 0x78 || c == 0x58 then 6 else if c == 0x38 then 7 else if c == 0x67 || c == 0x47 then 8 else
    if c == 0x66 || c == 0x46 then 9 else if c == 0x32 then 10 else if c == 0x74 || c == 0x54 then 11 else
    if c == 0x76 || c == 0x56 then 12 else if c == 0x64 || c == 0x44 then 13 else if c == 0x77 || c == 0x57 then 14 else
    if c == 0x30 then 15 else if c == 0x73 || c == 0x53 then 16 else if c == 0x33 then 17 else
    if c == 0x6a || c == 0x4a then 18 else if c == 0x6e || c == 0x4e then 19 else if c == 0x35 then 20 else
    if c == 0x34 then 21 else if c == 0x6b || c == 0x4b then 22 else if c == 0x68 || c == 0x48 then 23 else
    if c == 0x63 || c == 0x43 then 24 else if c == 0x65 || c == 0x45 then 25 else if c == 0x36 then 26 else
    if c == 0x6d || c == 0x4d then 27 else if c == 0x75 || c == 0x55 then 28 else if c == 0x61 || c == 0x41 then 29 else
    if c == 0x37 then 30 else if c == 0x6c || c == 0x4c then 31 else
    NO_VALUE
  }

  predicate IsLower(c: bv8) { 0x61 <= c <= 0x7a }
  predicate IsUpper(c: bv8) { 0x41 <= c <= 0x5a }
  predicate Printable(c: bv8) { 33 <= c <= 126 }

  function LowerCase(c: bv8): bv8 { if IsUpper(c) then c - 0x41 + 0x61 else c }

  lemma CharBackLow(v: bv8)
    requires v < 16
    ensures RevOf(CharOf(v)) == v
  {
  }

  lemma CharBackMiddle(v: bv8)
    requires 16 <= v < 24
    ensures RevOf(CharOf(v)) == v
  {
  }

  lemma CharBackHigh(v: bv8)
    requires 24 <= v < 28
    ensures RevOf(CharOf(v)) == v
  {
  }

  lemma CharBackTop(v: bv8)
    requires 28 <= v < 32
    ensures RevOf(CharOf(v)) == v
  {
  }

  /** The reverse table undoes the table. */
  lemma CharBack(v: bv8)
    requires v < 32
    ensures RevOf(CharOf(v)) == v
  {
    if v < 16 { CharBackLow(v); } else if v < 24 { CharBackMiddle(v); } else if v < 28 { CharBackHigh(v); }
        else { CharBackTop(v); }
  }

  lemma CharFacts(v: bv8)
    requires v < 32
    ensures CharOf(v) != SEPARATOR && Printable(CharOf(v)) && !IsUpper(CharOf(v))
  {
  }

  // ----- which characters are wrong

  datatype Scanned = Scanned(lower: bool, upper: bool, errors: seq<int>)

  ghost function Scan(str: Text): Scanned {
    if |str| == 0 then Scanned(false, false, []) else
      var i, c, s := |str| - 1, str[|str| - 1], Scan(str[..|str| - 1]);
      if IsLower(c) then (if s.upper then s.(errors := s.errors + [i]) else s.(lower := true))
      else if IsUpper(c) then (if s.lower then s.(errors := s.errors + [i]) else s.(upper := true))
      else if !Printable(c) then s.(errors := s.errors + [i])
      else s
  }

  method CheckCharacters(str: Text) returns (ok: bool, errors: seq<int>)
    ensures errors == Scan(str).errors && (ok <==> errors == [])
  {
    var lower, upper := false, false;
    errors := [];
    for i := 0 to |str|
      invariant Scan(str[..i]) == Scanned(lower, upper, errors)
    {
      var c := str[i];
      assert str[..i + 1][..i] == str[..i];
      if IsLower(c) {
        if upper { errors := errors + [i]; } else { lower := true; }
      } else if IsUpper(c) {
        if lower { errors := errors + [i]; } else { upper := true; }
      } else if !Printable(c) {
        errors := errors + [i];
      }
    }
    assert str[..|str|] == str;
    ok := errors == [];
  }

  /** All characters are printable and the letters are of one case. */
  ghost predicate Clean(str: Text) {
    && (forall i :: 0 <= i < |str| ==> Printable(str[i]))
    && ((forall i :: 0 <= i < |str| ==> !IsUpper(str[i])) || (forall i :: 0 <= i < |str| ==> !IsLower(str[i])))
  }

  /** No error is reported exactly for clean strings. */
  lemma {:induction false} ScanFindsErrors(str: Text)
    ensures Scan(str).errors == [] <==> Clean(str)
    ensures Clean(str) ==> (Scan(str).lower <==> exists i :: 0 <= i < |str| && IsLower(str[i]))
    ensures Clean(str) ==> (Scan(str).upper <==> exists i :: 0 <= i < |str| && IsUpper(str[i]))
  {
    if |str| > 0 {
      var n, rest := |str| - 1, str[..|str| - 1];
      ScanFindsErrors(rest);
      assert str == rest + [str[n]];
    }
  }

  predicate IsLetter(c: bv8) { IsLower(c) || IsUpper(c) }

  /** The place of the first letter, or the length. */
  function FirstLetter(str: Text): (n: nat)
    ensures n <= |str| && (forall i :: 0 <= i < n ==> !IsLetter(str[i])) && (n < |str| ==> IsLetter(str[n]))
  {
    if |str| == 0 then 0 else
      var n := FirstLetter(str[..|str| - 1]);
      if n < |str| - 1 || IsLetter(str[|str| - 1]) then n else |str|
  }

  /** A character that cannot be printed, or a letter of another case than the first. */
  predicate IsWrong(str: Text, i: nat) {
    i < |str| && (!Printable(str[i]) || (IsLetter(str[i]) && IsUpper(str[i]) != IsUpper(str[FirstLetter(str)])))
  }

  ghost predicate AreWrong(str: Text, errors: seq<int>) {
    && (forall i :: i in errors <==> 0 <= i < |str| && IsWrong(str, i))
    && (forall i, j :: 0 <= i < j < |errors| ==> errors[i] < errors[j])
  }

  lemma FirstLetterSnoc(str: Text, n: nat)
    requires |str| == n + 1
    ensures var f := FirstLetter(str[..n]);
            FirstLetter(str) == if f < n then f else if IsLetter(str[n]) then n else n + 1
  {
  }

  lemma WrongBefore(str: Text, n: nat, i: nat)
    requires |str| == n + 1 && i < n
    ensures IsWrong(str, i) <==> IsWrong(str[..n], i)
  {
    FirstLetterSnoc(str, n);
    assert FirstLetter(str[..n]) == n ==> !IsLetter(str[..n][i]);
  }

  lemma WrongSnoc(str: Text, n: nat, before: seq<int>, after: seq<int>)
    requires |str| == n + 1 && AreWrong(str[..n], before) && after == if IsWrong(str, n) then before + [n] else before
    ensures AreWrong(str, after)
  {
    forall i | 0 <= i < n ensures IsWrong(str, i) <==> IsWrong(str[..n], i) { WrongBefore(str, n, i); }
    forall i | 0 <= i < |before| ensures before[i] < n { assert before[i] in before; }
  }

  /** The errors collected are exactly the wrong characters, in order. */
  lemma {:induction false} ScanExact(str: Text)
    ensures AreWrong(str, Scan(str).errors)
    ensures Scan(str).lower <==> FirstLetter(str) < |str| && IsLower(str[FirstLetter(str)])
    ensures Scan(str).upper <==> FirstLetter(str) < |str| && IsUpper(str[FirstLetter(str)])
  {
    if |str| > 0 {
      var n := |str| - 1;
      ScanExact(str[..n]);
      FirstLetterSnoc(str, n);
      WrongSnoc(str, n, Scan(str[..n]).errors, Scan(str).errors);
    }
  }

  // ----- writing

  ghost function Chars(values: seq<bv8>): Text {
    seq(|values|, i requires 0 <= i < |values| => CharOf(values[i]))
  }

  ghost function Encoded(encoding: Encoding, hrp: Text, values: seq<bv8>): Text
    requires !encoding.Invalid?
  {
    hrp + [SEPARATOR] + Chars(values + Checksum(encoding, hrp, values))
  }

  predicate NoUpper(str: Text) { forall i :: 0 <= i < |str| ==> !IsUpper(str[i]) }

  method AppendChars(str: Text, values: seq<bv8>) returns (ret: Text)
    ensures ret == str + Chars(values)
  {
    ret := str;
    for i := 0 to |values|
      invariant ret == str + Chars(values[..i])
    {
      ret := ret + [CharOf(values[i])];
    }
    assert values[..|values|] == values;
  }

  /** The caller must not pass upper case, as the assertion in the source says. */
  method Encode(encoding: Encoding, hrp: Text, values: seq<bv8>) returns (ret: Text)
    requires !encoding.Invalid? && NoUpper(hrp) && Symbols(values)
    ensures ret == Encoded(encoding, hrp, values)
  {
    var checksum := CreateChecksum(encoding, hrp, values);
    ret := hrp + [SEPARATOR];
    ret := AppendChars(ret, values);
    ret := AppendChars(ret, checksum);
    assert Chars(values + checksum) == Chars(values) + Chars(checksum);
  }

  // ----- reading

  /** The last place of the separator, or -1. */
  function RFind(str: Text): (r: int)
    ensures -1 <= r < |str| && (r >= 0 ==> str[r] == SEPARATOR) && forall i :: r < i < |str| ==> str[i] != SEPARATOR
  {
    if |str| == 0 then -1
    else if str[|str| - 1] == SEPARATOR then |str| - 1
    else RFind(str[..|str| - 1])
  }

  ghost function Lowered(str: Text): Text {
    seq(|str|, i requires 0 <= i < |str| => LowerCase(str[i]))
  }

  ghost function Values(str: Text): seq<bv8> {
    seq(|str|, i requires 0 <= i < |str| => RevOf(str[i]))
  }

  /** Human-readable part and values, without regard to the checksum. */
  ghost function Parsed(str: Text, limit: nat): Option<(Text, seq<bv8>)> {
    var pos := RFind(str);
    if !Clean(str) || |str| > limit || pos <= 0 || pos + CHECKSUM_SIZE >= |str| then None
    else
      var values := Values(str[pos + 1..]);
      if NO_VALUE in values then None else Some((Lowered(str[..pos]), values))
  }

  ghost function Decoded(str: Text, limit: nat): DecodeResult {
    var parts := Parsed(str, limit);
    var (hrp, values) := if parts.Some? then parts.value else ([], []);
    var encoding := Verified(hrp, values);
    if encoding.Invalid? || |values| < CHECKSUM_SIZE then DecodeResult(Invalid, [], [])
    else DecodeResult(encoding, hrp, values[..|values| - CHECKSUM_SIZE])
  }

  method ReadValues(str: Text, pos: nat) returns (ok: bool, values: seq<bv8>)
    requires pos < |str|
    ensures ok <==> NO_VALUE !in Values(str[pos + 1..])
    ensures ok ==> values == Values(str[pos + 1..])
  {
    ghost var all := Values(str[pos + 1..]);
    values := [];
    for i := 0 to |str| - 1 - pos
      invariant values == all[..i] && NO_VALUE !in values
    {
      var rev := RevOf(str[i + pos + 1]);
      assert all[i] == rev;
      if rev == NO_VALUE { return false, values; }
      values := values + [rev];
    }
    assert all[..|all|] == all;
    ok := true;
  }

  method ToLower(str: Text) returns (ret: Text)
    ensures ret == Lowered(str)
  {
    ret := [];
    for i := 0 to |str|
      invariant ret == Lowered(str[..i])
    {
      ret := ret + [LowerCase(str[i])];
    }
    assert str[..|str|] == str;
  }

  method DecodeParts(str: Text, limit: nat) returns (parts: Option<(Text, seq<bv8>)>)
    ensures parts == Parsed(str, limit)
  {
    var clean, errors := CheckCharacters(str);
    ScanFindsErrors(str);
    if !clean { return None; }
    var pos := RFind(str);
    if |str| > limit { return None; }
    if pos == -1 || pos == 0 || pos + CHECKSUM_SIZE >= |str| { return None; }
    var ok, values := ReadValues(str, pos);
    if !ok { return None; }
    var hrp := ToLower(str[..pos]);
    return Some((hrp, values));
  }

  /** A string that cannot be parsed fails the checksum of the empty string. */
  lemma EmptyInvalid()
    ensures Verified([], []) == Invalid
  {
    assert Coefficients([], []) == [0];
    FoldNext(1, [0], 0);
    assert [0][..1] == [0];
    assert Step(1, 0) == 32;
  }

  method Decode(str: Text, limit: nat) returns (r: DecodeResult)
    ensures r == Decoded(str, limit)
  {
    var parts := DecodeParts(str, limit);
    var hrp, values := [], [];
    if parts.Some? { hrp, values := parts.value.0, parts.value.1; }
    var encoding := VerifyChecksum(hrp, values);
    if encoding.Invalid? { return DecodeResult(Invalid, [], []); }
    EmptyInvalid();
    r := DecodeResult(encoding, hrp, values[..|values| - CHECKSUM_SIZE]);
  }

  // ----- reading undoes writing

  lemma ChecksumSymbols(encoding: Encoding, hrp: Text, values: seq<bv8>)
    requires !encoding.Invalid?
    ensures |Checksum(encoding, hrp, values)| == CHECKSUM_SIZE && Symbols(Checksum(encoding, hrp, values))
  {
    GroupsAreSymbols(Fold(1, Coefficients(hrp, values) + ZEROES) ^ EncodingConstant(encoding));
  }

  lemma GroupsAreSymbols(m: bv30)
    ensures |Groups(m)| == CHECKSUM_SIZE && Symbols(Groups(m))
  {
    LowIsSmall(m >> 25);
    LowIsSmall(m >> 20);
    LowIsSmall(m >> 15);
    LowIsSmall(m >> 10);
    LowIsSmall(m >> 5);
    LowIsSmall(m);
  }

  lemma LowIsSmall(m: bv30)
    ensures Low5(m) < 32
  {
  }

  lemma CharsRead(values: seq<bv8>)
    requires Symbols(values)
    ensures Values(Chars(values)) == values && NO_VALUE !in values
    ensures forall i :: 0 <= i < |values| ==>
              Chars(values)[i] != SEPARATOR && Printable(Chars(values)[i]) && !IsUpper(Chars(values)[i])
  {
    forall i | 0 <= i < |values|
      ensures RevOf(CharOf(values[i])) == values[i]
      ensures CharOf(values[i]) != SEPARATOR && Printable(CharOf(values[i])) && !IsUpper(CharOf(values[i]))
    {
      CharBack(values[i]);
      CharFacts(values[i]);
    }
  }

  lemma LowerStays(str: Text)
    requires NoUpper(str)
    ensures Lowered(str) == str
  {
  }

  lemma SeparatorAt(hrp: Text, values: seq<bv8>, str: Text)
    requires Symbols(values) && str == hrp + [SEPARATOR] + Chars(values)
    ensures RFind(str) == |hrp|
  {
    var n := |hrp|;
    CharsRead(values);
    assert str[n] == SEPARATOR;
    forall i | n < i < |str| ensures str[i] != SEPARATOR { assert str[i] == Chars(values)[i - n - 1]; }
    assert RFind(str) == n;
  }

  /** What hrp + separator + characters parses to. */
  lemma ParsedIs(hrp: Text, values: seq<bv8>, limit: nat)
    requires hrp != [] && (forall i :: 0 <= i < |hrp| ==> Printable(hrp[i])) && NoUpper(hrp)
    requires Symbols(values) && |values| >= CHECKSUM_SIZE && |hrp| + 1 + |values| <= limit
    ensures Parsed(hrp + [SEPARATOR] + Chars(values), limit) == Some((hrp, values))
  {
    var str, n := hrp + [SEPARATOR] + Chars(values), |hrp|;
    CharsRead(values);
    assert str[..n] == hrp && str[n] == SEPARATOR && str[n + 1..] == Chars(values);
    forall i | 0 <= i < |str| ensures Printable(str[i]) && !IsUpper(str[i]) {
      if i > n { assert str[i] == Chars(values)[i - n - 1]; }
    }
    SeparatorAt(hrp, values, str);
    LowerStays(hrp);
  }

  /** Decode undoes Encode, for every lower-case human-readable part and all
      5-bit values that fit in the limit. */
  lemma RoundTrip(encoding: Encoding, hrp: Text, values: seq<bv8>, limit: nat)
    requires !encoding.Invalid? && hrp != [] && (forall i :: 0 <= i < |hrp| ==> Printable(hrp[i])) && NoUpper(hrp)
    requires Symbols(values) && |hrp| + 1 + |values| + CHECKSUM_SIZE <= limit
    ensures Decoded(Encoded(encoding, hrp, values), limit) == DecodeResult(encoding, hrp, values)
  {
    var checksum := Checksum(encoding, hrp, values);
    ChecksumSymbols(encoding, hrp, values);
    ParsedIs(hrp, values + checksum, limit);
    ChecksumVerifies(encoding, hrp, values);
    assert (values + checksum)[..|values|] == values;
  }

  // ----- writing undoes reading

  lemma RevIsSymbol(c: bv8)
    requires RevOf(c) != NO_VALUE
    ensures RevOf(c) < 32
  {
  }

  lemma CharForth(c: bv8)
    requires RevOf(c) != NO_VALUE
    ensures CharOf(RevOf(c)) == LowerCase(c)
  {
    var v := RevOf(c);
    if v < 8 {
      CharForth0(c);
    } else if v < 16 {
      CharForth8(c);
    } else if v < 20 {
      CharForth16(c);
    } else if v < 24 {
      CharForth20(c);
    } else if v < 28 {
      CharForth24(c);
    } else {
      CharForth28(c);
    }
  }

  lemma CharForth0(c: bv8)
    requires RevOf(c) < 8
    ensures CharOf(RevOf(c)) == LowerCase(c)
  {
  }

  lemma CharForth8(c: bv8)
    requires 8 <= RevOf(c) < 16
    ensures CharOf(RevOf(c)) == LowerCase(c)
  {
  }

  lemma CharForth16(c: bv8)
    requires 16 <= RevOf(c) < 20
    ensures CharOf(RevOf(c)) == LowerCase(c)
  {
  }

  lemma CharForth20(c: bv8)
    requires 20 <= RevOf(c) < 24
    ensures CharOf(RevOf(c)) == LowerCase(c)
  {
  }

  lemma CharForth24(c: bv8)
    requires 24 <= RevOf(c) < 28
    ensures CharOf(RevOf(c)) == LowerCase(c)
  {
  }

  lemma CharForth28(c: bv8)
    requires 28 <= RevOf(c) != NO_VALUE
    ensures CharOf(RevOf(c)) == LowerCase(c)
  {
  }

  lemma ReadChars(str: Text)
    requires NO_VALUE !in Values(str)
    ensures Symbols(Values(str)) && Chars(Values(str)) == Lowered(str)
  {
    forall i | 0 <= i < |str| ensures RevOf(str[i]) < 32 && CharOf(RevOf(str[i])) == LowerCase(str[i]) {
      assert Values(str)[i] == RevOf(str[i]) && Values(str)[i] in Values(str);
      RevIsSymbol(str[i]);
      CharForth(str[i]);
    }
  }

  /** There is only one checksum that verifies. */
  lemma ChecksumUnique(encoding: Encoding, hrp: Text, values: seq<bv8>, tail: seq<bv8>)
    requires !encoding.Invalid? && |tail| == CHECKSUM_SIZE && Symbols(tail)
    requires Verified(hrp, values + tail) == encoding
    ensures tail == Checksum(encoding, hrp, values)
  {
    var checksum, enc := Checksum(encoding, hrp, values), Coefficients(hrp, values);
    ChecksumSymbols(encoding, hrp, values);
    ChecksumVerifies(encoding, hrp, values);
    CoefficientsAppend(hrp, values, tail);
    CoefficientsAppend(hrp, values, checksum);
    FoldConcat(1, enc, tail);
    FoldConcat(1, enc, checksum);
    if tail != checksum { WindowDiffers(Fold(1, enc), tail, checksum); }
  }

  lemma LoweredSplit(str: Text, n: nat)
    requires n < |str| && str[n] == SEPARATOR
    ensures Lowered(str) == Lowered(str[..n]) + [SEPARATOR] + Lowered(str[n + 1..])
  {
    assert LowerCase(SEPARATOR) == SEPARATOR;
  }

  lemma ValuesUnique(encoding: Encoding, hrp: Text, values: seq<bv8>, k: nat)
    requires |values| == k + CHECKSUM_SIZE && Symbols(values) && Verified(hrp, values) == encoding != Invalid
    ensures values[..k] + Checksum(encoding, hrp, values[..k]) == values
  {
    assert values == values[..k] + values[k..];
    ChecksumUnique(encoding, hrp, values[..k], values[k..]);
  }

  lemma DecodedParts(str: Text, limit: nat) returns (pos: nat, hrp: Text, values: seq<bv8>, k: nat)
    requires Decoded(str, limit).encoding != Invalid
    ensures pos < |str| && str[pos] == SEPARATOR && hrp == Lowered(str[..pos]) && values == Values(str[pos + 1..])
    ensures NO_VALUE !in values && |values| == k + CHECKSUM_SIZE
    ensures Decoded(str, limit) == DecodeResult(Verified(hrp, values), hrp, values[..k])
  {
    EmptyInvalid();
    pos := RFind(str);
    hrp, values := Lowered(str[..pos]), Values(str[pos + 1..]);
    k := |values| - CHECKSUM_SIZE;
  }

  /** Every accepted string is, up to case, the one its contents encode to. */
  lemma Canonical(str: Text, limit: nat)
    requires Decoded(str, limit).encoding != Invalid
    ensures var r := Decoded(str, limit); Encoded(r.encoding, r.hrp, r.data) == Lowered(str)
  {
    var pos, hrp, values, k := DecodedParts(str, limit);
    CanonicalParts(str, pos, hrp, values, Verified(hrp, values), k);
  }

  lemma CanonicalParts(str: Text, pos: nat, hrp: Text, values: seq<bv8>, encoding: Encoding, k: nat)
    requires pos < |str| && str[pos] == SEPARATOR && hrp == Lowered(str[..pos]) && values == Values(str[pos + 1..])
    requires NO_VALUE !in values && |values| == k + CHECKSUM_SIZE && encoding == Verified(hrp, values) != Invalid
    ensures Encoded(encoding, hrp, values[..k]) == Lowered(str)
  {
    ReadChars(str[pos + 1..]);
    ValuesUnique(encoding, hrp, values, k);
    LoweredSplit(str, pos);
  }
}
