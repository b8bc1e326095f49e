/**
 Base58 strings: leading zero bytes as ones, the rest as a number in base 58.
 */
module Base58 {
  import opened Helpers
  import opened Positional
  import opened Radix

  type Bytes = seq<int>

  ghost predicate IsBytes(x: Bytes) { InBase(256, x) }

  // ----- the alphabet

  /** The value of a character, or -1. */
  function Digit(c: char): int {
    var n := c as int;
    if '1' <= c <= '9' then n - '1' as int
    else if 'A' <= c <= 'H' then n - 'A' as int + 9
    else if 'J' <= c <= 'N' then n - 'J' as int + 17
    else if 'P' <= c <= 'Z' then n - 'P' as int + 22
    else if 'a' <= c <= 'k' then n - 'a' as int + 33
    else if 'm' <= c <= 'z' then n - 'm' as int + 44
    else -1
  }

  /** The character of a value: digits and letters, without 0, O, I and l. */
  function CharOf(d: int): char
    requires 0 <= d < 58
  {
    if d < 9 then (d + '1' as int) as char
    else if d < 17 then (d - 9 + 'A' as int) as char
    else if d < 22 then (d - 17 + 'J' as int) as char
    else if d < 33 then (d - 22 + 'P' as int) as char
    else if d < 44 then (d - 33 + 'a' as int) as char
    else (d - 44 + 'm' as int) as char
  }

  predicate IsSpace(c: char) { c == ' ' || '\t' <= c <= '\r' }

  lemma DigitOfChar(d: int)
    requires 0 <= d < 58
    ensures Digit(CharOf(d)) == d && !IsSpace(CharOf(d)) && (CharOf(d) == '1' <==> d == 0)
  {
  }

  lemma CharOfDigit(c: char)
    requires Digit(c) != -1
    ensures 0 <= Digit(c) < 58 && CharOf(Digit(c)) == c && !IsSpace(c) && (c == '1' <==> Digit(c) == 0)
  {
  }

  const ALPHABET: string := "123456789" + "ABCDEFGH" + "JKLMN" + "PQRSTUVWXYZ" + "abcdefghijk" + "mnopqrstuvwxyz"

  /** A stretch of characters in a row. */
  ghost predicate InRow(s: string, first: char) {
    forall i :: 0 <= i < |s| ==> s[i] as int == first as int + i
  }

  lemma Rows()
    ensures InRow("123456789", '1') && InRow("ABCDEFGH", 'A') && InRow("JKLMN", 'J') && InRow("PQRSTUVWXYZ", 'P')
    ensures InRow("abcdefghijk", 'a') && InRow("mnopqrstuvwxyz", 'm')
  {
  }

  /** The two tables are the alphabet. */
  lemma InAlphabet(d: int)
    requires 0 <= d < 58
    ensures |ALPHABET| == 58 && CharOf(d) == ALPHABET[d]
  {
    Rows();
    var a, b, c, e, f, g := "123456789", "ABCDEFGH", "JKLMN", "PQRSTUVWXYZ", "abcdefghijk", "mnopqrstuvwxyz";
    assert ALPHABET[d] ==
           if d < 9 then a[d] else if d < 17 then b[d - 9] else if d < 22 then c[d - 17]
           else if d < 33 then e[d - 22] else if d < 44 then f[d - 33] else g[d - 44];
  }

  lemma AlphabetDigits(c: char)
    ensures Digit(c) != -1 <==> c in ALPHABET
    ensures Digit(c) != -1 ==> 0 <= Digit(c) < 58 && ALPHABET[Digit(c)] == c
  {
    if Digit(c) != -1 {
      CharOfDigit(c);
      InAlphabet(Digit(c));
    } else if c in ALPHABET {
      var d :| 0 <= d < |ALPHABET| && ALPHABET[d] == c;
      InAlphabet(d);
      DigitOfChar(d);
      assert false;
    }
  }

  ghost function Chars(d: seq<int>): string
    requires InBase(58, d)
  {
    seq(|d|, i requires 0 <= i < |d| => CharOf(d[i]))
  }

  ghost function Values(s: string): seq<int> {
    seq(|s|, i requires 0 <= i < |s| => Digit(s[i]))
  }

  // ----- encoding

  ghost function LeadingZeroes(x: Bytes): (z: nat)
    ensures z <= |x|
  {
    if |x| == 0 || x[0] != 0 then 0 else 1 + LeadingZeroes(x[1..])
  }

  function Ones(n: nat): string { seq(n, i => '1') }
  function Zeroes(n: nat): Bytes { seq(n, i => 0) }

  lemma {:induction false} LeadingIs(x: Bytes, z: nat)
    requires z <= |x| && (forall i :: 0 <= i < z ==> x[i] == 0) && (z < |x| ==> x[z] != 0)
    ensures LeadingZeroes(x) == z
    decreases z
  {
    if z > 0 { LeadingIs(x[1..], z - 1); }
  }

  lemma {:induction false} LeadingFacts(x: Bytes)
    ensures var z := LeadingZeroes(x);
            && z <= |x| && (forall i :: 0 <= i < z ==> x[i] == 0) && (z < |x| ==> x[z] != 0)
            && x == Zeroes(z) + x[z..]
  {
    if |x| > 0 && x[0] == 0 { LeadingFacts(x[1..]); }
  }

  ghost function Encoded(x: Bytes): string
    requires IsBytes(x)
  {
    var z := LeadingZeroes(x);
    NumBelow(256, x[z..]);
    DigitsNum(58, Num(256, x[z..]));
    Ones(z) + Chars(Digits(58, Num(256, x[z..])))
  }

  /** The number of the first bytes fits in the buffer. */
  lemma EncodeFits(x: Bytes, k: nat, size: nat)
    requires IsBytes(x) && k <= |x| && size == |x| * 138 / 100 + 1
    ensures 0 <= Num(256, x[..k]) < Pow(58, size)
  {
    NumBelow(256, x[..k]);
    Sizes256To58();
    SizeSuffices(256, 58, 100, 138, |x|);
    if k < |x| { PowLess(256, k, |x|); }
  }

  /** The digits in use, highest first, are the digits of the number. */
  lemma BufferDigits(b: nat, d: seq<int>, length: nat)
    requires b >= 2 && Filled(b, d, length)
    ensures Val(b, d) >= 0 && Reversed(d[..length]) == Digits(b, Val(b, d))
  {
    ValZeroes(b, d, length);
    NumReversed(b, d[..length]);
    NumDigits(b, Reversed(d[..length]));
  }

  method CountZeroes(x: Bytes) returns (z: nat)
    ensures z == LeadingZeroes(x)
  {
    z := 0;
    while z < |x| && x[z] == 0
      invariant z <= |x| && forall i :: 0 <= i < z ==> x[i] == 0
    {
      z := z + 1;
    }
    LeadingIs(x, z);
  }

  /** The number of `x` in base 58, in a buffer that is large enough. */
  method ToBase58(x: Bytes) returns (buffer: array<int>, length: nat)
    requires IsBytes(x)
    ensures fresh(buffer) && Filled(58, buffer[..], length) && Val(58, buffer[..]) == Num(256, x)
  {
    var size := |x| * 138 / 100 + 1;
    buffer := new int[size](i => 0);
    length := 0;
    ValZeroes(58, buffer[..], 0);
    for k := 0 to |x|
      invariant Filled(58, buffer[..], length) && Val(58, buffer[..]) == Num(256, x[..k])
    {
      assert x[..k + 1][..k] == x[..k];
      EncodeFits(x, k + 1, size);
      length := MulAdd(buffer, 58, 256, x[k], length);
    }
    assert x[..|x|] == x;
  }

  method WriteDigits(z: nat, buffer: array<int>, length: nat) returns (str: string)
    requires Filled(58, buffer[..], length)
    ensures InBase(58, Reversed(buffer[..length])) && str == Ones(z) + Chars(Reversed(buffer[..length]))
  {
    ghost var d := Reversed(buffer[..length]);
    str := Ones(z);
    for i := 0 to length
      invariant str == Ones(z) + Chars(d[..i])
    {
      str := str + [CharOf(buffer[length - 1 - i])];
    }
    assert d[..length] == d;
  }

  method SkipZeroes(buffer: array<int>, length: nat) returns (top: nat)
    requires length <= buffer.Length
    ensures top <= length && (top < length ==> buffer[length - 1] == 0)
  {
    top := length;
    while top > 0 && buffer[top - 1] == 0
      invariant top <= length && (top < length ==> buffer[length - 1] == 0)
    {
      top := top - 1;
    }
  }

  method EncodeBase58(input: Bytes) returns (str: string)
    requires IsBytes(input)
    ensures str == Encoded(input)
  {
    var z := CountZeroes(input);
    LeadingFacts(input);
    var buffer, length := ToBase58(input[z..]);
    BufferDigits(58, buffer[..], length);
    var top := SkipZeroes(buffer, length);
    str := WriteDigits(z, buffer, top);
  }

  // ----- decoding

  ghost function LeadingSpaces(s: string): (n: nat)
    ensures n <= |s|
  {
    if |s| == 0 || !IsSpace(s[0]) then 0 else 1 + LeadingSpaces(s[1..])
  }

  ghost function LeadingOnes(s: string): (n: nat)
    ensures n <= |s|
  {
    if |s| == 0 || s[0] != '1' then 0 else 1 + LeadingOnes(s[1..])
  }

  /** How many characters there are before the first space. */
  ghost function WordLength(s: string): (n: nat)
    ensures n <= |s| && (forall i :: 0 <= i < n ==> !IsSpace(s[i])) && (n < |s| ==> IsSpace(s[n]))
  {
    if |s| == 0 || IsSpace(s[0]) then 0 else 1 + WordLength(s[1..])
  }

  ghost predicate AllSpaces(s: string) { forall i :: 0 <= i < |s| ==> IsSpace(s[i]) }

  ghost predicate AllDigits(s: string) { forall i :: 0 <= i < |s| ==> Digit(s[i]) != -1 }

  lemma ValuesInBase(s: string)
    requires AllDigits(s)
    ensures InBase(58, Values(s)) && Num(58, Values(s)) >= 0
  {
    forall i | 0 <= i < |s| ensures 0 <= Digit(s[i]) < 58 { CharOfDigit(s[i]); }
    NumBelow(58, Values(s));
  }

  /** The bytes of a word behind `z` ones. */
  ghost function WordBytes(z: nat, word: string, maxLen: int): Option<Bytes>
    requires AllDigits(word)
  {
    ValuesInBase(word);
    var bytes := Digits(256, Num(58, Values(word)));
    if z + |bytes| > Max(0, maxLen) then None else Some(Zeroes(z) + bytes)
  }

  /** What there is behind the ones. */
  ghost function DecodedTail(z: nat, t: string, maxLen: int): Option<Bytes> {
    var n := WordLength(t);
    if !AllDigits(t[..n]) || !AllSpaces(t[n..]) then None else WordBytes(z, t[..n], maxLen)
  }

  ghost function Decoded(str: string, maxLen: int): Option<Bytes> {
    var s := str[LeadingSpaces(str)..];
    var z := LeadingOnes(s);
    DecodedTail(z, s[z..], maxLen)
  }

  lemma {:induction false} LeadingSpacesIs(s: string, n: nat)
    requires n <= |s| && (forall i :: 0 <= i < n ==> IsSpace(s[i])) && (n < |s| ==> !IsSpace(s[n]))
    ensures LeadingSpaces(s) == n
    decreases n
  {
    if n > 0 { LeadingSpacesIs(s[1..], n - 1); }
  }

  method SkipSpaces(str: string, start: nat) returns (p: nat)
    requires start <= |str|
    ensures start <= p <= |str| && (forall i :: start <= i < p ==> IsSpace(str[i])) && (p < |str| ==> !IsSpace(str[p]))
  {
    p := start;
    while p < |str| && IsSpace(str[p])
      invariant start <= p <= |str| && forall i :: start <= i < p ==> IsSpace(str[i])
    {
      p := p + 1;
    }
  }

  /** The leading ones, unless there are too many. */
  method SkipOnes(str: string, start: nat, maxLen: int) returns (ok: bool, p: nat)
    requires start <= |str|
    ensures ok <==> LeadingOnes(str[start..]) <= Max(0, maxLen)
    ensures ok ==> p == start + LeadingOnes(str[start..])
  {
    ghost var s := str[start..];
    LeadingOnesFacts(s);
    ghost var z := LeadingOnes(s);
    p := start;
    while p < |str| && str[p] == '1'
      invariant start <= p <= start + z && (p > start ==> p - start <= maxLen)
    {
      assert str[p] == s[p - start];
      if p + 1 - start > maxLen { return false, p; }
      p := p + 1;
    }
    ok := true;
  }

  /** The number of the first characters fits in the buffer. */
  lemma DecodeFits(word: string, k: nat, size: nat)
    requires k <= |word| && AllDigits(word[..k]) && size == |word| * 733 / 1000 + 1
    ensures 0 <= Num(58, Values(word[..k])) < Pow(256, size)
  {
    ValuesInBase(word[..k]);
    NumBelow(58, Values(word[..k]));
    Sizes58To256();
    SizeSuffices(58, 256, 1000, 733, |word|);
    if k < |word| { PowLess(58, k, |word|); }
  }

  lemma {:induction false} DigitsLonger(b: nat, m: nat, n: nat)
    requires b >= 2 && m <= n
    ensures |Digits(b, m)| <= |Digits(b, n)|
    decreases n
  {
    if m > 0 {
      var p, r := DivMod(m, b);
      var q, t := DivMod(n, b);
      if p > q { ProductsLe(q + 1, p, b, b); }
      DigitsLonger(b, p, q);
    }
  }

  lemma NumNext(word: string, k: nat)
    requires k < |word| && AllDigits(word[..k + 1])
    ensures Num(58, Values(word[..k + 1])) == 58 * Num(58, Values(word[..k])) + Digit(word[k])
  {
    var v := Values(word[..k + 1]);
    assert v[..k] == Values(word[..k]) && v[k] == Digit(word[k]);
  }

  lemma {:induction false} NumPrefix(b: nat, d: seq<int>, k: nat)
    requires b >= 1 && InBase(b, d) && k <= |d|
    ensures Num(b, d[..k]) <= Num(b, d)
    decreases |d|
  {
    if k == |d| {
      assert d[..k] == d;
    } else {
      var n := |d| - 1;
      NumPrefix(b, d[..n], k);
      assert d[..n][..k] == d[..k];
      NumNonneg(b, d[..n]);
      ProductsLe(1, b, Num(b, d[..n]), Num(b, d[..n]));
    }
  }

  /** A word is too long if its beginning is. */
  lemma TooLong(z: nat, t: string, k: nat, n: nat, maxLen: int)
    requires k <= n <= |t| && AllDigits(t[..n]) && AllDigits(t[..k]) && Num(58, Values(t[..k])) >= 0
    requires z + |Digits(256, Num(58, Values(t[..k])))| > Max(0, maxLen)
    ensures WordBytes(z, t[..n], maxLen) == None
  {
    ValuesInBase(t[..n]);
    var d := Values(t[..n]);
    assert d[..k] == Values(t[..k]);
    NumPrefix(58, d, k);
    DigitsLonger(256, Num(58, d[..k]), Num(58, d));
  }

  lemma {:induction false} WordLengthAt(t: string, n: nat)
    requires n <= |t| && (forall i :: 0 <= i < n ==> !IsSpace(t[i])) && (n < |t| ==> IsSpace(t[n]))
    ensures WordLength(t) == n
  {
  }

  lemma FirstInUse(b: nat, d: seq<int>, length: nat)
    requires b >= 2 && Filled(b, d, length) && Val(b, d) > 0
    ensures length > 0
  {
    ValZeroes(b, d, length);
  }

  lemma WordPositive(t: string, k: nat)
    requires 0 < k <= |t| && AllDigits(t[..k]) && t[0] != '1'
    ensures Num(58, Values(t[..k])) > 0
  {
    ValuesInBase(t[..k]);
    CharOfDigit(t[0]);
    assert Values(t[..k])[0] == Digit(t[0]);
    NumNonneg(58, Values(t[..k]));
  }

  /** One more character. */
  method AddChar(t: string, k: nat, buffer: array<int>, length: nat) returns (n: nat)
    requires k < |t| && t[0] != '1' && AllDigits(t[..k + 1]) && buffer.Length == |t| * 733 / 1000 + 1
    requires Filled(256, buffer[..], length) && Val(256, buffer[..]) == Num(58, Values(t[..k]))
    modifies buffer
    ensures Filled(256, buffer[..], n) && Val(256, buffer[..]) == Num(58, Values(t[..k + 1])) > 0
    ensures n == |Digits(256, Num(58, Values(t[..k + 1])))| > 0
  {
    assert t[..k + 1][k] == t[k];
    CharOfDigit(t[k]);
    NumNext(t, k);
    DecodeFits(t, k + 1, buffer.Length);
    n := MulAdd(buffer, 256, 58, Digit(t[k]), length);
    BufferDigits(256, buffer[..], n);
    WordPositive(t, k + 1);
    FirstInUse(256, buffer[..], n);
  }

  lemma TooLongTail(z: nat, t: string, k: nat, n: nat, maxLen: int)
    requires n == WordLength(t) && k <= n && AllDigits(t[..k]) && Num(58, Values(t[..k])) >= 0
    requires z + |Digits(256, Num(58, Values(t[..k])))| > Max(0, maxLen)
    ensures DecodedTail(z, t, maxLen) == None
  {
    if AllDigits(t[..n]) { TooLong(z, t, k, n, maxLen); }
  }

  /** The loop over the characters. */
  method DecodeWord(t: string, z: nat, maxLen: int) returns (ok: bool, k: nat, buffer: array<int>, length: nat)
    requires |t| > 0 ==> t[0] != '1'
    ensures !ok ==> DecodedTail(z, t, maxLen) == None
    ensures ok ==> k == WordLength(t) && AllDigits(t[..k]) && Filled(256, buffer[..], length)
    ensures ok ==> Val(256, buffer[..]) == Num(58, Values(t[..k])) && (k > 0 ==> z + length <= Max(0, maxLen))
  {
    buffer := new int[|t| * 733 / 1000 + 1](i => 0);
    length := 0;
    ValZeroes(256, buffer[..], 0);
    k := 0;
    while k < |t| && !IsSpace(t[k])
      invariant k <= |t| && (forall i :: 0 <= i < k ==> !IsSpace(t[i])) && AllDigits(t[..k])
      invariant fresh(buffer) && buffer.Length == |t| * 733 / 1000 + 1 && Filled(256, buffer[..], length)
      invariant Val(256, buffer[..]) == Num(58, Values(t[..k])) && (k > 0 ==> z + length <= Max(0, maxLen))
    {
      ghost var n := WordLength(t);
      assert k < n && t[..n][k] == t[k];
      if Digit(t[k]) == -1 {
        ok := false;
        return;
      }
      length := AddChar(t, k, buffer, length);
      k := k + 1;
      if length + z > maxLen {
        TooLongTail(z, t, k, n, maxLen);
        ok := false;
        return;
      }
    }
    WordLengthAt(t, k);
    ok := true;
  }

  method WriteBytes(z: nat, buffer: array<int>, length: nat) returns (bytes: Bytes)
    requires length <= buffer.Length
    ensures bytes == Zeroes(z) + Reversed(buffer[..length])
  {
    ghost var d := Reversed(buffer[..length]);
    bytes := Zeroes(z);
    for i := 0 to length
      invariant bytes == Zeroes(z) + d[..i]
    {
      bytes := bytes + [buffer[length - 1 - i]];
    }
    assert d[..length] == d;
  }

  method DecodeTail(z: nat, t: string, maxLen: int) returns (r: Option<Bytes>)
    requires z <= Max(0, maxLen) && (|t| > 0 ==> t[0] != '1')
    ensures r == DecodedTail(z, t, maxLen)
  {
    var ok, k, buffer, length := DecodeWord(t, z, maxLen);
    if !ok { return None; }
    var end := SkipSpaces(t, k);
    if end != |t| {
      assert t[k..][end - k] == t[end];
      return None;
    }
    assert AllSpaces(t[k..]);
    BufferDigits(256, buffer[..], length);
    if k == 0 { assert |Digits(256, 0)| == 0; }
    var bytes := WriteBytes(z, buffer, length);
    r := Some(bytes);
  }

  method DecodeBase58(str: string, maxLen: int) returns (r: Option<Bytes>)
    ensures r == Decoded(str, maxLen)
  {
    var start := SkipSpaces(str, 0);
    LeadingSpacesIs(str, start);
    var few, p := SkipOnes(str, start, maxLen);
    if !few { return None; }
    ghost var s := str[start..];
    LeadingOnesFacts(s);
    assert s[p - start..] == str[p..];
    r := DecodeTail(p - start, str[p..], maxLen);
  }

  // ----- reading undoes writing

  lemma CharsValues(d: seq<int>)
    requires InBase(58, d)
    ensures Values(Chars(d)) == d && AllDigits(Chars(d)) && (forall i :: 0 <= i < |d| ==> !IsSpace(Chars(d)[i]))
  {
    forall i | 0 <= i < |d| ensures Digit(CharOf(d[i])) == d[i] && !IsSpace(CharOf(d[i])) { DigitOfChar(d[i]); }
  }

  lemma ValuesChars(s: string)
    requires AllDigits(s)
    ensures InBase(58, Values(s)) && Chars(Values(s)) == s
  {
    ValuesInBase(s);
    forall i | 0 <= i < |s| ensures CharOf(Digit(s[i])) == s[i] { CharOfDigit(s[i]); }
  }

  lemma {:induction false} LeadingOnesIs(s: string, z: nat)
    requires z <= |s| && (forall i :: 0 <= i < z ==> s[i] == '1') && (z < |s| ==> s[z] != '1')
    ensures LeadingOnes(s) == z
    decreases z
  {
    if z > 0 { LeadingOnesIs(s[1..], z - 1); }
  }

  lemma {:induction false} LeadingOnesFacts(s: string)
    ensures var z := LeadingOnes(s); s == Ones(z) + s[z..] && (z < |s| ==> s[z] != '1')
  {
    if |s| > 0 && s[0] == '1' { LeadingOnesFacts(s[1..]); }
  }

  lemma {:induction false} WordLengthIs(s: string)
    requires forall i :: 0 <= i < |s| ==> !IsSpace(s[i])
    ensures WordLength(s) == |s|
  {
  }

  /** What a string of ones and a word without spaces decodes to. */
  lemma DecodedWord(z: nat, word: string, maxLen: int)
    requires AllDigits(word) && (|word| > 0 ==> word[0] != '1')
    ensures Decoded(Ones(z) + word, maxLen) == WordBytes(z, word, maxLen)
  {
    var s := Ones(z) + word;
    forall i | 0 <= i < |word| ensures !IsSpace(word[i]) { CharOfDigit(word[i]); }
    if |s| > 0 { assert s[0] == if z > 0 then '1' else word[0]; }
    assert LeadingSpaces(s) == 0 && s[0..] == s;
    LeadingOnesIs(s, z);
    assert s[z..] == word;
    WordLengthIs(word);
    assert word[..|word|] == word && word[|word|..] == [];
  }

  /** Decode undoes Encode, for every byte string that is not too long. */
  lemma RoundTrip(x: Bytes, maxLen: int)
    requires IsBytes(x)
    ensures Decoded(Encoded(x), maxLen) == if |x| <= Max(0, maxLen) then Some(x) else None
  {
    var z := LeadingZeroes(x);
    var n := Num(256, x[z..]);
    LeadingFacts(x);
    NumBelow(256, x[z..]);
    NumDigits(256, x[z..]);
    DigitsNum(58, n);
    var d := Digits(58, n);
    CharsValues(d);
    if |d| > 0 { DigitOfChar(d[0]); }
    DecodedWord(z, Chars(d), maxLen);
  }

  lemma WordBack(z: nat, t: string, maxLen: int)
    requires AllDigits(t) && (|t| > 0 ==> t[0] != '1') && WordBytes(z, t, maxLen).Some?
    ensures IsBytes(WordBytes(z, t, maxLen).value) && Encoded(WordBytes(z, t, maxLen).value) == Ones(z) + t
  {
    var d := Values(t);
    ValuesChars(t);
    if |t| > 0 { CharOfDigit(t[0]); }
    NumDigits(58, d);
    NumNonneg(58, d);
    var n := Num(58, d);
    DigitsNum(256, n);
    var x := Zeroes(z) + Digits(256, n);
    LeadingIs(x, z);
    assert x[z..] == Digits(256, n);
  }

  /** Encode undoes Decode, on every string accepted that has no space at its ends. */
  lemma RoundTripBack(s: string, maxLen: int)
    requires Decoded(s, maxLen).Some? && (|s| > 0 ==> !IsSpace(s[0]) && !IsSpace(s[|s| - 1]))
    ensures IsBytes(Decoded(s, maxLen).value) && Encoded(Decoded(s, maxLen).value) == s
  {
    assert LeadingSpaces(s) == 0 && s[0..] == s;
    var z := LeadingOnes(s);
    LeadingOnesFacts(s);
    var t := s[z..];
    assert t[..WordLength(t)] == t;
    WordBack(z, t, maxLen);
  }

  lemma {:induction false} OnesBefore(s: string, b: string)
    requires b == [] || b[0] != '1'
    ensures LeadingOnes(s + b) == LeadingOnes(s)
  {
    if |s| == 0 {
      assert s + b == b;
    } else {
      assert (s + b)[1..] == s[1..] + b;
      if s[0] == '1' { OnesBefore(s[1..], b); }
    }
  }

  /** Spaces around a word do not count. */
  lemma SpacesIgnored(a: string, s: string, b: string, maxLen: int)
    requires AllSpaces(a) && AllSpaces(b) && forall i :: 0 <= i < |s| ==> !IsSpace(s[i])
    ensures Decoded(a + s + b, maxLen) == Decoded(s, maxLen)
  {
    var str := a + s + b;
    LeadingSpacesIs(s, 0);
    assert s[0..] == s;
    if s == [] {
      LeadingSpacesIs(str, |str|);
      assert str[|str|..] == [];
    } else {
      LeadingSpacesIs(str, |a|);
      assert str[|a|..] == s + b;
      OnesBefore(s, b);
      var z := LeadingOnes(s);
      var t := s[z..];
      assert (s + b)[z..] == t + b;
      WordLengthAt(t, |t|);
      WordLengthAt(t + b, |t|);
      assert t[..|t|] == t && (t + b)[..|t|] == t && (t + b)[|t|..] == b && t[|t|..] == [];
    }
  }

  // ----- with a checksum

  /** The first four bytes of the hash of what precedes them. */
  ghost predicate IsChecksum(hash: Bytes -> Bytes) { forall x :: |hash(x)| == 4 && IsBytes(hash(x)) }

  ghost function EncodedCheck(hash: Bytes -> Bytes, x: Bytes): string
    requires IsChecksum(hash) && IsBytes(x)
  {
    Encoded(x + hash(x))
  }

  const INT_MAX: int := 0x7fff_ffff

  function WithChecksum(maxLen: int): int { if maxLen > INT_MAX - 4 then INT_MAX else maxLen + 4 }

  ghost function DecodedCheck(hash: Bytes -> Bytes, s: string, maxLen: int): Option<Bytes> {
    var all := Decoded(s, WithChecksum(maxLen));
    if all.None? || |all.value| < 4 then None else
      var n := |all.value| - 4;
      if hash(all.value[..n]) != all.value[n..] then None else Some(all.value[..n])
  }

  lemma CheckRoundTrip(hash: Bytes -> Bytes, x: Bytes, maxLen: int)
    requires IsChecksum(hash) && IsBytes(x) && |x| <= maxLen && |x| + 4 <= INT_MAX
    ensures DecodedCheck(hash, EncodedCheck(hash, x), maxLen) == Some(x)
    ensures Decoded(EncodedCheck(hash, x), WithChecksum(maxLen)) == Some(x + hash(x))
  {
    var all := x + hash(x);
    var s := EncodedCheck(hash, x);
    assert Decoded(s, WithChecksum(maxLen)) == Some(all) by { RoundTrip(all, WithChecksum(maxLen)); }
    Checked(hash, s, maxLen, all, x, hash(x));
  }

  lemma Checked(hash: Bytes -> Bytes, s: string, maxLen: int, all: Bytes, x: Bytes, h: Bytes)
    requires Decoded(s, WithChecksum(maxLen)) == Some(all) && all == x + h && h == hash(x) && |h| == 4
    ensures DecodedCheck(hash, s, maxLen) == Some(x)
  {
    assert all[..|x|] == x && all[|x|..] == h;
  }

  lemma CheckRoundTripBack(hash: Bytes -> Bytes, s: string, maxLen: int)
    requires IsChecksum(hash) && DecodedCheck(hash, s, maxLen).Some? &&
             (|s| > 0 ==> !IsSpace(s[0]) && !IsSpace(s[|s| - 1]))
    ensures IsBytes(DecodedCheck(hash, s, maxLen).value) && EncodedCheck(hash, DecodedCheck(hash, s, maxLen).value) == s
  {
    RoundTripBack(s, WithChecksum(maxLen));
    var all := Decoded(s, WithChecksum(maxLen)).value;
    assert all == all[..|all| - 4] + all[|all| - 4..];
  }

  // ----- published strings

  lemma NumFour(b: nat, d: seq<int>)
    requires |d| == 4
    ensures Num(b, d) == ((d[0] * b + d[1]) * b + d[2]) * b + d[3]
  {
    var c, e, f := d[..3], d[..2], d[..1];
    assert c[..2] == e && e[..1] == f && f[..0] == [];
    assert Num(b, f) == d[0];
    assert Num(b, e) == d[0] * b + d[1];
  }

  lemma DigitsStep(n: nat, q: nat, r: nat, d: seq<int>)
    requires n == q * 58 + r && r < 58 && n > 0 && Digits(58, q) == d
    ensures Digits(58, n) == d + [r]
  {
  }

  /** "Rt5zm" stands for the bytes 10c8511e. */
  lemma PublishedString()
    ensures IsBytes([0x10, 0xc8, 0x51, 0x1e]) && Encoded([0x10, 0xc8, 0x51, 0x1e]) == "Rt5zm"
  {
    var x := [0x10, 0xc8, 0x51, 0x1e];
    NumFour(256, x);
    var d := PublishedDigits();
    assert LeadingZeroes(x) == 0 && x[0..] == x;
    NumBelow(256, x);
    DigitsNum(58, Num(256, x));
    assert Chars(d) == "Rt5zm";
    assert Ones(0) + Chars(d) == Chars(d);
  }

  lemma PublishedDigits() returns (d: seq<int>)
    ensures d == [24, 51, 4, 57, 44] && Digits(58, 0x10c8511e) == d
  {
    assert Digits(58, 0) == [];
    DigitsStep(24, 0, 24, []);
    DigitsStep(1443, 24, 51, [24]);
    DigitsStep(83698, 1443, 4, [24, 51]);
    DigitsStep(4854541, 83698, 57, [24, 51, 4]);
    DigitsStep(281563422, 4854541, 44, [24, 51, 4, 57]);
    d := [24, 51, 4, 57, 44];
  }
}
