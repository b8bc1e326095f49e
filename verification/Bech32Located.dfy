/**
 What LocateErrors says of a valid string with one character changed.
 */
module Bech32Located {
  import opened Bech32
  import opened Bech32Clash
  import opened Bech32Constant
  import opened Bech32Errors
  import opened Bech32Field
  import opened Bech32Locate
  import opened Bech32Search
  import opened Bech32Strings
  import opened Bech32Syndrome
  import opened Helpers

  // ----- a substituted character

  lemma ResidueIs(a: bv30, b: bv30, k: bv30, d: bv30)
    requires a == k && a ^ b == d && a != b
    ensures b ^ k == d && d != 0
  {
  }

  lemma ChangeShows(hrp: Text, v: seq<bv8>, w: seq<bv8>, i: nat, x: bv8, a: bv30, b: bv30)
    requires Symbols(v) && i < |v| && x < 32 && x != v[i] && w == v[i := x]
    requires a == Fold(1, Coefficients(hrp, v)) && b == Fold(1, Coefficients(hrp, w))
    ensures a != b
  {
    assert w[..i] == v[..i] && w[i + 1..] == v[i + 1..];
    BurstDetected(hrp, v, w, i, i + 1);
  }

  lemma ChangedFrom(hrp: Text, v: seq<bv8>, w: seq<bv8>, i: nat, x: bv8, delta: bv8, p: nat, a: bv30, b: bv30, d: bv30,
                    k: bv30)
    requires Symbols(v) && i < |v| && x < 32 && x != v[i] && w == v[i := x] && delta == v[i] ^ x && p == |v| - 1 - i
    requires a == Fold(1, Coefficients(hrp, v)) && b == Fold(1, Coefficients(hrp, w)) &&
             d == ErrorRemainder(delta, p) && a == k
    ensures b ^ k == d && d != 0
  {
    ChangeShows(hrp, v, w, i, x, a, b);
    ChangeDiffers(hrp, v, w, i, x, delta, p, a, b, d);
    ResidueIs(a, b, k, d);
  }

  lemma VerifiedIs(hrp: Text, v: seq<bv8>)
    requires Verified(hrp, v) != Invalid
    ensures Fold(1, Coefficients(hrp, v)) == EncodingConstant(Verified(hrp, v))
  {
  }

  lemma ChangedResidue(hrp: Text, v: seq<bv8>, w: seq<bv8>, i: nat, x: bv8, delta: bv8, p: nat, d: bv30)
    requires Verified(hrp, v) != Invalid && Symbols(v) && i < |v| && x < 32 && x != v[i]
    requires w == v[i := x] && delta == v[i] ^ x && p == |v| - 1 - i && d == Residue(Verified(hrp, v), hrp, w)
    ensures d == ErrorRemainder(delta, p) && d != 0
  {
    VerifiedIs(hrp, v);
    ChangedFrom(hrp, v, w, i, x, delta, p, Fold(1, Coefficients(hrp, v)), Fold(1, Coefficients(hrp, w)),
        ErrorRemainder(delta, p),
                EncodingConstant(Verified(hrp, v)));
  }

  // ----- under either encoding

  /** The difference and the place of two errors that turn one constant into the other. */
  ghost predicate Confused(delta: bv8, p: nat, length: nat) { delta == 19 && (p == 33 || p == 192) && 192 < length }

  function Other(encoding: Encoding): Encoding {
    match encoding
    case Invalid => Invalid
    case Bech32 => Bech32m
    case Bech32m => Bech32.Bech32
  }

  lemma ConstantsDiffer(encoding: Encoding)
    requires !encoding.Invalid?
    ensures EncodingConstant(encoding) ^ EncodingConstant(Other(encoding)) == CLASH
  {
  }

  lemma ResidueIsXor(encoding: Encoding, hrp: Text, w: seq<bv8>, check: bv30, k: bv30)
    requires !encoding.Invalid? && check == Fold(1, Coefficients(hrp, w)) && k == EncodingConstant(encoding)
    ensures Residue(encoding, hrp, w) == check ^ k
  {
  }

  /** What a string leaves under the two encodings differs by the difference of their constants. */
  lemma OtherResidue(hrp: Text, w: seq<bv8>, encoding: Encoding)
    requires !encoding.Invalid?
    ensures Residue(encoding, hrp, w) ^ CLASH == Residue(Other(encoding), hrp, w)
  {
    var check, a, b := Fold(1, Coefficients(hrp, w)), EncodingConstant(encoding), EncodingConstant(Other(encoding));
    ResidueIsXor(encoding, hrp, w, check, a);
    ResidueIsXor(Other(encoding), hrp, w, check, b);
    ConstantsDiffer(encoding);
    XorSwaps(check, a, b, CLASH);
  }

  lemma XorSwaps(a: bv30, b: bv30, c: bv30, k: bv30)
    requires b ^ c == k
    ensures (a ^ b) ^ k == a ^ c
  {
  }

  lemma XorMoves(a: bv30, b: bv30, k: bv30)
    ensures a ^ k == b <==> k == a ^ b
  {
  }

  /** No single change turns a valid string of one encoding into one of the other. */
  lemma OtherNonzero(d: bv30, r: bv30, delta: bv8, p: nat)
    requires 0 < delta < 32 && d == ErrorRemainder(delta, p) && r == d ^ CLASH
    ensures r != 0
  {
    XorMoves(d, 0, CLASH);
    if r == 0 {
      assert IsOne(CLASH, p, delta);
      OneKeepsApart(p);
    }
  }

  lemma OtherOne(d: bv30, r: bv30, delta: bv8, p: nat, q: nat, eps: bv8)
    requires 0 < delta < 32 && 0 < eps < 32 && p < ORDER && q < ORDER && d == ErrorRemainder(delta, p) && r == d ^ CLASH
    ensures IsOne(r, q, eps) <==> ClashAt(p, q) && delta == 19 && eps == 19
  {
    XorMoves(d, ErrorRemainder(eps, q), CLASH);
    TwoThatClash(p, q, delta, eps);
  }

  lemma OtherFits(d: bv30, r: bv30, delta: bv8, p: nat, q: nat)
    requires 0 < delta < 32 && p < ORDER && q < ORDER && d == ErrorRemainder(delta, p) && r == d ^ CLASH
    ensures OneOff(r, q) <==> ClashAt(p, q) && delta == 19
  {
    if OneOff(r, q) {
      var eps: bv8 :| IsOne(r, q, eps);
      OtherOne(d, r, delta, p, q, eps);
    }
    OtherOne(d, r, delta, p, q, 19);
  }

  /** Read as the other encoding, the error looks like one error only if it is confused. */
  lemma OtherErrors(exp: seq<Gf>, log: Gf -> int, d: bv30, r: bv30, delta: bv8, p: nat, length: nat, size: nat,
                    e: seq<int>, mixed: bool, j: int)
    requires Tables(exp, log) && 0 < delta < 32 && p < length <= ORDER && d == ErrorRemainder(delta, p) &&
             r == d ^ CLASH
    requires e == PossibleErrors(exp, log, SyndromeOf(r), length, size)
    requires mixed == Confused(delta, p, length) && j == size - 1 - (225 - p)
    ensures |e| == 1 <==> mixed
    ensures mixed ==> e == [j]
  {
    SearchIsExact(exp, log, r, length, size, e);
    if |e| == 1 {
      var q :| 0 <= q < length && OneOff(r, q);
      OtherFits(d, r, delta, p, q);
    }
    if mixed { OtherFits(d, r, delta, p, 225 - p); }
  }

  /** Under the encoding of the original, the changed value is the one found. */
  lemma OwnErrors(exp: seq<Gf>, log: Gf -> int, d: bv30, delta: bv8, p: nat, length: nat, size: nat, i: int)
    requires Tables(exp, log) && 0 < delta < 32 && p < length <= ORDER && d == ErrorRemainder(delta, p) &&
             i == size - 1 - p
    ensures PossibleErrors(exp, log, SyndromeOf(d), length, size) == [i]
  {
    assert IsOne(d, p, delta);
    OneFound(exp, log, d, SyndromeOf(d), length, size, p, i);
  }

  // ----- LocateErrors on a string with one character changed

  lemma RevNotSeparator(c: bv8)
    requires RevOf(c) != NO_VALUE
    ensures c != SEPARATOR
  {
  }

  /** A change behind the separator leaves the rest of the parse alone. */
  lemma ChangedParse(str: Text, i: nat, c: bv8)
    requires 0 <= RFind(str) < i < |str| && c != SEPARATOR
    ensures var pos := RFind(str);
            && RFind(str[i := c]) == pos && str[i := c][..pos] == str[..pos]
            && Values(str[i := c][pos + 1..]) == Values(str[pos + 1..])[i - pos - 1 := RevOf(c)]
  {
    var pos, t := RFind(str), str[i := c];
    assert t[pos] == SEPARATOR && forall k :: pos < k < |t| ==> t[k] != SEPARATOR;
    assert t[pos + 1..] == str[pos + 1..][i - pos - 1 := c];
  }

  lemma ParsedParts(str: Text, limit: nat) returns (pos: nat, hrp: Text, v: seq<bv8>)
    requires Parsed(str, limit).Some?
    ensures Parsed(str, limit) == Some((hrp, v)) && IsParse(str, limit, pos, hrp, v)
  {
    pos := RFind(str);
    hrp, v := Lowered(str[..pos]), Values(str[pos + 1..]);
  }

  ghost predicate IsParse(str: Text, limit: nat, pos: nat, hrp: Text, v: seq<bv8>) {
    && pos == RFind(str) && 0 < pos && pos + CHECKSUM_SIZE < |str| <= limit && Clean(str)
    && hrp == Lowered(str[..pos]) && v == Values(str[pos + 1..]) && |v| == |str| - pos - 1 && NO_VALUE !in v
  }

  /** What LocateErrors answers, in terms of the values. */
  lemma LocatedIs(exp: seq<Gf>, log: Gf -> int, str: Text, limit: nat, pos: nat, hrp: Text, v: seq<bv8>)
    requires Tables(exp, log) && limit <= ORDER && IsParse(str, limit, pos, hrp, v)
    ensures Parsed(str, limit) == Some((hrp, v))
    ensures Located(exp, log, str, limit) ==
            Report(ErrorsUnder(exp, log, Bech32.Bech32, hrp, v, |str|), ErrorsUnder(exp, log, Bech32m, hrp, v, |str|))
  {
    assert Located(exp, log, str, limit) == LocatedAfter(exp, log, str, pos);
  }

  lemma NoBadValue(v: seq<bv8>, k: nat, x: bv8)
    requires k < |v| && NO_VALUE !in v && x != NO_VALUE
    ensures NO_VALUE !in v[k := x]
  {
  }

  /** A string with one data character changed, as LocateErrors reads it. */
  ghost predicate OneChanged(str: Text, i: nat, c: bv8) {
    && RFind(str) < i < |str| && RevOf(c) != NO_VALUE && RevOf(c) != RevOf(str[i]) && Clean(str[i := c])
  }

  lemma DecodedIs(str: Text, limit: nat, hrp: Text, v: seq<bv8>)
    requires Parsed(str, limit) == Some((hrp, v))
    ensures Decoded(str, limit).encoding == Verified(hrp, v)
  {
  }

  lemma AcceptedParses(str: Text, limit: nat)
    requires Decoded(str, limit).encoding != Invalid
    ensures Parsed(str, limit).Some?
  {
    EmptyInvalid();
  }

  /** The values before and after the change. */
  lemma ChangedValues(exp: seq<Gf>, log: Gf -> int, str: Text, limit: nat, i: nat, c: bv8, r: (Message, seq<int>))
    returns (hrp: Text, v: seq<bv8>, w: seq<bv8>, k: nat)
    requires Tables(exp, log) && limit <= ORDER && Parsed(str, limit).Some? && OneChanged(str, i, c)
    requires r == Located(exp, log, str[i := c], limit)
    ensures Parsed(str, limit) == Some((hrp, v)) && Parsed(str[i := c], limit) == Some((hrp, w))
    ensures Symbols(v) && k < |v| <= ORDER && k == i - (|str| - |v|) && w == v[k := RevOf(c)] && RevOf(c) < 32 &&
            RevOf(c) != v[k] && v[k] == RevOf(str[i])
    ensures |v| == |str| - 1 - RFind(str)
    ensures r == Report(ErrorsUnder(exp, log, Bech32.Bech32, hrp, w, |str|),
            ErrorsUnder(exp, log, Bech32m, hrp, w, |str|))
  {
    var pos;
    pos, hrp, v := ParsedParts(str, limit);
    ReadChars(str[pos + 1..]);
    k := i - pos - 1;
    var x := RevOf(c);
    w := v[k := x];
    assert v[k] == RevOf(str[i]);
    RevIsSymbol(c);
    var t := str[i := c];
    assert IsParse(t, limit, pos, hrp, w) by {
      RevNotSeparator(c);
      ChangedParse(str, i, c);
      NoBadValue(v, k, x);
    }
    LocatedIs(exp, log, t, limit, pos, hrp, w);
  }

  /** What both encodings make of a valid string with one value changed. */
  lemma BothEncodings(exp: seq<Gf>, log: Gf -> int, hrp: Text, v: seq<bv8>, w: seq<bv8>, k: nat, x: bv8, size: nat,
                      delta: bv8, p: nat, n: nat, mixed: bool, encoding: Encoding, other: Encoding, i: int, j: int)
    requires Tables(exp, log) && Symbols(v) && k < |v| == n <= ORDER && x < 32 && x != v[k] && w == v[k := x]
    requires delta == v[k] ^ x && p == n - 1 - k && mixed == Confused(delta, p, n)
    requires encoding == Verified(hrp, v) != Invalid && other == Other(encoding)
    requires i == size - 1 - p && j == size - 1 - (225 - p)
    ensures ErrorsUnder(exp, log, encoding, hrp, w, size) == Some([i])
    ensures ErrorsUnder(exp, log, other, hrp, w, size).Some?
    ensures var e := ErrorsUnder(exp, log, other, hrp, w, size).value; (|e| == 1 <==> mixed) && (mixed ==> e == [j])
  {
    var d, r := Residue(encoding, hrp, w), Residue(other, hrp, w);
    ChangedResidue(hrp, v, w, k, x, delta, p, d);
    SmallXor(v[k], x);
    OtherResidue(hrp, w, encoding);
    OwnErrors(exp, log, d, delta, p, n, size, i);
    OtherNonzero(d, r, delta, p);
    OtherErrors(exp, log, d, r, delta, p, n, size, PossibleErrors(exp, log, SyndromeOf(r), n, size), mixed, j);
  }

  /** What both encodings together report. */
  function Reported(encoding: Encoding, mixed: bool, i: int, j: int): (Message, seq<int>) {
    if encoding == Bech32.Bech32 then (InvalidBech32Checksum, [i])
    else if mixed then (InvalidBech32Checksum, [j])
    else (InvalidBech32mChecksum, [i])
  }

  lemma ReportChanged(exp: seq<Gf>, log: Gf -> int, hrp: Text, v: seq<bv8>, w: seq<bv8>, k: nat, x: bv8, size: nat,
                      delta: bv8, p: nat, n: nat, mixed: bool, encoding: Encoding, i: int, j: int,
                      r: (Message, seq<int>))
    requires Tables(exp, log) && Symbols(v) && k < |v| == n <= ORDER && x < 32 && x != v[k] && w == v[k := x]
    requires delta == v[k] ^ x && p == n - 1 - k && mixed == Confused(delta, p, n)
    requires encoding == Verified(hrp, v) != Invalid && i == size - 1 - p && j == size - 1 - (225 - p)
    requires r == Report(ErrorsUnder(exp, log, Bech32.Bech32, hrp, w, size),
             ErrorsUnder(exp, log, Bech32m, hrp, w, size))
    ensures r == Reported(encoding, mixed, i, j)
  {
    BothEncodings(exp, log, hrp, v, w, k, x, size, delta, p, n, mixed, encoding, Other(encoding), i, j);
  }

  /** The difference of the change, its place from the end, the length of the data part and the other place. */
  ghost predicate IsChange(str: Text, i: nat, c: bv8, delta: bv8, p: nat, n: nat, j: int) {
    && RFind(str) < i < |str| && delta == RevOf(str[i]) ^ RevOf(c)
    && p == |str| - 1 - i && n == |str| - 1 - RFind(str) && j == |str| - 1 - (225 - p)
  }

  /** What LocateErrors says of the changed string. */
  lemma ChangeReported(exp: seq<Gf>, log: Gf -> int, str: Text, limit: nat, i: nat, c: bv8, delta: bv8, p: nat, n: nat,
                       mixed: bool, encoding: Encoding, j: int, r: (Message, seq<int>))
    requires Tables(exp, log) && limit <= ORDER && encoding == Decoded(str, limit).encoding != Invalid &&
             OneChanged(str, i, c)
    requires IsChange(str, i, c, delta, p, n, j) && mixed == Confused(delta, p, n) &&
             r == Located(exp, log, str[i := c], limit)
    ensures r == Reported(encoding, mixed, i, j)
  {
    AcceptedParses(str, limit);
    var hrp, v, w, k := ChangedValues(exp, log, str, limit, i, c, r);
    DecodedIs(str, limit, hrp, v);
    ReportChanged(exp, log, hrp, v, w, k, RevOf(c), |str|, delta, p, n, mixed, encoding, i, j, r);
  }

  /** A valid Bech32 string with one data character changed: LocateErrors returns exactly that place. */
  lemma Bech32ErrorLocated(exp: seq<Gf>, log: Gf -> int, str: Text, limit: nat, i: nat, c: bv8)
    requires Tables(exp, log) && limit <= ORDER && Decoded(str, limit).encoding == Bech32.Bech32 &&
             OneChanged(str, i, c)
    ensures Located(exp, log, str[i := c], limit) == (InvalidBech32Checksum, [i])
  {
    var delta, p, n := RevOf(str[i]) ^ RevOf(c), |str| - 1 - i, |str| - 1 - RFind(str);
    ChangeReported(exp, log, str, limit, i, c, delta, p, n, Confused(delta, p, n), Bech32.Bech32, |str| - 1 - (225 - p),
                   Located(exp, log, str[i := c], limit));
  }

  /**
   For a Bech32m string so changed, LocateErrors returns exactly that place, unless the difference
   is 19, the place is 33 or 192 before the end, and both are in the data part: then it reports
   the other one of the two as an error in a Bech32 string.
   */
  lemma Bech32mErrorLocated(exp: seq<Gf>, log: Gf -> int, str: Text, limit: nat, i: nat, c: bv8, delta: bv8, p: nat,
                          n: nat, j: int)
    requires Tables(exp, log) && limit <= ORDER && Decoded(str, limit).encoding == Bech32m && OneChanged(str, i, c)
    requires IsChange(str, i, c, delta, p, n, j)
    ensures Located(exp, log, str[i := c], limit) ==
            if Confused(delta, p, n) then (InvalidBech32Checksum, [j]) else (InvalidBech32mChecksum, [i])
  {
    ChangeReported(exp, log, str, limit, i, c, delta, p, n, Confused(delta, p, n), Bech32m, j,
                   Located(exp, log, str[i := c], limit));
  }

  /** In particular wherever the data part has at most 192 values, for either encoding. */
  lemma ErrorLocated(exp: seq<Gf>, log: Gf -> int, str: Text, limit: nat, i: nat, c: bv8, encoding: Encoding)
    requires Tables(exp, log) && limit <= ORDER && encoding == Decoded(str, limit).encoding != Invalid &&
             OneChanged(str, i, c)
    requires |str| - 1 - RFind(str) <= 192
    ensures Located(exp, log, str[i := c], limit) ==
            (if encoding == Bech32m then InvalidBech32mChecksum else InvalidBech32Checksum, [i])
  {
    var delta, p, n := RevOf(str[i]) ^ RevOf(c), |str| - 1 - i, |str| - 1 - RFind(str);
    if encoding == Bech32m {
      Bech32mErrorLocated(exp, log, str, limit, i, c, delta, p, n, |str| - 1 - (225 - p));
    } else {
      Bech32ErrorLocated(exp, log, str, limit, i, c);
    }
  }

  // ----- a string whose error is reported elsewhere

  lemma CharsChanged(hrp: Text, v: seq<bv8>, k: nat, x: bv8)
    requires k < |v|
    ensures (hrp + [SEPARATOR] + Chars(v))[|hrp| + 1 + k := CharOf(x)] == hrp + [SEPARATOR] + Chars(v[k := x])
  {
    assert Chars(v)[k := CharOf(x)] == Chars(v[k := x]);
  }

  lemma FlipIsSymbol(y: bv8, x: bv8)
    requires y < 32 && x == y ^ 19
    ensures x < 32 && x != y && y ^ x == 19
  {
  }

  /** Changing one value of a written string by 19. */
  lemma FlippedValue(y: bv8) returns (x: bv8, c: bv8)
    requires y < 32
    ensures x == y ^ 19 && x < 32 && x != y && c == CharOf(x) && RevOf(c) == x && RevOf(CharOf(y)) == y && x != NO_VALUE
  {
    x := y ^ 19;
    FlipIsSymbol(y, x);
    c := CharOf(x);
    CharBack(x);
    CharBack(y);
  }

  lemma FlippedChar(hrp: Text, v: seq<bv8>, str: Text, limit: nat, k: nat, i: nat, n: nat) returns (c: bv8)
    requires hrp != [] && (forall i :: 0 <= i < |hrp| ==> Printable(hrp[i])) && NoUpper(hrp)
    requires Symbols(v) && |v| >= CHECKSUM_SIZE && k < |v| && str == hrp + [SEPARATOR] + Chars(v) && |str| <= limit
    requires i == |hrp| + 1 + k && n == |v|
    ensures OneChanged(str, i, c) && RevOf(str[i]) ^ RevOf(c) == 19 && n == |str| - 1 - RFind(str)
  {
    var x;
    x, c := FlippedValue(v[k]);
    assert str[i] == CharOf(v[k]);
    CharsChanged(hrp, v, k, x);
    SeparatorAt(hrp, v, str);
    ParsedIs(hrp, v[k := x], limit);
    FlipIsSymbol(v[k], x);
  }

  /** Every Bech32m string with more than 192 values behind the separator has such a change. */
  lemma Mislocated(exp: seq<Gf>, log: Gf -> int, hrp: Text, values: seq<bv8>, limit: nat, str: Text, i: nat, j: nat)
    returns (c: bv8)
    requires Tables(exp, log) && hrp != [] && (forall i :: 0 <= i < |hrp| ==> Printable(hrp[i])) && NoUpper(hrp)
    requires Symbols(values) && 186 < |values| && |hrp| + 1 + |values| + CHECKSUM_SIZE <= limit <= ORDER
    requires str == Encoded(Bech32m, hrp, values) && i == |str| - 34 && j == |str| - 193
    ensures Decoded(str, limit).encoding == Bech32m && OneChanged(str, i, c)
    ensures Located(exp, log, str[i := c], limit) == (InvalidBech32Checksum, [j])
  {
    RoundTrip(Bech32m, hrp, values, limit);
    var v := values + Checksum(Bech32m, hrp, values);
    ChecksumSymbols(Bech32m, hrp, values);
    c := FlippedChar(hrp, v, str, limit, |v| - 34, i, |v|);
    MislocatedChange(exp, log, str, limit, i, c, |v|, j);
  }

  lemma MislocatedChange(exp: seq<Gf>, log: Gf -> int, str: Text, limit: nat, i: nat, c: bv8, n: nat, j: nat)
    requires Tables(exp, log) && limit <= ORDER && Decoded(str, limit).encoding == Bech32m && OneChanged(str, i, c)
    requires RevOf(str[i]) ^ RevOf(c) == 19 && n == |str| - 1 - RFind(str) && 192 < n && i == |str| - 34 &&
             j == |str| - 193
    ensures Located(exp, log, str[i := c], limit) == (InvalidBech32Checksum, [j])
  {
    Bech32mErrorLocated(exp, log, str, limit, i, c, 19, 33, n, j);
  }

  // ----- characters that stand for no value

  lemma FirstBadAt(v: seq<bv8>, k: nat)
    requires k < |v| && NO_VALUE !in v
    ensures FirstBad(v[k := NO_VALUE], 0) == k
  {
    FirstBadIs(v[k := NO_VALUE], 0, k);
  }

  lemma BadParse(str: Text, i: nat, c: bv8, pos: nat, t: Text)
    requires pos == RFind(str) && pos < i < |str| && t == str[i := c] && c != SEPARATOR && RevOf(c) == NO_VALUE
    requires NO_VALUE !in Values(str[pos + 1..])
    ensures RFind(t) == pos && NO_VALUE in Values(t[pos + 1..]) && BadPlace(t, pos) == i
  {
    ChangedParse(str, i, c);
    BadValues(Values(str[pos + 1..]), i - pos - 1, Values(t[pos + 1..]));
  }

  lemma BadValues(v: seq<bv8>, k: nat, w: seq<bv8>)
    requires k < |v| && NO_VALUE !in v && w == v[k := NO_VALUE]
    ensures NO_VALUE in w && FirstBad(w, 0) == k
  {
    assert w[k] == NO_VALUE;
    FirstBadAt(v, k);
  }

  lemma LocatedBad(exp: seq<Gf>, log: Gf -> int, t: Text, limit: nat, pos: nat, i: nat)
    requires |exp| == ORDER && |t| <= limit <= ORDER && Clean(t) && pos == RFind(t) && 0 < pos
    requires pos + CHECKSUM_SIZE < |t| && NO_VALUE in Values(t[pos + 1..]) && i == BadPlace(t, pos)
    ensures Located(exp, log, t, limit) == (InvalidBase32, [i])
  {
  }

  /** A data character changed to one outside the alphabet is reported at exactly that place. */
  lemma BadValueLocated(exp: seq<Gf>, log: Gf -> int, str: Text, limit: nat, i: nat, c: bv8)
    requires Tables(exp, log) && limit <= ORDER && Decoded(str, limit).encoding != Invalid && RFind(str) < i < |str|
    requires RevOf(c) == NO_VALUE && c != SEPARATOR && Clean(str[i := c])
    ensures Located(exp, log, str[i := c], limit) == (InvalidBase32, [i])
  {
    AcceptedParses(str, limit);
    var pos, hrp, v := ParsedParts(str, limit);
    BadParse(str, i, c, pos, str[i := c]);
    LocatedBad(exp, log, str[i := c], limit, pos, i);
  }

  /** A character that cannot be printed, or one of the other case behind a letter. */
  ghost predicate Wrong(str: Text, i: nat, c: bv8) {
    || !Printable(c)
    || (IsUpper(c) && exists j :: 0 <= j < i <= |str| && IsLower(str[j]))
    || (IsLower(c) && exists j :: 0 <= j < i <= |str| && IsUpper(str[j]))
  }

  lemma {:induction false} ScanFindsOne(str: Text, i: nat, c: bv8, n: nat, t: Text)
    requires Clean(str) && i < |str| && Wrong(str, i, c) && t == str[i := c] && n <= |str|
    ensures n <= i ==> Scan(t[..n]) == Scan(str[..n])
    ensures i < n ==> Scan(t[..n]).errors == [i]
    ensures Scan(t[..n]).lower ==> Scan(str[..n]).lower
    ensures Scan(t[..n]).upper ==> Scan(str[..n]).upper
    decreases n
  {
    if n > 0 {
      ScanFindsOne(str, i, c, n - 1, t);
      assert str[..n][..n - 1] == str[..n - 1] && t[..n][..n - 1] == t[..n - 1];
      ScanFindsErrors(str[..n - 1]);
      ScanFindsErrors(str[..n]);
    }
  }

  /** A separator with a character before it and at least six behind it. */
  ghost predicate Placed(str: Text, pos: int) {
    0 < pos < |str| - 6 && str[pos] == 0x31 && forall i :: pos < i < |str| ==> str[i] != 0x31
  }

  /** The data of a string with its separator at `pos`, with the remainder of an encoding. */
  ghost predicate Sums(str: Text, pos: int, encoding: Encoding) {
    && 0 <= pos < |str| && encoding != Invalid
    && Fold(1, Coefficients(Lowered(str[..pos]), Values(str[pos + 1..]))) ==
       if encoding.Bech32? then 1 else 0x2bc830a3
  }

  /** Which strings are accepted: of one case and within the limit, with a separator at its
      place, data in the alphabet and the right remainder. */
  lemma AcceptedExactly(str: Text, limit: nat, encoding: Encoding)
    requires encoding != Invalid
    ensures Decoded(str, limit).encoding == encoding <==>
            && |str| <= limit && Clean(str)
            && exists pos :: 0 <= pos < |str| && Placed(str, pos) && !Strange(str, pos) && Sums(str, pos, encoding)
  {
    var pos := RFind(str);
    SeparatorIs(str, pos);
    EmptyInvalid();
    if Placed(str, pos) {
      var hrp, values := Lowered(str[..pos]), Values(str[pos + 1..]);
      StrangeIs(str, pos);
      PlacedParses(str, limit, pos, hrp, values, Strange(str, pos));
      if Parsed(str, limit).Some? { SumsAre(str, limit, pos, hrp, values, encoding); }
    }
  }

  lemma PlacedParses(str: Text, limit: nat, pos: nat, hrp: Text, values: seq<bv8>, odd: bool)
    requires Placed(str, pos) && pos == RFind(str) && hrp == Lowered(str[..pos]) && values == Values(str[pos + 1..])
    requires odd <==> NO_VALUE in values
    ensures Parsed(str, limit) == if |str| <= limit && Clean(str) && !odd then Some((hrp, values)) else None
  {
  }

  lemma SumsAre(str: Text, limit: nat, pos: nat, hrp: Text, values: seq<bv8>, encoding: Encoding)
    requires pos < |str| && hrp == Lowered(str[..pos]) && values == Values(str[pos + 1..]) && encoding != Invalid
    requires Parsed(str, limit) == Some((hrp, values))
    ensures Decoded(str, limit).encoding == encoding <==> Sums(str, pos, encoding)
  {
    DecodedIs(str, limit, hrp, values);
  }

  /** Which strings are refused for their shape, and with which places: all beyond the limit;
      all wrong characters; none without a separator, and otherwise the last one; the first
      data character outside the alphabet. */
  lemma ShapeReported(exp: seq<Gf>, log: Gf -> int, str: Text, limit: nat, r: (Message, seq<int>))
    requires |exp| == ORDER && limit <= ORDER && r == Located(exp, log, str, limit)
    ensures r.0 == TooLong <==> |str| > limit
    ensures r.0 == TooLong ==> |r.1| == |str| - limit && forall i :: 0 <= i < |r.1| ==> r.1[i] == limit + i
    ensures r.0 == InvalidCharacter <==> |str| <= limit && !Clean(str)
    ensures r.0 == MissingSeparator <==> |str| <= limit && Clean(str) && 0x31 !in str
    ensures r.0 == MissingSeparator ==> r.1 == []
    ensures r.0 == InvalidSeparatorPosition <==>
            |str| <= limit && Clean(str) && 0x31 in str && forall pos :: 0 <= pos < |str| ==> !Placed(str, pos)
    ensures r.0 == InvalidSeparatorPosition ==>
            |r.1| == 1 && 0 <= r.1[0] < |str| && str[r.1[0]] == 0x31 && 0x31 !in str[r.1[0] + 1..]
    ensures r.0 == InvalidBase32 <==>
            |str| <= limit && Clean(str) && exists pos :: 0 <= pos < |str| && Placed(str, pos) && Strange(str, pos)
    ensures r.0 == InvalidBase32 ==> |r.1| == 1 && FirstStrange(str, r.1[0])
  {
    var pos := RFind(str);
    LocatedKinds(exp, log, str, limit, pos, r);
    SeparatorIs(str, pos);
  }

  lemma LocatedKinds(exp: seq<Gf>, log: Gf -> int, str: Text, limit: nat, pos: int, r: (Message, seq<int>))
    requires |exp| == ORDER && limit <= ORDER && r == Located(exp, log, str, limit) && pos == RFind(str)
    ensures r.0 == TooLong <==> |str| > limit
    ensures r.0 == TooLong ==> |r.1| == |str| - limit && forall i :: 0 <= i < |r.1| ==> r.1[i] == limit + i
    ensures r.0 == InvalidCharacter <==> |str| <= limit && !Clean(str)
    ensures r.0 == MissingSeparator <==> |str| <= limit && Clean(str) && pos == -1
    ensures r.0 == MissingSeparator ==> r.1 == []
    ensures r.0 == InvalidSeparatorPosition <==>
            |str| <= limit && Clean(str) && pos != -1 && !(0 < pos < |str| - 6)
    ensures r.0 == InvalidSeparatorPosition ==> r.1 == [pos]
    ensures r.0 == InvalidBase32 <==> |str| <= limit && Clean(str) && 0 < pos < |str| - 6 && Strange(str, pos)
    ensures r.0 == InvalidBase32 ==> |r.1| == 1 && FirstStrange(str, r.1[0])
  {
    if |str| <= limit && 0 < pos < |str| - 6 { AfterKinds(exp, log, str, pos); }
  }

  lemma AfterKinds(exp: seq<Gf>, log: Gf -> int, str: Text, pos: nat)
    requires |exp| == ORDER && 0 < pos < |str| - 6 && |str| <= ORDER && pos == RFind(str)
    ensures var r := LocatedAfter(exp, log, str, pos);
            && r.0 in {NoError, InvalidChecksum, InvalidBech32Checksum, InvalidBech32mChecksum, InvalidBase32}
            && (r.0 == InvalidBase32 <==> Strange(str, pos))
            && (r.0 == InvalidBase32 ==> |r.1| == 1 && FirstStrange(str, r.1[0]))
  {
    StrangeIs(str, pos);
  }

  lemma SeparatorIs(str: Text, pos: int)
    requires pos == RFind(str)
    ensures pos == -1 <==> 0x31 !in str
    ensures pos != -1 ==> str[pos] == 0x31 && 0x31 !in str[pos + 1..]
    ensures 0 < pos < |str| - 6 <==> Placed(str, pos)
    ensures forall other :: 0 <= other < |str| && Placed(str, other) ==> other == pos
  {
    if 0x31 in str {
      var i :| 0 <= i < |str| && str[i] == 0x31;
    }
  }

  /** The first character behind the last separator that stands for no value. */
  ghost predicate FirstStrange(str: Text, place: int) {
    && RFind(str) < place < |str| && RevOf(str[place]) == NO_VALUE
    && forall i :: RFind(str) < i < place ==> RevOf(str[i]) != NO_VALUE
  }

  /** Some character behind `pos` stands for no value. */
  ghost predicate Strange(str: Text, pos: int) { exists i :: 0 <= i < |str| && pos < i && RevOf(str[i]) == NO_VALUE }

  lemma ValueAt(str: Text, pos: nat, values: seq<bv8>, i: nat)
    requires pos < i < |str| && values == Values(str[pos + 1..])
    ensures |values| == |str| - pos - 1 && values[i - pos - 1] == RevOf(str[i])
  {
  }

  lemma StrangeSeen(str: Text, pos: nat, values: seq<bv8>)
    requires pos < |str| && values == Values(str[pos + 1..]) && NO_VALUE in values
    ensures Strange(str, pos)
  {
    var j :| 0 <= j < |values| && values[j] == NO_VALUE;
    ValueAt(str, pos, values, j + pos + 1);
  }

  lemma StrangeThere(str: Text, pos: nat, values: seq<bv8>, i: nat)
    requires pos < i < |str| && values == Values(str[pos + 1..]) && RevOf(str[i]) == NO_VALUE
    ensures i - pos - 1 < |values| && values[i - pos - 1] == NO_VALUE
  {
    ValueAt(str, pos, values, i);
  }

  lemma FirstStrangeIs(str: Text, pos: nat, values: seq<bv8>, place: nat)
    requires pos == RFind(str) && values == Values(str[pos + 1..]) && pos < place < |str|
    requires place - pos - 1 < |values| && values[place - pos - 1] == NO_VALUE
    requires forall j :: 0 <= j < place - pos - 1 ==> values[j] != NO_VALUE
    ensures FirstStrange(str, place)
  {
    ValueAt(str, pos, values, place);
    forall i | pos < i < place ensures RevOf(str[i]) != NO_VALUE {
      assert values[i - pos - 1] != NO_VALUE;
      ValueAt(str, pos, values, i);
    }
  }

  lemma StrangeIs(str: Text, pos: nat)
    requires pos == RFind(str)
    ensures NO_VALUE in Values(str[pos + 1..]) <==> Strange(str, pos)
    ensures Strange(str, pos) ==> FirstStrange(str, BadPlace(str, pos))
  {
    var values := Values(str[pos + 1..]);
    FirstBadLeast(values, 0);
    if NO_VALUE in values {
      StrangeSeen(str, pos, values);
      FirstStrangeIs(str, pos, values, BadPlace(str, pos));
    } else if Strange(str, pos) {
      var i :| 0 <= i < |str| && pos < i && RevOf(str[i]) == NO_VALUE;
      StrangeThere(str, pos, values, i);
      assert false;
    }
  }

  lemma {:induction false} FirstBadLeast(values: seq<bv8>, i: nat)
    requires i <= |values|
    ensures i <= FirstBad(values, i) <= |values| && forall j :: i <= j < FirstBad(values, i) ==> values[j] != NO_VALUE
    ensures FirstBad(values, i) < |values| ==> values[FirstBad(values, i)] == NO_VALUE
    decreases |values| - i
  {
    if i < |values| && values[i] != NO_VALUE { FirstBadLeast(values, i + 1); }
  }

  /** It is reported, alone. */
  lemma BadCharacterLocated(exp: seq<Gf>, log: Gf -> int, str: Text, limit: nat, i: nat, c: bv8)
    requires |exp| == ORDER && |str| <= limit <= ORDER && Clean(str) && i < |str| && Wrong(str, i, c)
    ensures Located(exp, log, str[i := c], limit) == (InvalidCharacter, [i])
  {
    var t := str[i := c];
    ScanFindsOne(str, i, c, |str|, t);
    assert t[..|str|] == t;
    ScanFindsErrors(t);
  }

  /** In any string, all characters that are wrong are reported, and no others. */
  lemma BadCharactersLocated(exp: seq<Gf>, log: Gf -> int, str: Text, limit: nat, errors: seq<int>)
    requires |exp| == ORDER && |str| <= limit <= ORDER && AreWrong(str, errors) && errors != []
    ensures Located(exp, log, str, limit) == (InvalidCharacter, errors)
  {
    ScanExact(str);
    SameErrors(str, errors, Scan(str).errors);
    ScanFindsErrors(str);
  }

  lemma {:induction false} SameAscending(a: seq<int>, b: seq<int>)
    requires (forall x :: x in a <==> x in b)
    requires (forall i, j :: 0 <= i < j < |a| ==> a[i] < a[j]) && (forall i, j :: 0 <= i < j < |b| ==> b[i] < b[j])
    ensures a == b
    decreases |a|
  {
    assert |a| > 0 ==> a[|a| - 1] in a && a[|a| - 1] in b;
    assert |b| > 0 ==> b[|b| - 1] in b && b[|b| - 1] in a;
    if |a| > 0 {
      var m, n := |a| - 1, |b| - 1;
      assert a[m] in b && b[n] in a;
      var i :| 0 <= i < |b| && b[i] == a[m];
      var j :| 0 <= j < |a| && a[j] == b[n];
      assert a[m] == b[n];
      forall x ensures x in a[..m] <==> x in b[..n] {
        if x in a[..m] { assert x in b && x != b[n]; }
        if x in b[..n] { assert x in a && x != a[m]; }
      }
      SameAscending(a[..m], b[..n]);
      assert a == a[..m] + [a[m]] && b == b[..n] + [b[n]];
    }
  }

  lemma SameErrors(str: Text, a: seq<int>, b: seq<int>)
    requires AreWrong(str, a) && AreWrong(str, b)
    ensures a == b
  {
    SameAscending(a, b);
  }

  /** A data character changed into the separator: it is taken for it. In the last six places it is
      reported there; before them the string is read with a longer human-readable part. */
  lemma SeparatorLocated(exp: seq<Gf>, log: Gf -> int, str: Text, limit: nat, i: nat, t: Text)
    requires |exp| == ORDER && limit <= ORDER && Decoded(str, limit).encoding != Invalid && RFind(str) < i < |str|
    requires t == str[i := SEPARATOR]
    ensures RFind(t) == i
    ensures Located(exp, log, t, limit) ==
            if i + CHECKSUM_SIZE >= |str| then (InvalidSeparatorPosition, [i]) else LocatedAfter(exp, log, t, i)
  {
    AcceptedParses(str, limit);
    var pos, hrp, v := ParsedParts(str, limit);
    SeparatorMoves(str, pos, i, t);
  }

  lemma SeparatorMoves(str: Text, pos: nat, i: nat, t: Text)
    requires pos == RFind(str) && pos < i < |str| && t == str[i := SEPARATOR] && Clean(str)
    ensures RFind(t) == i && |t| == |str| && Clean(t)
  {
    assert t[i] == SEPARATOR && forall k :: i < k < |t| ==> t[k] != SEPARATOR;
  }
}
