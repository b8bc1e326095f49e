/**
 What LocateErrors says of any string whose characters can be read: the least number of
 characters, up to two, that have to be changed to make it valid, and where.
 */
module Bech32Repair {
  import opened Bech32
  import opened Bech32Algebra
  import opened Bech32Clash
  import opened Bech32Constant
  import opened Bech32Errors
  import opened Bech32Field
  import opened Bech32Locate
  import opened Bech32Located
  import opened Bech32Search
  import opened Bech32Strings
  import opened Bech32Syndrome
  import opened Helpers

  // ----- changes that make the values valid

  /** `u` is valid and differs from `w` at exactly the given indexes. */
  ghost predicate IsRepair(hrp: Text, w: seq<bv8>, encoding: Encoding, places: set<int>, u: seq<bv8>) {
    && |u| == |w| && Symbols(u) && Verified(hrp, u) == encoding
    && forall m :: 0 <= m < |w| ==> (u[m] != w[m] <==> m in places)
  }

  ghost predicate Repairs(hrp: Text, w: seq<bv8>, encoding: Encoding, places: set<int>) {
    exists u: seq<bv8> :: IsRepair(hrp, w, encoding, places, u)
  }

  lemma Flipped(y: bv8, delta: bv8) returns (x: bv8)
    requires y < 32 && 0 < delta < 32
    ensures x < 32 && x != y && delta == y ^ x
  {
    x := y ^ delta;
  }

  lemma VerifiedFrom(hrp: Text, u: seq<bv8>, encoding: Encoding, b: bv30, k: bv30)
    requires !encoding.Invalid? && b == Fold(1, Coefficients(hrp, u)) && k == EncodingConstant(encoding)
    ensures Verified(hrp, u) == encoding <==> b == k
  {
  }

  lemma XorSame(a: bv30, b: bv30, k: bv30, d: bv30)
    requires a ^ b == d
    ensures b == k <==> a ^ k == d
  {
    XorMoves(a, d, b);
    XorMoves(a, d, k);
  }

  /** One value changed: the result is valid exactly if the change leaves the same remainder. */
  lemma ChangeRepairs(hrp: Text, w: seq<bv8>, u: seq<bv8>, i: nat, x: bv8, delta: bv8, p: nat, encoding: Encoding,
                      d: bv30)
    requires !encoding.Invalid? && i < |w| && u == w[i := x] && delta == w[i] ^ x && p == |w| - 1 - i
    requires d == Residue(encoding, hrp, w)
    ensures Verified(hrp, u) == encoding <==> d == ErrorRemainder(delta, p)
  {
    var a, b, k, e := Fold(1, Coefficients(hrp, w)), Fold(1, Coefficients(hrp, u)), EncodingConstant(encoding),
                      ErrorRemainder(delta, p);
    ChangeDiffers(hrp, w, u, i, x, delta, p, a, b, e);
    VerifiedFrom(hrp, u, encoding, b, k);
    ResidueIsXor(encoding, hrp, w, a, k);
    XorSame(a, b, k, e);
  }

  lemma ChangeResidue(hrp: Text, w: seq<bv8>, u: seq<bv8>, i: nat, x: bv8, delta: bv8, p: nat, encoding: Encoding,
                      d: bv30, r: bv30, e: bv30)
    requires !encoding.Invalid? && i < |w| && u == w[i := x] && delta == w[i] ^ x && p == |w| - 1 - i
    requires d == Residue(encoding, hrp, w) && r == Residue(encoding, hrp, u) && e == ErrorRemainder(delta, p)
    ensures r == d ^ e
  {
    var a, b, k := Fold(1, Coefficients(hrp, w)), Fold(1, Coefficients(hrp, u)), EncodingConstant(encoding);
    ChangeDiffers(hrp, w, u, i, x, delta, p, a, b, e);
    ResidueIsXor(encoding, hrp, w, a, k);
    ResidueIsXor(encoding, hrp, u, b, k);
    XorThree(a, b, k, e);
  }

  lemma XorThree(a: bv30, b: bv30, k: bv30, e: bv30)
    requires a ^ b == e
    ensures b ^ k == (a ^ k) ^ e
  {
  }

  lemma ChangedAt(w: seq<bv8>, k: nat, x: bv8)
    requires Symbols(w) && k < |w| && x < 32 && x != w[k]
    ensures var u := w[k := x]; |u| == |w| && Symbols(u) && forall m :: 0 <= m < |w| ==> (u[m] != w[m] <==> m in {k})
  {
  }

  lemma OneGivesRepair(hrp: Text, w: seq<bv8>, u: seq<bv8>, encoding: Encoding, d: bv30, p: nat, k: nat, delta: bv8,
                       x: bv8)
    requires !encoding.Invalid? && Symbols(w) && d == Residue(encoding, hrp, w) && k < |w| && p == |w| - 1 - k
    requires IsOne(d, p, delta) && delta == w[k] ^ x && x < 32 && x != w[k] && u == w[k := x]
    ensures Repairs(hrp, w, encoding, {k})
  {
    assert Verified(hrp, u) == encoding by { ChangeRepairs(hrp, w, u, k, x, delta, p, encoding, d); }
    ChangedAt(w, k, x);
    assert IsRepair(hrp, w, encoding, {k}, u);
  }

  lemma RepairGivesOne(hrp: Text, w: seq<bv8>, encoding: Encoding, d: bv30, p: nat, k: nat, u: seq<bv8>)
    requires !encoding.Invalid? && Symbols(w) && d == Residue(encoding, hrp, w) && k < |w| && p == |w| - 1 - k
    requires IsRepair(hrp, w, encoding, {k}, u)
    ensures OneOff(d, p)
  {
    assert k in {k} && u == w[k := u[k]];
    SmallXor(w[k], u[k]);
    ChangeRepairs(hrp, w, u, k, u[k], w[k] ^ u[k], p, encoding, d);
    assert IsOne(d, p, w[k] ^ u[k]);
  }

  lemma OneIsRepair(hrp: Text, w: seq<bv8>, encoding: Encoding, d: bv30, p: nat, k: nat)
    requires !encoding.Invalid? && Symbols(w) && d == Residue(encoding, hrp, w) && k < |w| && p == |w| - 1 - k
    ensures OneOff(d, p) <==> Repairs(hrp, w, encoding, {k})
  {
    if OneOff(d, p) {
      var delta: bv8 :| IsOne(d, p, delta);
      var x := Flipped(w[k], delta);
      OneGivesRepair(hrp, w, w[k := x], encoding, d, p, k, delta, x);
    }
    if Repairs(hrp, w, encoding, {k}) {
      var u: seq<bv8> :| IsRepair(hrp, w, encoding, {k}, u);
      RepairGivesOne(hrp, w, encoding, d, p, k, u);
    }
  }

  lemma XorSides(d: bv30, e: bv30, f: bv30)
    ensures d == e ^ f <==> d ^ e == f
  {
  }

  /** Two values changed, one after the other. */
  lemma TwoChangesRepair(hrp: Text, w: seq<bv8>, v: seq<bv8>, u: seq<bv8>, encoding: Encoding, d: bv30, i: nat, j: nat,
                         x: bv8, y: bv8, delta: bv8, eps: bv8, p: nat, q: nat, e: bv30, f: bv30)
    requires !encoding.Invalid? && d == Residue(encoding, hrp, w) && i < |w| && j < |w| && i != j
    requires v == w[i := x] && u == v[j := y] && delta == w[i] ^ x && eps == w[j] ^ y
    requires p == |w| - 1 - i && q == |w| - 1 - j && e == ErrorRemainder(delta, p) && f == ErrorRemainder(eps, q)
    ensures Verified(hrp, u) == encoding <==> d == e ^ f
  {
    var r := Residue(encoding, hrp, v);
    assert r == d ^ e by { ChangeResidue(hrp, w, v, i, x, delta, p, encoding, d, r, e); }
    ChangeRepairs(hrp, v, u, j, y, eps, q, encoding, r);
    XorSides(d, e, f);
  }

  lemma ChangedAtTwo(w: seq<bv8>, i: nat, j: nat, x: bv8, y: bv8)
    requires Symbols(w) && i < |w| && j < |w| && i != j && x < 32 && x != w[i] && y < 32 && y != w[j]
    ensures var u := w[i := x][j := y];
            |u| == |w| && Symbols(u) && forall m :: 0 <= m < |w| ==> (u[m] != w[m] <==> m in {i, j})
  {
  }

  lemma TwoGiveRepair(hrp: Text, w: seq<bv8>, u: seq<bv8>, encoding: Encoding, d: bv30, p: nat, q: nat, i: nat, j: nat,
                      delta: bv8, eps: bv8, x: bv8, y: bv8)
    requires !encoding.Invalid? && Symbols(w) && d == Residue(encoding, hrp, w)
    requires i < |w| && j < |w| && i != j && p == |w| - 1 - i && q == |w| - 1 - j && IsTwo(d, p, q, delta, eps)
    requires delta == w[i] ^ x && x < 32 && x != w[i] && eps == w[j] ^ y && y < 32 && y != w[j] &&
             u == w[i := x][j := y]
    ensures Repairs(hrp, w, encoding, {i, j})
  {
    assert Verified(hrp, u) == encoding by {
      TwoChangesRepair(hrp, w, w[i := x], u, encoding, d, i, j, x, y, delta, eps, p, q,
                       ErrorRemainder(delta, p), ErrorRemainder(eps, q));
    }
    ChangedAtTwo(w, i, j, x, y);
    assert IsRepair(hrp, w, encoding, {i, j}, u);
  }

  lemma TwoIsRepair(hrp: Text, w: seq<bv8>, encoding: Encoding, d: bv30, p: nat, q: nat, i: nat, j: nat)
    requires !encoding.Invalid? && Symbols(w) && d == Residue(encoding, hrp, w)
    requires i < |w| && j < |w| && i != j && p == |w| - 1 - i && q == |w| - 1 - j
    ensures TwoOff(d, p, q) <==> Repairs(hrp, w, encoding, {i, j})
  {
    if TwoOff(d, p, q) {
      var delta: bv8, eps: bv8 :| IsTwo(d, p, q, delta, eps);
      var x := Flipped(w[i], delta);
      var y := Flipped(w[j], eps);
      TwoGiveRepair(hrp, w, w[i := x][j := y], encoding, d, p, q, i, j, delta, eps, x, y);
    }
    if Repairs(hrp, w, encoding, {i, j}) {
      var u: seq<bv8> :| IsRepair(hrp, w, encoding, {i, j}, u);
      RepairGivesTwo(hrp, w, encoding, d, p, q, i, j, u);
    }
  }

  lemma RepairGivesTwo(hrp: Text, w: seq<bv8>, encoding: Encoding, d: bv30, p: nat, q: nat, i: nat, j: nat, u: seq<bv8>)
    requires !encoding.Invalid? && Symbols(w) && d == Residue(encoding, hrp, w) && IsRepair(hrp, w, encoding, {i, j}, u)
    requires i < |w| && j < |w| && i != j && p == |w| - 1 - i && q == |w| - 1 - j
    ensures TwoOff(d, p, q)
  {
    assert i in {i, j} && j in {i, j} && u == w[i := u[i]][j := u[j]];
    SmallXor(w[i], u[i]);
    SmallXor(w[j], u[j]);
    TwoChangesRepair(hrp, w, w[i := u[i]], u, encoding, d, i, j, u[i], u[j], w[i] ^ u[i], w[j] ^ u[j], p, q,
                     ErrorRemainder(w[i] ^ u[i], p), ErrorRemainder(w[j] ^ u[j], q));
    assert IsTwo(d, p, q, w[i] ^ u[i], w[j] ^ u[j]);
  }

  // ----- what one encoding says

  /** Some one value, or some two values, can be changed to make it valid. */
  ghost predicate OneMends(hrp: Text, w: seq<bv8>, encoding: Encoding) {
    exists k :: 0 <= k < |w| && Repairs(hrp, w, encoding, {k})
  }

  ghost predicate TwoMend(hrp: Text, w: seq<bv8>, encoding: Encoding) {
    exists i, j :: 0 <= i < |w| && 0 <= j < |w| && i != j && Repairs(hrp, w, encoding, {i, j})
  }

  /** The places reported for a string, as indexes of the data part, which starts at `start`. */
  ghost function Indexes(r: seq<int>, start: nat): set<int> { set m | m in r :: m - start }

  /** What a list of places found under one encoding means. */
  ghost predicate Answers(hrp: Text, w: seq<bv8>, encoding: Encoding, r: seq<int>, start: nat) {
    && |r| <= 2 && (|r| == 1 <==> OneMends(hrp, w, encoding)) && (|r| == 2 <==> TwoMend(hrp, w, encoding))
    && (r != [] ==> |Indexes(r, start)| == |r| && Repairs(hrp, w, encoding, Indexes(r, start)))
  }

  lemma OneFromSearch(hrp: Text, w: seq<bv8>, encoding: Encoding, d: bv30)
    requires !encoding.Invalid? && Symbols(w) && d == Residue(encoding, hrp, w)
    ensures (exists p :: 0 <= p < |w| && OneOff(d, p)) <==> OneMends(hrp, w, encoding)
  {
    if p :| 0 <= p < |w| && OneOff(d, p) { OneIsRepair(hrp, w, encoding, d, p, |w| - 1 - p); }
    if k :| 0 <= k < |w| && Repairs(hrp, w, encoding, {k}) { OneIsRepair(hrp, w, encoding, d, |w| - 1 - k, k); }
  }

  lemma TwoFromSearch(hrp: Text, w: seq<bv8>, encoding: Encoding, d: bv30)
    requires !encoding.Invalid? && Symbols(w) && d == Residue(encoding, hrp, w)
    ensures (exists p, q :: 0 <= p < |w| && 0 <= q < |w| && TwoOff(d, p, q)) <==> TwoMend(hrp, w, encoding)
  {
    if p, q :| 0 <= p < |w| && 0 <= q < |w| && TwoOff(d, p, q) {
      TwoIsRepair(hrp, w, encoding, d, p, q, |w| - 1 - p, |w| - 1 - q);
    }
    if i, j :| 0 <= i < |w| && 0 <= j < |w| && i != j && Repairs(hrp, w, encoding, {i, j}) {
      TwoIsRepair(hrp, w, encoding, d, |w| - 1 - i, |w| - 1 - j, i, j);
    }
  }

  lemma OneIndex(r: seq<int>, start: nat, i: int)
    requires r == [start + i]
    ensures Indexes(r, start) == {i} && |Indexes(r, start)| == 1
  {
    assert r[0] in r;
    assert Indexes(r, start) == {i};
  }

  lemma TwoIndexes(r: seq<int>, start: nat, i: int, j: int)
    requires i != j && (r == [start + i, start + j] || r == [start + j, start + i])
    ensures Indexes(r, start) == {i, j} && |Indexes(r, start)| == 2
  {
    assert r[0] in r && r[1] in r;
    assert Indexes(r, start) == {i, j};
  }

  /** The search under one encoding finds the least number of changes, up to two. */
  lemma OneAnswers(hrp: Text, w: seq<bv8>, encoding: Encoding, d: bv30, r: seq<int>, start: nat, p: nat, i: nat)
    requires !encoding.Invalid? && Symbols(w) && d == Residue(encoding, hrp, w)
    requires p < |w| && i == |w| - 1 - p && OneOff(d, p) && r == [start + i]
    ensures |Indexes(r, start)| == |r| && Repairs(hrp, w, encoding, Indexes(r, start))
  {
    OneIsRepair(hrp, w, encoding, d, p, i);
    OneIndex(r, start, i);
  }

  lemma TwoAnswer(hrp: Text, w: seq<bv8>, encoding: Encoding, d: bv30, r: seq<int>, start: nat, p: nat, q: nat, i: nat,
                  j: nat)
    requires !encoding.Invalid? && Symbols(w) && d == Residue(encoding, hrp, w)
    requires p < |w| && q < |w| && i == |w| - 1 - p && j == |w| - 1 - q && TwoOff(d, p, q)
    requires r == [start + i, start + j] || r == [start + j, start + i]
    ensures |Indexes(r, start)| == |r| && Repairs(hrp, w, encoding, Indexes(r, start))
  {
    TwoIsRepair(hrp, w, encoding, d, p, q, i, j);
    TwoIndexes(r, start, i, j);
  }

  /** The places of the search, whatever they are. */
  ghost predicate Exact(d: bv30, length: nat, size: nat, r: seq<int>) {
    && (forall p :: 0 <= p < length && OneOff(d, p) ==> r == [size - p - 1])
    && (|r| == 1 ==> exists p :: 0 <= p < length && OneOff(d, p))
    && (|r| == 2 <==> exists p, q :: 0 <= p < length && 0 <= q < length && TwoOff(d, p, q))
    && (|r| == 2 ==>
          exists p, q :: 0 <= p < length && 0 <= q < length && TwoOff(d, p, q) && r == InOrder(p, q, size))
    && |r| <= 2
  }

  lemma ExactAnswers(hrp: Text, w: seq<bv8>, encoding: Encoding, d: bv30, size: nat, start: nat, r: seq<int>)
    requires !encoding.Invalid? && Symbols(w) && d == Residue(encoding, hrp, w) && size == start + |w|
    requires Exact(d, |w|, size, r)
    ensures Answers(hrp, w, encoding, r, start)
  {
    OneFromSearch(hrp, w, encoding, d);
    TwoFromSearch(hrp, w, encoding, d);
    if |r| == 1 {
      var p :| 0 <= p < |w| && OneOff(d, p);
      OneAnswers(hrp, w, encoding, d, r, start, p, |w| - 1 - p);
    } else if |r| == 2 {
      var p, q :| 0 <= p < |w| && 0 <= q < |w| && TwoOff(d, p, q) && r == InOrder(p, q, size);
      TwoAnswer(hrp, w, encoding, d, r, start, p, q, |w| - 1 - p, |w| - 1 - q);
    }
  }

  /** The search under one encoding finds the least number of changes, up to two. */
  lemma SearchAnswers(exp: seq<Gf>, log: Gf -> int, hrp: Text, w: seq<bv8>, encoding: Encoding, d: bv30, size: nat,
                      start: nat,
                      r: seq<int>)
    requires Tables(exp, log) && !encoding.Invalid? && Symbols(w) && |w| <= ORDER && size == start + |w|
    requires d == Residue(encoding, hrp, w) && r == PossibleErrors(exp, log, SyndromeOf(d), |w|, size)
    ensures Answers(hrp, w, encoding, r, start)
  {
    assert Exact(d, |w|, size, r) by { SearchIsExact(exp, log, d, |w|, size, r); }
    ExactAnswers(hrp, w, encoding, d, size, start, r);
  }

  /** What two changes make valid, no one change does. */
  lemma NotOneAndTwo(exp: seq<Gf>, log: Gf -> int, hrp: Text, w: seq<bv8>, encoding: Encoding)
    requires Tables(exp, log) && !encoding.Invalid? && Symbols(w) && |w| <= ORDER
    ensures !OneMends(hrp, w, encoding) || !TwoMend(hrp, w, encoding)
  {
    var d := Residue(encoding, hrp, w);
    SearchAnswers(exp, log, hrp, w, encoding, d, |w|, 0, PossibleErrors(exp, log, SyndromeOf(d), |w|, |w|));
  }

  lemma ZeroResidue(hrp: Text, w: seq<bv8>, encoding: Encoding, d: bv30)
    requires !encoding.Invalid? && d == Residue(encoding, hrp, w)
    ensures d == 0 <==> Verified(hrp, w) == encoding
  {
    var a, k := Fold(1, Coefficients(hrp, w)), EncodingConstant(encoding);
    ResidueIsXor(encoding, hrp, w, a, k);
    VerifiedFrom(hrp, w, encoding, a, k);
    XorIsZero(a, k);
  }

  lemma XorIsZero(a: bv30, k: bv30)
    ensures a ^ k == 0 <==> a == k
  {
  }

  /** None if the values are valid, otherwise places that make them so. */
  lemma UnderAnswers(exp: seq<Gf>, log: Gf -> int, hrp: Text, w: seq<bv8>, encoding: Encoding, size: nat, start: nat,
                     r: Option<seq<int>>)
    requires Tables(exp, log) && !encoding.Invalid? && Symbols(w) && |w| <= ORDER && size == start + |w|
    requires r == ErrorsUnder(exp, log, encoding, hrp, w, size)
    ensures r.None? <==> Verified(hrp, w) == encoding
    ensures r.Some? ==> Answers(hrp, w, encoding, r.value, start)
  {
    var d := Residue(encoding, hrp, w);
    ZeroResidue(hrp, w, encoding, d);
    if d != 0 { SearchAnswers(exp, log, hrp, w, encoding, d, size, start, r.value); }
  }

  // ----- what LocateErrors says

  /** Which encoding is reported: the one that needs fewer changes, Bech32 if both need as many;
      Invalid if neither can be had by changing two. */
  ghost function Nearest(hrp: Text, w: seq<bv8>): Encoding {
    if OneMends(hrp, w, Bech32.Bech32) then Bech32.Bech32
    else if OneMends(hrp, w, Bech32m) then Bech32m
    else if TwoMend(hrp, w, Bech32.Bech32) then Bech32.Bech32
    else if TwoMend(hrp, w, Bech32m) then Bech32m
    else Invalid
  }

  function MessageFor(encoding: Encoding): Message {
    match encoding
    case Invalid => InvalidChecksum
    case Bech32 => InvalidBech32Checksum
    case Bech32m => InvalidBech32mChecksum
  }

  /** What LocateErrors is to say of the values. */
  ghost predicate Told(hrp: Text, w: seq<bv8>, r: (Message, seq<int>), start: nat) {
    if Verified(hrp, w) != Invalid then r == (NoError, [])
    else
      var e := Nearest(hrp, w);
      r.0 == MessageFor(e) && (e == Invalid <==> r.1 == []) && (e != Invalid ==> Answers(hrp, w, e, r.1, start))
  }

  lemma ReportNearest(hrp: Text, w: seq<bv8>, a: Option<seq<int>>, b: Option<seq<int>>, start: nat,
                      r: (Message, seq<int>))
    requires a.Some? && b.Some? && r == Report(a, b)
    requires Answers(hrp, w, Bech32.Bech32, a.value, start) && Answers(hrp, w, Bech32m, b.value, start)
    ensures var e := Nearest(hrp, w);
            && r.0 == MessageFor(e) && (e == Invalid <==> r.1 == [])
            && (e != Invalid ==> Answers(hrp, w, e, r.1, start))
  {
  }

  /**
   Every string whose characters can be read, however it came about: no error exactly if it is
   valid; otherwise the encoding nearest to it and places, one or if need be two, such that
   changing exactly these characters gives a valid string of that encoding; and no place exactly
   if changing two characters cannot make it valid.
   */
  lemma LocatedMends(exp: seq<Gf>, log: Gf -> int, str: Text, limit: nat, hrp: Text, w: seq<bv8>, start: nat,
                     r: (Message, seq<int>))
    requires Tables(exp, log) && limit <= ORDER && Parsed(str, limit) == Some((hrp, w)) && start == |str| - |w|
    requires r == Located(exp, log, str, limit)
    ensures Told(hrp, w, r, start)
  {
    var pos, h, v := ParsedParts(str, limit);
    ReadChars(str[pos + 1..]);
    LocatedIs(exp, log, str, limit, pos, hrp, w);
    ReportMends(exp, log, hrp, w, |str|, start, r);
  }

  lemma ReportMends(exp: seq<Gf>, log: Gf -> int, hrp: Text, w: seq<bv8>, size: nat, start: nat, r: (Message, seq<int>))
    requires Tables(exp, log) && Symbols(w) && |w| <= ORDER && size == start + |w|
    requires r == Report(ErrorsUnder(exp, log, Bech32.Bech32, hrp, w, size),
             ErrorsUnder(exp, log, Bech32m, hrp, w, size))
    ensures Told(hrp, w, r, start)
  {
    var a, b := ErrorsUnder(exp, log, Bech32.Bech32, hrp, w, size), ErrorsUnder(exp, log, Bech32m, hrp, w, size);
    UnderAnswers(exp, log, hrp, w, Bech32.Bech32, size, start, a);
    UnderAnswers(exp, log, hrp, w, Bech32m, size, start, b);
    if a.Some? && b.Some? { ReportNearest(hrp, w, a, b, start, r); }
  }

  // ----- two characters of a valid string changed

  /** The characters at `i` and `j`, for the values `a` and `b`, become `c` and `d`, for `x` and `y`. */
  ghost predicate TwoChanged(str: Text, i: nat, j: nat, c: bv8, d: bv8, a: bv8, b: bv8, x: bv8, y: bv8, t: Text) {
    && RFind(str) < i < j < |str| && a == RevOf(str[i]) && b == RevOf(str[j]) && x == RevOf(c) && y == RevOf(d)
    && x != NO_VALUE && y != NO_VALUE && x != a && y != b && t == str[i := c][j := d] && Clean(t)
  }

  /** One character changed, in terms of the value it stands for. */
  lemma ParseOnce(str: Text, pos: nat, i: nat, c: bv8, x: bv8, t: Text, v: seq<bv8>, k: nat)
    requires pos == RFind(str) && pos < i < |str| && x == RevOf(c) && x != NO_VALUE && t == str[i := c]
    requires v == Values(str[pos + 1..]) && k == i - pos - 1
    ensures RFind(t) == pos && |t| == |str| && t[..pos] == str[..pos] && k < |v| && Values(t[pos + 1..]) == v[k := x]
  {
    RevNotSeparator(c);
    ChangedParse(str, i, c);
  }

  lemma ParseTwice(str: Text, pos: nat, i: nat, j: nat, c: bv8, d: bv8, x: bv8, y: bv8, v: seq<bv8>, k: nat, l: nat,
                   t: Text)
    requires pos == RFind(str) && pos < i < j < |str| && x == RevOf(c) && y == RevOf(d) && x != NO_VALUE &&
             y != NO_VALUE
    requires t == str[i := c][j := d] && v == Values(str[pos + 1..]) && k == i - pos - 1 && l == j - pos - 1
    ensures RFind(t) == pos && |t| == |str| && t[..pos] == str[..pos] && k < l < |v| &&
            Values(t[pos + 1..]) == v[k := x][l := y]
  {
    ParseOnce(str, pos, i, c, x, str[i := c], v, k);
    ParseOnce(str[i := c], pos, j, d, y, t, v[k := x], l);
  }

  /** The values before and after. */
  /** The change in terms of the values. */
  ghost predicate ValuesChanged(v: seq<bv8>, w: seq<bv8>, k: nat, l: nat, x: bv8, y: bv8) {
    && Symbols(v) && Symbols(w) && k < l < |v| == |w| && x != v[k] && y != v[l] && w == v[k := x][l := y]
  }

  lemma SymbolsStay(v: seq<bv8>, k: nat, l: nat, x: bv8, y: bv8)
    requires Symbols(v) && k < l < |v| && x < 32 && y < 32
    ensures Symbols(v[k := x][l := y]) && NO_VALUE !in v[k := x][l := y]
  {
  }

  lemma ValueIs(str: Text, pos: nat, i: nat, v: seq<bv8>, k: nat, a: bv8)
    requires pos < i < |str| && v == Values(str[pos + 1..]) && k == i - pos - 1 && a == RevOf(str[i])
    ensures k < |v| && v[k] == a
  {
  }

  lemma TwoChangedValues(str: Text, limit: nat, i: nat, j: nat, c: bv8, d: bv8, a: bv8, b: bv8, x: bv8, y: bv8, t: Text)
    returns (hrp: Text, v: seq<bv8>, w: seq<bv8>, k: nat, l: nat)
    requires Parsed(str, limit).Some? && TwoChanged(str, i, j, c, d, a, b, x, y, t)
    ensures Parsed(str, limit) == Some((hrp, v)) && Parsed(t, limit) == Some((hrp, w))
    ensures |v| <= |str| <= limit && k == i - (|str| - |v|) && l == j - (|str| - |v|) && ValuesChanged(v, w, k, l, x, y)
    ensures v[k] == a && v[l] == b
  {
    var pos;
    pos, hrp, v := ParsedParts(str, limit);
    k, l := i - pos - 1, j - pos - 1;
    w := v[k := x][l := y];
    ParseTwice(str, pos, i, j, c, d, x, y, v, k, l, t);
    ValueIs(str, pos, i, v, k, a);
    ValueIs(str, pos, j, v, l, b);
    ReadTwo(str, pos, c, d, x, y, v, k, l);
    assert IsParse(t, limit, pos, hrp, w);
    ParseGives(t, limit, pos, hrp, w);
  }

  lemma ReadTwo(str: Text, pos: nat, c: bv8, d: bv8, x: bv8, y: bv8, v: seq<bv8>, k: nat, l: nat)
    requires pos < |str| && v == Values(str[pos + 1..]) && NO_VALUE !in v && k < l < |v|
    requires x == RevOf(c) && y == RevOf(d) && x != NO_VALUE && y != NO_VALUE
    ensures Symbols(v) && Symbols(v[k := x][l := y]) && NO_VALUE !in v[k := x][l := y]
  {
    ReadChars(str[pos + 1..]);
    RevIsSymbol(c);
    RevIsSymbol(d);
    SymbolsStay(v, k, l, x, y);
  }

  lemma ParseGives(t: Text, limit: nat, pos: nat, hrp: Text, w: seq<bv8>)
    requires IsParse(t, limit, pos, hrp, w)
    ensures Parsed(t, limit) == Some((hrp, w))
  {
  }

  lemma OriginalMends(hrp: Text, v: seq<bv8>, w: seq<bv8>, encoding: Encoding, k: nat, l: nat, x: bv8, y: bv8)
    requires encoding == Verified(hrp, v) != Invalid && ValuesChanged(v, w, k, l, x, y)
    ensures TwoMend(hrp, w, encoding)
  {
    assert IsRepair(hrp, w, encoding, {k, l}, v);
    assert Repairs(hrp, w, encoding, {k, l});
  }

  lemma TermPlaceUnique(a: Gf, p: nat, b: Gf, q: nat, s: Triple)
    requires p < ORDER && q < ORDER && a != ZERO && s == Terms(a, E(p)) && s == Terms(b, E(q))
    ensures p == q
  {
    MulCommutes(E(p), a);
    MulCommutes(E(q), a);
    MulCancel(a, E(p), E(q));
    EInjective(p, q);
  }

  /** Errors at different places never leave the same. */
  lemma RemaindersDiffer(delta: bv8, p: nat, eps: bv8, q: nat, e: bv30, f: bv30)
    requires 0 < delta < 32 && 0 < eps < 32 && p < ORDER && q < ORDER && p != q
    requires e == ErrorRemainder(delta, p) && f == ErrorRemainder(eps, q)
    ensures e != f
  {
    var a, b := Amplitude(delta, p), Amplitude(eps, q);
    ErrorTerms(delta, p, e, a, E(p));
    ErrorTerms(eps, q, f, b, E(q));
    AmplitudeNonzero(delta, p);
    if e == f { TermPlaceUnique(a, p, b, q, SyndromeOf(e)); }
  }

  /** The string is valid again exactly if the two changes lead to the other constant. */
  lemma ValidAgain(hrp: Text, v: seq<bv8>, w: seq<bv8>, encoding: Encoding, k: nat, l: nat, x: bv8, y: bv8, delta: bv8,
                   eps: bv8, p: nat, q: nat)
    requires encoding == Verified(hrp, v) != Invalid && ValuesChanged(v, w, k, l, x, y) && |v| <= ORDER
    requires delta == x ^ v[k] && eps == y ^ v[l] && p == |v| - 1 - k && q == |v| - 1 - l
    ensures Verified(hrp, w) != Invalid <==> Clashing(delta, eps, p, q)
  {
    var e, f, d := ErrorRemainder(delta, p), ErrorRemainder(eps, q), Residue(encoding, hrp, w);
    assert w[k] == x && w[l] == y;
    SmallXor(x, v[k]);
    SmallXor(y, v[l]);
    assert v == w[k := v[k]][l := v[l]];
    assert d == e ^ f by {
      TwoChangesRepair(hrp, w, w[k := v[k]], v, encoding, d, k, l, v[k], v[l], delta, eps, p, q, e, f);
    }
    assert Verified(hrp, w) != encoding by {
      RemaindersDiffer(delta, p, eps, q, e, f);
      XorIsZero(e, f);
      ZeroResidue(hrp, w, encoding, d);
    }
    OtherValid(hrp, w, encoding, d, delta, eps, p, q, e, f);
  }

  lemma OtherValid(hrp: Text, w: seq<bv8>, encoding: Encoding, d: bv30, delta: bv8, eps: bv8, p: nat, q: nat, e: bv30,
                   f: bv30)
    requires !encoding.Invalid? && d == Residue(encoding, hrp, w) && d == e ^ f && Verified(hrp, w) != encoding
    requires 0 < delta < 32 && 0 < eps < 32 && p < 1023 && q < 1023
    requires e == ErrorRemainder(delta, p) && f == ErrorRemainder(eps, q)
    ensures Verified(hrp, w) != Invalid <==> Clashing(delta, eps, p, q)
  {
    var r := Residue(Other(encoding), hrp, w);
    assert r == d ^ CLASH by { OtherResidue(hrp, w, encoding); }
    ZeroResidue(hrp, w, Other(encoding), r);
    XorIsZero(d, CLASH);
    TwoThatClash(p, q, delta, eps);
  }

  /** What is reported for it. */
  ghost predicate Mended(hrp: Text, w: seq<bv8>, encoding: Encoding, mended: Encoding, r: (Message, seq<int>),
                         start: nat) {
    && mended != Invalid && r.0 == MessageFor(mended) && 1 <= |r.1| <= 2
    && Repairs(hrp, w, mended, Indexes(r.1, start)) && (|r.1| == 1 ==> mended == Other(encoding))
  }

  /** Two changes that lead from one constant to the other. */
  ghost predicate Clashing(delta: bv8, eps: bv8, p: nat, q: nat) { ClashAt(p, q) && delta == 19 && eps == 19 }

  lemma TwoChangedMends(exp: seq<Gf>, log: Gf -> int, hrp: Text, v: seq<bv8>, w: seq<bv8>, encoding: Encoding,
                        k: nat, l: nat, x: bv8, y: bv8, delta: bv8, eps: bv8, p: nat, q: nat,
                        r: (Message, seq<int>), start: nat)
    requires Tables(exp, log) && encoding == Verified(hrp, v) != Invalid && ValuesChanged(v, w, k, l, x, y) &&
             |v| <= ORDER
    requires delta == x ^ v[k] && eps == y ^ v[l] && p == |v| - 1 - k && q == |v| - 1 - l && Told(hrp, w, r, start)
    ensures Clashing(delta, eps, p, q) ==> r == (NoError, [])
    ensures !Clashing(delta, eps, p, q) ==> Mended(hrp, w, encoding, Nearest(hrp, w), r, start)
  {
    ValidAgain(hrp, v, w, encoding, k, l, x, y, delta, eps, p, q);
    OriginalMends(hrp, v, w, encoding, k, l, x, y);
    NotOneAndTwo(exp, log, hrp, w, encoding);
  }

  /**
   A valid string with two data characters changed. Unless the two are 33 and 192 places before the
   end and both changes are by 19, which gives a valid string of the other encoding, one or two
   places are reported such that changing exactly these characters gives a valid string; one
   place only if it is one of the other encoding.
   */
  lemma TwoChangesReported(exp: seq<Gf>, log: Gf -> int, str: Text, limit: nat, i: nat, j: nat, c: bv8, d: bv8,
                           a: bv8, b: bv8, x: bv8, y: bv8, t: Text, encoding: Encoding, p: nat, q: nat,
                           r: (Message, seq<int>))
    returns (hrp: Text, w: seq<bv8>, start: nat, mended: Encoding)
    requires Tables(exp, log) && limit <= ORDER && encoding == Decoded(str, limit).encoding != Invalid
    requires TwoChanged(str, i, j, c, d, a, b, x, y, t) && r == Located(exp, log, t, limit)
    requires p == |str| - 1 - i && q == |str| - 1 - j
    ensures Parsed(t, limit) == Some((hrp, w)) && start + |w| == |str|
    ensures Clashing(x ^ a, y ^ b, p, q) ==> r == (NoError, [])
    ensures !Clashing(x ^ a, y ^ b, p, q) ==> Mended(hrp, w, encoding, mended, r, start)
  {
    AcceptedParses(str, limit);
    var v, k, l;
    hrp, v, w, k, l := TwoChangedValues(str, limit, i, j, c, d, a, b, x, y, t);
    DecodedIs(str, limit, hrp, v);
    start, mended := |str| - |w|, Nearest(hrp, w);
    LocatedMends(exp, log, t, limit, hrp, w, start, r);
    TwoChangedMends(exp, log, hrp, v, w, encoding, k, l, x, y, x ^ a, y ^ b, p, q, r, start);
  }
}
