/**
 Golomb-coded sets (BIP 158): a filter is the sorted hashes of its elements, as
 differences, each in a Golomb-Rice code.
 */
module GcsFilter {
  import opened GolombRice
  import opened Helpers

  type Element = seq<int>

  const TWO_32: int := 0x1_0000_0000
  const TWO_64: int := 0x1_0000_0000_0000_0000

  /** `sip` is the keyed hash, a 64-bit number. */
  datatype Params = Params(sip: Element -> nat, p: nat, m: nat)

  datatype Filter = Filter(params: Params, n: nat, f: nat, bits: Bits)

  ghost predicate IsParams(q: Params) { q.m < TWO_32 && forall e :: q.sip(e) < TWO_64 }

  /** A 64-bit number scaled down to [0, f). */
  function Scaled(h: nat, f: nat): nat { h * f / TWO_64 }

  function HashToRange(q: Params, f: nat, e: Element): nat { Scaled(q.sip(e), f) }

  /** The numbers that are scaled to `y` are those of the `y`th of `f` equal parts. */
  lemma ScaledExactly(h: nat, f: nat, y: nat)
    ensures y == Scaled(h, f) <==> y * TWO_64 <= h * f < (y + 1) * TWO_64
  {
    var x := h * f;
    if y * TWO_64 <= x < (y + 1) * TWO_64 { QuotRem(x, TWO_64, y, x - y * TWO_64); }
  }

  /** Scaling keeps the order and stays below `f`. */
  lemma ScaledInOrder(h: nat, k: nat, f: nat)
    requires h <= k < TWO_64 && f > 0
    ensures Scaled(h, f) <= Scaled(k, f) < f
  {
    TimesLe(h, k, f);
    TimesLe(k, TWO_64 - 1, f);
    Quotients(h * f, k * f);
    QuotientBelow(k * f, f);
  }

  lemma Quotients(x: nat, y: nat)
    requires x <= y
    ensures x / TWO_64 <= y / TWO_64
  {
  }

  lemma QuotientBelow(x: nat, f: nat)
    requires x < f * TWO_64
    ensures x / TWO_64 < f
  {
  }

  /** No value is left out, up to 2^64 of them. */
  lemma ScaledOnto(f: nat, y: nat) returns (h: nat)
    requires y < f <= TWO_64
    ensures h < TWO_64 && Scaled(h, f) == y
  {
    var x := y * TWO_64 + f - 1;
    h := x / f;
    var r := x % f;
    assert x == h * f + r;
    assert (y + 1) * TWO_64 == y * TWO_64 + TWO_64;
    TimesLe(y + 1, f, TWO_64);
    if h >= TWO_64 { TimesLe(TWO_64, h, f); assert false; }
    ScaledExactly(h, f, y);
  }

  // ----- sorting

  ghost predicate Ascending(s: seq<int>) { forall i, j :: 0 <= i < j < |s| ==> s[i] <= s[j] }

  function Insert(x: nat, s: seq<nat>): seq<nat> {
    if |s| == 0 then [x] else if x <= s[0] then [x] + s else [s[0]] + Insert(x, s[1..])
  }

  function Sort(s: seq<nat>): seq<nat> {
    if |s| == 0 then [] else Insert(s[0], Sort(s[1..]))
  }

  lemma {:induction false} InsertSorts(x: nat, s: seq<nat>)
    requires Ascending(s)
    ensures Ascending(Insert(x, s)) && |Insert(x, s)| == |s| + 1 && forall y :: y in Insert(x, s) <==> y == x || y in s
  {
    if |s| > 0 && x > s[0] {
      InsertSorts(x, s[1..]);
      var t := Insert(x, s[1..]);
      forall j | 0 <= j < |t| ensures s[0] <= t[j] { assert t[j] in t; }
      assert s == [s[0]] + s[1..];
    }
  }

  lemma {:induction false} SortSorts(s: seq<nat>)
    ensures Ascending(Sort(s)) && |Sort(s)| == |s| && forall y :: y in Sort(s) <==> y in s
  {
    if |s| > 0 {
      SortSorts(s[1..]);
      InsertSorts(s[0], Sort(s[1..]));
      assert s == [s[0]] + s[1..];
    }
  }

  /** The hashes of the elements, in order; two elements may have the same hash. */
  method BuildHashedSet(q: Params, f: nat, elements: seq<Element>) returns (hs: seq<nat>)
    ensures Ascending(hs) && |hs| == |elements|
    ensures forall y :: y in hs <==> exists e :: e in elements && HashToRange(q, f, e) == y
  {
    hs := [];
    for i := 0 to |elements|
      invariant |hs| == i && forall j :: 0 <= j < i ==> hs[j] == HashToRange(q, f, elements[j])
    {
      hs := hs + [HashToRange(q, f, elements[i])];
    }
    forall y ensures y in hs <==> exists e :: e in elements && HashToRange(q, f, e) == y {
      if y in hs {
        var j :| 0 <= j < |hs| && hs[j] == y;
        assert elements[j] in elements;
      }
      if e :| e in elements && HashToRange(q, f, e) == y {
        var j :| 0 <= j < |elements| && elements[j] == e;
        assert hs[j] == y;
      }
    }
    SortSorts(hs);
    hs := Sort(hs);
  }

  // ----- encoding

  function Delta(x: nat, last: nat): nat { if x >= last then x - last else 0 }

  ghost function EncodeAll(p: nat, hs: seq<nat>, last: nat): Bits {
    if |hs| == 0 then [] else Code(p, Delta(hs[0], last)) + EncodeAll(p, hs[1..], hs[0])
  }

  lemma {:induction false} EncodeAllSnoc(p: nat, hs: seq<nat>, last: nat, x: nat)
    ensures EncodeAll(p, hs + [x], last) ==
            EncodeAll(p, hs, last) + Code(p, Delta(x, if |hs| == 0 then last else hs[|hs| - 1]))
  {
    if |hs| == 0 {
      assert (hs + [x])[1..] == [];
    } else {
      var rest := hs[1..];
      assert (hs + [x])[1..] == rest + [x];
      EncodeAllSnoc(p, rest, hs[0], x);
    }
  }

  /** The filter holds exactly these hashes. */
  ghost predicate Encodes(fl: Filter, hs: seq<nat>) {
    |hs| == fl.n && Ascending(hs) && EncodeAll(fl.params.p, hs, 0) <= fl.bits
  }

  function Padding(n: nat): Bits { seq((8 - n % 8) % 8, i => false) }

  /** Builds a filter; the number of elements must fit in 32 bits. */
  method NewFilter(q: Params, elements: seq<Element>) returns (r: Option<Filter>, ghost hs: seq<nat>)
    requires IsParams(q)
    ensures r.Some? <==> |elements| < TWO_32
    ensures r.Some? ==>
              && r.value.params == q && r.value.n == |elements| && r.value.f == |elements| * q.m < TWO_64
              && Encodes(r.value, hs)
    ensures r.Some? ==> forall y :: y in hs <==> exists e :: e in elements && HashToRange(q, r.value.f, e) == y
    ensures r.Some? ==> |r.value.bits| < |EncodeAll(q.p, hs, 0)| + 8
  {
    hs := [];
    if |elements| >= TWO_32 { return None, hs; }
    FitsIn64(|elements|, q.m);
    var f := |elements| * q.m;
    var values := BuildHashedSet(q, f, elements);
    hs := values;
    var bits := EncodeValues(q.p, values);
    bits := bits + Padding(|bits|);
    r := Some(Filter(q, |elements|, f, bits));
  }

  lemma FitsIn64(n: nat, m: nat)
    requires n < TWO_32 && m < TWO_32
    ensures 0 <= n * m < TWO_64
  {
    TimesLe(n, TWO_32 - 1, m);
    TimesLe(0, n, m);
  }

  method EncodeValues(p: nat, values: seq<nat>) returns (bits: Bits)
    requires Ascending(values)
    ensures bits == EncodeAll(p, values, 0)
  {
    bits := [];
    var last: nat := 0;
    for i := 0 to |values|
      invariant last == (if i == 0 then 0 else values[i - 1]) && bits == EncodeAll(p, values[..i], 0)
    {
      var delta := values[i] - last;
      assert values[..i + 1] == values[..i] + [values[i]];
      EncodeAllSnoc(p, values[..i], 0, values[i]);
      bits := Encode(bits, p, delta);
      last := values[i];
    }
    assert values[..|values|] == values;
  }

  // ----- matching

  lemma PrefixSplits<T>(c: seq<T>, r: seq<T>, bits: seq<T>)
    requires c + r <= bits
    ensures |c| <= |bits| && bits == c + bits[|c|..] && r <= bits[|c|..]
  {
    var n := |c| + |r|;
    assert bits[..n] == c + r;
    assert bits[..n][..|c|] == c && bits[..n][|c|..] == r;
    assert bits[..|c|] == bits[..n][..|c|] && bits[|c|..][..|r|] == bits[..n][|c|..];
  }

  lemma NextValue(p: nat, hs: seq<nat>, i: nat, value: nat, bits: Bits)
    requires i < |hs| && hs[i] >= value && EncodeAll(p, hs[i..], value) <= bits
    ensures var code := Code(p, hs[i] - value);
            && Decoded(bits, p) == Some((hs[i] - value, |code|)) && |code| <= |bits|
            && EncodeAll(p, hs[i + 1..], hs[i]) <= bits[|code|..]
  {
    var code := Code(p, hs[i] - value);
    assert hs[i..][1..] == hs[i + 1..] && hs[i..][0] == hs[i];
    PrefixSplits(code, EncodeAll(p, hs[i + 1..], hs[i]), bits);
    CodeDecodes(p, hs[i] - value, bits[|code|..]);
  }

  /** Past the queries that are smaller, none of them can match any more. */
  ghost predicate Passed(queries: seq<nat>, k: nat, hs: seq<nat>) {
    k <= |queries| && forall a :: 0 <= a < k ==> queries[a] !in hs
  }

  /** The inner loop: to the first query that is not below the value. */
  method Advance(queries: seq<nat>, k0: nat, value: nat, ghost hs: seq<nat>, ghost i: nat)
    returns (k: nat, outcome: Option<bool>)
    requires i < |hs| && Ascending(hs) && Ascending(queries) && value == hs[i] && Passed(queries, k0, hs)
    requires forall a, b :: k0 <= a < |queries| && 0 <= b < i ==> queries[a] > hs[b]
    ensures Passed(queries, k, hs) && k0 <= k
    ensures outcome == Some(true) ==> value in queries
    ensures outcome == Some(false) ==> k == |queries|
    ensures outcome.None? ==> forall a :: k <= a < |queries| ==> queries[a] > value
  {
    k := k0;
    while true
      invariant k0 <= k && Passed(queries, k, hs)
      decreases |queries| - k
    {
      if k == |queries| { return k, Some(false); }
      if queries[k] == value { return k, Some(true); }
      if queries[k] > value { return k, None; }
      NotAmong(queries, k, hs, i);
      k := k + 1;
    }
  }

  lemma ReadNext(p: nat, hs: seq<nat>, i: nat, value: nat, bits: Bits, pos: nat, d: Option<(nat, nat)>)
    requires i < |hs| && hs[i] >= value && pos <= |bits| && EncodeAll(p, hs[i..], value) <= bits[pos..]
    requires d == Decoded(bits[pos..], p)
    ensures d.Some? && value + d.value.0 == hs[i] && pos + d.value.1 <= |bits|
    ensures EncodeAll(p, hs[i + 1..], hs[i]) <= bits[pos + d.value.1..]
  {
    NextValue(p, hs, i, value, bits[pos..]);
    assert bits[pos..][d.value.1..] == bits[pos + d.value.1..];
  }

  /** Both lists are walked once. It finds whether they have a value in common. */
  method MatchInternal(fl: Filter, queries: seq<nat>, ghost hs: seq<nat>) returns (found: bool)
    requires Encodes(fl, hs) && Ascending(queries)
    ensures found <==> exists y :: y in queries && y in hs
  {
    var value: nat, k: nat, pos: nat := 0, 0, 0;
    assert fl.bits[0..] == fl.bits && hs[0..] == hs;
    for i := 0 to fl.n
      invariant value == (if i == 0 then 0 else hs[i - 1]) && pos <= |fl.bits|
      invariant EncodeAll(fl.params.p, hs[i..], value) <= fl.bits[pos..]
      invariant Passed(queries, k, hs)
      invariant forall a, b :: k <= a < |queries| && 0 <= b < i ==> queries[a] > hs[b]
    {
      value, pos := ReadValue(fl.bits, pos, fl.params.p, value, hs, i);
      var outcome;
      k, outcome := Advance(queries, k, value, hs, i);
      if outcome.Some? { return outcome.value; }
    }
    NoneLarger(queries, k, hs);
    found := false;
  }

  /** The next value of a filter, from the one before it. */
  method ReadValue(bits: Bits, pos: nat, p: nat, last: nat, ghost hs: seq<nat>, ghost i: nat)
    returns (value: nat, next: nat)
    requires i < |hs| && hs[i] >= last && pos <= |bits| && EncodeAll(p, hs[i..], last) <= bits[pos..]
    ensures value == hs[i] && next <= |bits| && EncodeAll(p, hs[i + 1..], value) <= bits[next..]
  {
    var d := Decode(bits, pos, p);
    ReadNext(p, hs, i, last, bits, pos, d);
    value, next := last + d.value.0, pos + d.value.1;
  }

  lemma NoneLarger(queries: seq<nat>, k: nat, hs: seq<nat>)
    requires Passed(queries, k, hs) && forall a, b :: k <= a < |queries| && 0 <= b < |hs| ==> queries[a] > hs[b]
    ensures forall y :: y in queries ==> y !in hs
  {
    forall a | 0 <= a < |queries| ensures queries[a] !in hs {
      if a >= k { forall b | 0 <= b < |hs| ensures hs[b] != queries[a] { } }
    }
  }

  /** A query between two neighbouring values is none of the values. */
  lemma NotAmong(queries: seq<nat>, k: nat, hs: seq<nat>, i: nat)
    requires k < |queries| && i < |hs| && Ascending(hs) && queries[k] < hs[i]
    requires forall b :: 0 <= b < i ==> queries[k] > hs[b]
    ensures queries[k] !in hs
  {
    forall b | 0 <= b < |hs| ensures hs[b] != queries[k] { if b > i { assert hs[i] <= hs[b]; } }
  }

  /** MatchAny: true exactly if some query has the hash of some element. */
  method MatchAny(fl: Filter, elements: seq<Element>, ghost hs: seq<nat>) returns (found: bool)
    requires Encodes(fl, hs)
    ensures found <==> exists e :: e in elements && HashToRange(fl.params, fl.f, e) in hs
  {
    var queries := BuildHashedSet(fl.params, fl.f, elements);
    found := MatchInternal(fl, queries, hs);
    if found {
      ghost var y :| y in queries && y in hs;
      ghost var e :| e in elements && HashToRange(fl.params, fl.f, e) == y;
    }
    if e :| e in elements && HashToRange(fl.params, fl.f, e) in hs {
      assert HashToRange(fl.params, fl.f, e) in queries;
    }
  }

  method Match(fl: Filter, element: Element, ghost hs: seq<nat>) returns (found: bool)
    requires Encodes(fl, hs)
    ensures found <==> HashToRange(fl.params, fl.f, element) in hs
  {
    var query := HashToRange(fl.params, fl.f, element);
    found := MatchInternal(fl, [query], hs);
    assert query in [query];
  }

  /** Some element of the one has the hash of some element of the other. */
  ghost predicate SameHash(q: Params, f: nat, a: seq<Element>, b: seq<Element>) {
    exists x, y :: x in a && y in b && HashToRange(q, f, x) == HashToRange(q, f, y)
  }

  /** A filter built from S matches Q exactly if some element of Q hashes to the
      hash of some element of S; so an element of S is always matched. */
  method BuildAndMatch(q: Params, s: seq<Element>, queries: seq<Element>) returns (r: Option<bool>)
    requires IsParams(q)
    ensures r.Some? <==> |s| < TWO_32
    ensures r.Some? ==> (r.value <==> SameHash(q, |s| * q.m, queries, s))
    ensures r.Some? && (exists a :: a in queries && a in s) ==> r.value
  {
    var fl, hs := NewFilter(q, s);
    if fl.None? { return None; }
    var found := MatchAny(fl.value, queries, hs);
    r := Some(found);
  }

  // ----- filters that come from elsewhere

  /** The filter of an encoding: it must hold exactly `n` values, and no whole byte
      more. Whatever values `expected` it encodes, those are the values read. */
  method ReadFilter(q: Params, n: nat, bits: Bits, ghost expected: seq<nat>)
    returns (r: Option<Filter>, ghost hs: seq<nat>)
    requires IsParams(q)
    ensures r.Some? ==> n < TWO_32 && r.value == Filter(q, n, n * q.m, bits) && Encodes(r.value, hs)
    ensures r.Some? ==> |bits| < |EncodeAll(q.p, hs, 0)| + 8
    ensures n < TWO_32 && Encodes(Filter(q, n, 0, bits), expected) && |bits| < |EncodeAll(q.p, expected, 0)| + 8 ==>
              r.Some? && hs == expected
  {
    hs := [];
    if n >= TWO_32 { return None, hs; }
    TimesLe(0, n, q.m);
    var pos;
    pos, hs := ReadValues(q.p, n, bits, expected);
    if pos.None? { return None, hs; }
    assert |bits[..pos.value]| == pos.value;
    if |bits| - pos.value >= 8 { return None, hs; }
    r := Some(Filter(q, n, n * q.m, bits));
  }

  /** Reads `n` values, to see that they are there. */
  method ReadValues(p: nat, n: nat, bits: Bits, ghost expected: seq<nat>) returns (end: Option<nat>, ghost hs: seq<nat>)
    ensures end.Some? ==> |hs| == n && Ascending(hs) && end.value <= |bits| && EncodeAll(p, hs, 0) == bits[..end.value]
    ensures |expected| == n && Ascending(expected) && EncodeAll(p, expected, 0) <= bits ==> end.Some? && hs == expected
  {
    ghost var holds := |expected| == n && Ascending(expected) && EncodeAll(p, expected, 0) <= bits;
    hs := [];
    var pos: nat := 0;
    ghost var value: nat := 0;
    assert bits[0..] == bits && expected[0..] == expected;
    for i := 0 to n
      invariant |hs| == i && HasRead(p, bits, pos, hs, value)
      invariant holds ==> Tracks(p, expected, i, bits, pos, hs, value)
    {
      var d := Decode(bits, pos, p);
      if holds { TracksSome(p, expected, i, bits, pos, hs, value); }
      if d.None? { return None, hs; }
      var after := pos + d.value.1;
      ghost var next, more := value + d.value.0, hs + [value + d.value.0];
      if holds { TracksOn(p, expected, i, bits, pos, hs, value, d.value, after, next, more); }
      Extend(p, bits, pos, d.value, hs, value, after, next, more);
      hs, value, pos := more, next, after;
    }
    assert holds ==> expected[..n] == expected;
    end := Some(pos);
  }

  /** The values so far are what the bits so far encode. */
  ghost predicate HasRead(p: nat, bits: Bits, pos: nat, hs: seq<nat>, value: nat) {
    && Ascending(hs) && value == (if |hs| == 0 then 0 else hs[|hs| - 1])
    && pos <= |bits| && EncodeAll(p, hs, 0) == bits[..pos]
  }

  /** The rest of the expected values is what comes. */
  ghost predicate Tracks(p: nat, expected: seq<nat>, i: nat, bits: Bits, pos: nat, hs: seq<nat>, value: nat) {
    && i <= |expected| && hs == expected[..i] && pos <= |bits| && EncodeAll(p, expected[i..], value) <= bits[pos..]
  }

  lemma TracksSome(p: nat, expected: seq<nat>, i: nat, bits: Bits, pos: nat, hs: seq<nat>, value: nat)
    requires Tracks(p, expected, i, bits, pos, hs, value) && HasRead(p, bits, pos, hs, value) && Ascending(expected)
    requires i < |expected|
    ensures Decoded(bits[pos..], p).Some?
  {
    NextValue(p, expected, i, value, bits[pos..]);
  }

  lemma TracksOn(p: nat, expected: seq<nat>, i: nat, bits: Bits, pos: nat, hs: seq<nat>, value: nat, d: (nat, nat),
                 end: nat, next: nat, more: seq<nat>)
    requires Tracks(p, expected, i, bits, pos, hs, value) && HasRead(p, bits, pos, hs, value) && Ascending(expected)
    requires i < |expected| && Decoded(bits[pos..], p) == Some(d)
    requires end == pos + d.1 && next == value + d.0 && more == hs + [next]
    ensures Tracks(p, expected, i + 1, bits, end, more, next)
  {
    NextValue(p, expected, i, value, bits[pos..]);
    assert hs + [expected[i]] == expected[..i + 1];
    assert bits[pos..][d.1..] == bits[end..];
  }

  /** One more value read. */
  lemma Extend(p: nat, bits: Bits, pos: nat, d: (nat, nat), hs: seq<nat>, value: nat, end: nat, next: nat,
               more: seq<nat>)
    requires HasRead(p, bits, pos, hs, value) && Decoded(bits[pos..], p) == Some(d)
    requires end == pos + d.1 && next == value + d.0 && more == hs + [next]
    ensures HasRead(p, bits, end, more, next)
  {
    DecodedIsCode(bits[pos..], p);
    EncodeAllSnoc(p, hs, 0, next);
    TakeMore(bits, pos, d.1);
  }

  lemma TakeMore<T>(s: seq<T>, n: nat, k: nat)
    requires n <= |s| && k <= |s[n..]|
    ensures n + k <= |s| && s[..n + k] == s[..n] + s[n..][..k]
  {
  }
}
