/**
 Reading any address file: one whose buckets were laid out by another AS map, another number
 of buckets or another version still gives a consistent manager.
 */
module AddrManReading {
  import opened AddrManCheck
  import opened AddrManDisk
  import opened AddrManEffects
  import opened AddrManInvariant
  import opened AddrManOperations
  import opened AddrManRoundTrip
  import opened AddrManRuns
  import opened AddrManState
  import opened AddrManSteps
  import opened Helpers

  /** The records of a file: different addresses, of which the new ones are valid; a tried one that
      is valid was reached once. */
  ghost predicate Readable(e: Env, recs: seq<Record>, nNew: nat) {
    && (forall i :: 0 <= i < |recs| && i < nNew ==> IsValidAddr(e, recs[i].addr) && recs[i].lastSuccess >= 0)
    && (forall i :: 0 <= i < |recs| && nNew <= i ==> IsValidAddr(e, recs[i].addr) ==> recs[i].lastSuccess > 0)
    && (forall i, j :: 0 <= i < j < |recs| ==> recs[i].addr != recs[j].addr)
  }

  function RecordTokens(recs: seq<Record>): seq<Token> {
    seq(|recs|, i requires 0 <= i < |recs| => Entry(recs[i]))
  }

  /** An entry is the i-th record. */
  predicate IsRecord(info: Info, recs: seq<Record>, nNew: nat, i: int) {
    0 <= i < |recs| && RecordOf(info) == recs[i] && (info.inTried <==> i >= nNew)
  }

  /** Every entry is one of the first `n` records. */
  ghost predicate FromFile(m: map<int, Info>, recs: seq<Record>, nNew: nat, n: nat) {
    forall id :: id in m ==> exists i :: 0 <= i < n && IsRecord(m[id], recs, nNew, i)
  }

  /** The first `n` records have their numbers as ids. */
  ghost predicate HoldsNew(m: map<int, Info>, recs: seq<Record>, n: nat) {
    forall id :: 0 <= id < n ==> NewAt(m, recs, id)
  }

  ghost predicate HoldsSome(m: map<int, Info>, recs: seq<Record>, n: nat) {
    forall id :: id in m && 0 <= id < n ==> NewAt(m, recs, id)
  }

  ghost predicate NewAt(m: map<int, Info>, recs: seq<Record>, id: nat) {
    id in m && !m[id].inTried && id < |recs| && RecordOf(m[id]) == recs[id]
  }

  /** The slots that the valid tried records up to the n-th would have are taken. */
  ghost predicate SlotsTaken(e: Env, t: State, recs: seq<Record>, nNew: nat, n: nat) {
    forall i :: 0 <= i < n && i < |recs| && nNew <= i && IsValidAddr(e, recs[i].addr) ==>
      TriedSlot(e, t.key, recs[i].addr) in t.vvTried
  }

  lemma NotYetKnown(e: Env, t: State, recs: seq<Record>, nNew: nat, n: nat)
    requires Readable(e, recs, nNew) && FromFile(t.mapInfo, recs, nNew, n) && n < |recs|
    requires AddrIndexed(Addrs(t.mapInfo), t.mapAddr)
    ensures recs[n].addr !in t.mapAddr
  {
    forall id | id in t.mapInfo ensures t.mapInfo[id].addr != recs[n].addr {
      var i :| 0 <= i < n && IsRecord(t.mapInfo[id], recs, nNew, i);
      assert recs[i].addr != recs[n].addr;
    }
    IndexedAddress(t, recs[n].addr);
  }

  // ----- the new entries

  ghost predicate SomeNew(e: Env, t: State, recs: seq<Record>, nNew: nat, n: nat) {
    && n <= nNew && Core(e, View(t, n, 0), {}, t.mapInfo.Keys)
    && FromFile(t.mapInfo, recs, nNew, n) && HoldsNew(t.mapInfo, recs, n)
    && t.vvNew == map[] && t.collisions == {}
  }

  lemma NewEntryFrom(e: Env, t: State, recs: seq<Record>, nNew: nat, n: nat, u: State)
    requires FromFile(t.mapInfo, recs, nNew, n) && n < nNew <= |recs| && u == LoadNewEntry(e, t, n, recs[n])
    ensures FromFile(u.mapInfo, recs, nNew, n + 1)
  {
    forall id | id in u.mapInfo ensures exists i :: 0 <= i < n + 1 && IsRecord(u.mapInfo[id], recs, nNew, i) {
      if id == n {
        assert IsRecord(u.mapInfo[id], recs, nNew, n);
      } else {
        var i :| 0 <= i < n && IsRecord(t.mapInfo[id], recs, nNew, i);
        assert IsRecord(u.mapInfo[id], recs, nNew, i);
      }
    }
  }

  lemma NewEntryRead(e: Env, t: State, recs: seq<Record>, nNew: nat, n: nat, u: State)
    requires FromFile(t.mapInfo, recs, nNew, n) && HoldsNew(t.mapInfo, recs, n) && n < nNew <= |recs|
    requires u == LoadNewEntry(e, t, n, recs[n])
    ensures FromFile(u.mapInfo, recs, nNew, n + 1) && HoldsNew(u.mapInfo, recs, n + 1)
  {
    NewEntryFrom(e, t, recs, nNew, n, u);
    forall id | 0 <= id < n + 1 ensures NewAt(u.mapInfo, recs, id) {
      assert id < n ==> NewAt(t.mapInfo, recs, id);
    }
  }

  lemma NextNew(e: Env, t: State, recs: seq<Record>, nNew: nat, n: nat, u: State)
    requires Readable(e, recs, nNew) && SomeNew(e, t, recs, nNew, n) && n < nNew <= |recs|
    requires u == LoadNewEntry(e, t, n, recs[n])
    ensures SomeNew(e, u, recs, nNew, n + 1) && u.key == t.key && u.nNew == t.nNew && u.nTried == t.nTried
  {
    NotYetKnown(e, View(t, n, 0), recs, nNew, n);
    LoadNewKeepsCore(e, t, n, n + 1, recs[n]);
    NewEntryRead(e, t, recs, nNew, n, u);
  }

  lemma TokensFrom(recs: seq<Record>, n: nat, rest: seq<Token>)
    requires n < |recs|
    ensures var toks := RecordTokens(recs)[n..] + rest;
            |toks| > 0 && toks[0] == Entry(recs[n]) && toks[1..] == RecordTokens(recs)[n + 1..] + rest
  {
  }

  lemma {:induction false} LoadNewAny(e: Env, t: State, recs: seq<Record>, nNew: nat, n: nat, rest: seq<Token>)
    returns (u: State)
    requires Readable(e, recs, nNew) && SomeNew(e, t, recs, nNew, n) && nNew <= |recs|
    ensures LoadNew(e, t, RecordTokens(recs)[n..] + rest, n, nNew) == Some((u, RecordTokens(recs)[nNew..] + rest))
    ensures SomeNew(e, u, recs, nNew, nNew) && u.key == t.key && u.nNew == t.nNew && u.nTried == t.nTried
    decreases nNew - n
  {
    if n == nNew {
      u := t;
    } else {
      TokensFrom(recs, n, rest);
      var v := LoadNewEntry(e, t, n, recs[n]);
      NextNew(e, t, recs, nNew, n, v);
      u := LoadNewAny(e, v, recs, nNew, n + 1, rest);
    }
  }

  // ----- the tried entries

  /** `n` records are read, and `m` of the tried ones among them found their slot vacant. */
  ghost predicate SomeTried(e: Env, t: State, recs: seq<Record>, nNew: nat, n: nat, m: nat) {
    && nNew <= n <= |recs| && t.nIdCount == nNew + m <= n && Core(e, View(t, nNew, m), {}, t.mapInfo.Keys)
    && FromFile(t.mapInfo, recs, nNew, n) && HoldsNew(t.mapInfo, recs, nNew) && SlotsTaken(e, t, recs, nNew, n)
    && t.nNew == nNew && t.nTried == |recs| - n + m && t.vvNew == map[] && t.collisions == {}
  }

  lemma {:induction false} FromFileMore(m: map<int, Info>, recs: seq<Record>, nNew: nat, n: nat)
    requires FromFile(m, recs, nNew, n)
    ensures FromFile(m, recs, nNew, n + 1)
  {
    forall id | id in m ensures exists i :: 0 <= i < n + 1 && IsRecord(m[id], recs, nNew, i) {
      var i :| 0 <= i < n && IsRecord(m[id], recs, nNew, i);
    }
  }

  lemma TriedEntryFrom(e: Env, t: State, recs: seq<Record>, nNew: nat, n: nat, u: State)
    requires FromFile(t.mapInfo, recs, nNew, n) && nNew <= n < |recs| && u == LoadTriedEntry(e, t, recs[n])
    ensures FromFile(u.mapInfo, recs, nNew, n + 1)
  {
    forall id | id in u.mapInfo ensures exists i :: 0 <= i < n + 1 && IsRecord(u.mapInfo[id], recs, nNew, i) {
      if id == t.nIdCount {
        assert IsRecord(u.mapInfo[id], recs, nNew, n);
      } else {
        var i :| 0 <= i < n && IsRecord(t.mapInfo[id], recs, nNew, i);
        assert IsRecord(u.mapInfo[id], recs, nNew, i);
      }
    }
  }

  lemma TriedEntryRead(e: Env, t: State, recs: seq<Record>, nNew: nat, n: nat, u: State)
    requires FromFile(t.mapInfo, recs, nNew, n) && HoldsNew(t.mapInfo, recs, nNew) && nNew <= n < |recs|
    requires SlotsTaken(e, t, recs, nNew, n) && t.nIdCount >= nNew && u == LoadTriedEntry(e, t, recs[n])
    ensures FromFile(u.mapInfo, recs, nNew, n + 1) && HoldsNew(u.mapInfo, recs, nNew)
    ensures SlotsTaken(e, u, recs, nNew, n + 1)
  {
    TriedEntryFrom(e, t, recs, nNew, n, u);
    forall id | 0 <= id < nNew ensures NewAt(u.mapInfo, recs, id) { assert NewAt(t.mapInfo, recs, id); }
  }

  lemma KeepTried(e: Env, t: State, recs: seq<Record>, nNew: nat, n: nat, m: nat, u: State, next: nat, m': nat)
    requires Readable(e, recs, nNew) && SomeTried(e, t, recs, nNew, n, m) && n < |recs| && TriedFits(e, t, recs[n])
    requires u == LoadTriedEntry(e, t, recs[n]) && next == n + 1 && m' == m + 1
    ensures SomeTried(e, u, recs, nNew, next, m')
  {
    assert recs[n].addr !in t.mapAddr by { NotYetKnown(e, View(t, nNew, m), recs, nNew, n); }
    assert Core(e, View(u, nNew, m'), {}, u.mapInfo.Keys) by { LoadTriedKeepsCore(e, t, nNew, m, m', recs[n]); }
    TriedEntryRead(e, t, recs, nNew, n, u);
  }

  lemma SkipTried(e: Env, t: State, recs: seq<Record>, nNew: nat, n: nat, m: nat, u: State, next: nat)
    requires Readable(e, recs, nNew) && SomeTried(e, t, recs, nNew, n, m) && n < |recs| && !TriedFits(e, t, recs[n])
    requires u == t.(nTried := t.nTried - 1) && next == n + 1
    ensures SomeTried(e, u, recs, nNew, next, m)
  {
    assert View(u, nNew, m) == View(t, nNew, m);
    FromFileMore(t.mapInfo, recs, nNew, n);
  }

  lemma NextTried(e: Env, t: State, recs: seq<Record>, nNew: nat, n: nat, m: nat, next: nat) returns (u: State, m': nat)
    requires Readable(e, recs, nNew) && SomeTried(e, t, recs, nNew, n, m) && n < |recs| && next == n + 1
    ensures u == if TriedFits(e, t, recs[n]) then LoadTriedEntry(e, t, recs[n]) else t.(nTried := t.nTried - 1)
    ensures SomeTried(e, u, recs, nNew, next, m') && u.key == t.key
  {
    if TriedFits(e, t, recs[n]) {
      u, m' := LoadTriedEntry(e, t, recs[n]), m + 1;
      KeepTried(e, t, recs, nNew, n, m, u, next, m');
    } else {
      u, m' := t.(nTried := t.nTried - 1), m;
      SkipTried(e, t, recs, nNew, n, m, u, next);
    }
  }

  /** All records are read. */
  ghost predicate AllThere(e: Env, t: State, recs: seq<Record>, nNew: nat) {
    && Core(e, t, {}, t.mapInfo.Keys) && FromFile(t.mapInfo, recs, nNew, |recs|) && HoldsNew(t.mapInfo, recs, nNew)
    && SlotsTaken(e, t, recs, nNew, |recs|) && t.vvNew == map[] && t.collisions == {} && t.nIdCount <= |recs|
  }

  lemma TriedDone(e: Env, t: State, recs: seq<Record>, nNew: nat, n: nat, m: nat)
    requires SomeTried(e, t, recs, nNew, n, m) && n == |recs|
    ensures AllThere(e, t, recs, nNew)
  {
    assert View(t, nNew, m) == t;
  }

  lemma LoadTriedStep(e: Env, t: State, recs: seq<Record>, n: nat, next: nat, i: nat, j: nat, count: nat,
                      rest: seq<Token>,
                      u: State)
    requires n < |recs| && next == n + 1 && i < count && j == i + 1
    requires u == if TriedFits(e, t, recs[n]) then LoadTriedEntry(e, t, recs[n]) else t.(nTried := t.nTried - 1)
    ensures LoadTried(e, t, RecordTokens(recs)[n..] + rest, i, count) ==
            LoadTried(e, u, RecordTokens(recs)[next..] + rest, j, count)
  {
    TokensFrom(recs, n, rest);
  }

  lemma {:induction false} LoadTriedAny(e: Env, t: State, recs: seq<Record>, nNew: nat, n: nat, m: nat, i: nat,
                          count: nat,
                                        rest: seq<Token>) returns (u: State)
    requires Readable(e, recs, nNew) && SomeTried(e, t, recs, nNew, n, m) && n == nNew + i && |recs| == nNew + count
    ensures LoadTried(e, t, RecordTokens(recs)[n..] + rest, i, count) == Some((u, rest))
    ensures AllThere(e, u, recs, nNew) && u.key == t.key
    decreases count - i
  {
    if i == count {
      u := t;
      TriedDone(e, t, recs, nNew, n, m);
      assert RecordTokens(recs)[n..] + rest == rest;
    } else {
      var next, j := n + 1, i + 1;
      var v, m' := NextTried(e, t, recs, nNew, n, m, next);
      LoadTriedStep(e, t, recs, n, next, i, j, count, rest, v);
      u := LoadTriedAny(e, v, recs, nNew, next, m', j, count, rest);
    }
  }

  // ----- the references

  /** The pairs read name buckets of the file and new entries. */
  ghost predicate InFile(pairs: seq<(nat, nat)>, count: int, nNew: int) {
    forall i :: 0 <= i < |pairs| ==> pairs[i].0 < count && pairs[i].1 < nNew
  }

  lemma {:induction false} RowInFile(toks: seq<Token>, bucket: nat, n: nat, count: int, nNew: int,
                                     acc: seq<(nat, nat)>, all: int)
    requires InFile(acc, all, nNew) && bucket < all
    ensures var r := ReadRow(toks, bucket, n, count, nNew, acc); r.Some? ==> InFile(r.value.0, all, nNew)
    decreases |toks|
  {
    if n < count && |toks| > 0 && toks[0].Num? {
      var i := toks[0].n;
      RowInFile(toks[1..], bucket, n + 1, count, nNew, if 0 <= i < nNew then acc + [(bucket, i)] else acc, all);
    }
  }

  lemma {:induction false} PairsInFile(toks: seq<Token>, bucket: nat, count: int, nNew: int, acc: seq<(nat, nat)>)
    requires InFile(acc, count, nNew)
    ensures var r := ReadBuckets(toks, bucket, count, nNew, acc); r.Some? ==> InFile(r.value.0, count, nNew)
    decreases |toks|
  {
    if bucket < count && |toks| > 0 && toks[0].Num? {
      var row := ReadRow(toks[1..], bucket, 0, toks[0].n, nNew, acc);
      RowInFile(toks[1..], bucket, 0, toks[0].n, nNew, acc, count);
      if row.Some? { PairsInFile(row.value.1, bucket + 1, count, nNew, row.value.0); }
    }
  }

  /** The same entries, or some of them, as far as the file tells; the tried table stays. */
  ghost predicate Alike(t: State, u: State) {
    && u.key == t.key && u.vvTried == t.vvTried && u.collisions == t.collisions
    && forall id :: id in u.mapInfo ==>
         id in t.mapInfo && RecordOf(u.mapInfo[id]) == RecordOf(t.mapInfo[id]) &&
             u.mapInfo[id].inTried == t.mapInfo[id].inTried
  }

  lemma AddRefSame(t: State, k: Slot, id: int)
    requires id in t.mapInfo
    ensures var u := AddRef(t, k, id); Alike(t, u) && u.mapInfo.Keys == t.mapInfo.Keys
  {
  }

  lemma AddRefAlike(e: Env, t: State, k: Slot, id: int)
    requires Core(e, t, {}, t.mapInfo.Keys) && k !in t.vvNew && id in t.mapInfo && !t.mapInfo[id].inTried
    requires t.mapInfo[id].refCount < NEW_BUCKETS_PER_ADDRESS
    requires k.bucket < NEW_BUCKET_COUNT && k == NewSlotIn(e, t.key, t.mapInfo[id].addr, k.bucket)
    ensures var u := AddRef(t, k, id);
            Core(e, u, {}, u.mapInfo.Keys) && Alike(t, u) && u.mapInfo.Keys == t.mapInfo.Keys
  {
    var u, keys := AddRef(t, k, id), t.mapInfo.Keys;
    AddRefSame(t, k, id);
    assert Core(e, u, {}, keys - {id}) by { AddRefKeepsCore(e, t, k, id, {}, keys); }
    PendingMore(e, u, {}, keys - {id}, u.mapInfo.Keys);
  }

  lemma RestoreAny(e: Env, t: State, restore: bool, bucket: nat, id: int, u: State)
    requires Core(e, t, {}, t.mapInfo.Keys) && id in t.mapInfo && !t.mapInfo[id].inTried
    requires (restore ==> bucket < NEW_BUCKET_COUNT) && u == RestoreRef(e, t, restore, bucket, id)
    ensures Core(e, u, {}, u.mapInfo.Keys) && Alike(t, u) && u.mapInfo.Keys == t.mapInfo.Keys
  {
    var info := t.At(id);
    var k, home := NewSlotIn(e, t.key, info.addr, bucket), NewSlot(e, t.key, info.addr, info.source);
    if u != t {
      if restore && k !in t.vvNew { AddRefAlike(e, t, k, id); } else { AddRefAlike(e, t, home, id); }
    }
  }

  lemma {:induction false} RestoreRefsAny(e: Env, t: State, restore: bool, pairs: seq<(nat, nat)>, count: int,
                                          recs: seq<Record>, nNew: nat)
    requires Core(e, t, {}, t.mapInfo.Keys) && HoldsNew(t.mapInfo, recs, nNew) && InFile(pairs, count, nNew)
    requires restore ==> count <= NEW_BUCKET_COUNT
    ensures var u := RestoreRefs(e, t, restore, pairs);
            Core(e, u, {}, u.mapInfo.Keys) && Alike(t, u) && u.mapInfo.Keys == t.mapInfo.Keys
    decreases |pairs|
  {
    if |pairs| > 0 {
      var n := |pairs| - 1;
      RestoreRefsAny(e, t, restore, pairs[..n], count, recs, nNew);
      var v := RestoreRefs(e, t, restore, pairs[..n]);
      var (bucket, id) := pairs[n];
      assert NewAt(t.mapInfo, recs, id);
      RestoreAny(e, v, restore, bucket, id, RestoreRef(e, v, restore, bucket, id));
    }
  }

  // ----- where the references come to stand

  /** Every reference stands where the source of its entry selects or, if the buckets can be
      restored, in a bucket that the file lists it in. */
  ghost predicate RefsFrom(e: Env, s: State, recs: seq<Record>, nNew: nat, restore: bool, pairs: seq<(nat, nat)>) {
    forall k :: k in s.vvNew ==> RefFrom(e, s, recs, nNew, restore, pairs, k)
  }

  ghost predicate RefFrom(e: Env, s: State, recs: seq<Record>, nNew: nat, restore: bool, pairs: seq<(nat, nat)>,
                          k: Slot) {
    && k in s.vvNew && 0 <= s.vvNew[k] < nNew <= |recs|
    && var id, r := s.vvNew[k], recs[s.vvNew[k]];
       || k == NewSlot(e, s.key, r.addr, r.source)
       || (restore && k == NewSlotIn(e, s.key, r.addr, k.bucket) && (k.bucket, id) in pairs)
  }

  /** No reference is lost without need: its slot is taken, or it has as many as it may have. */
  ghost predicate RefsTaken(e: Env, s: State, recs: seq<Record>, restore: bool, pairs: seq<(nat, nat)>) {
    forall j :: 0 <= j < |pairs| ==> RefTaken(e, s, recs, restore, pairs[j])
  }

  ghost predicate RefTaken(e: Env, s: State, recs: seq<Record>, restore: bool, pair: (nat, nat)) {
    && pair.1 < |recs|
    && var r := recs[pair.1];
       if restore then NewSlotIn(e, s.key, r.addr, pair.0) in s.vvNew || |Refs(s.vvNew, pair.1)| >= 8
       else NewSlot(e, s.key, r.addr, r.source) in s.vvNew
  }

  lemma RefsGrow(a: map<Slot, int>, b: map<Slot, int>, id: int)
    requires forall k :: k in a ==> k in b && b[k] == a[k]
    ensures |Refs(a, id)| <= |Refs(b, id)|
  {
    SubsetCard(Refs(a, id), Refs(b, id));
  }

  lemma RefTakenStays(e: Env, s: State, t: State, recs: seq<Record>, restore: bool, pair: (nat, nat))
    requires RefTaken(e, s, recs, restore, pair) && t.key == s.key
    requires forall k :: k in s.vvNew ==> k in t.vvNew && t.vvNew[k] == s.vvNew[k]
    ensures RefTaken(e, t, recs, restore, pair)
  {
    RefsGrow(s.vvNew, t.vvNew, pair.1);
  }

  /** A table that keeps what it had, and has at most one reference more. */
  ghost predicate OneMore(s: State, t: State, k: Slot, id: int) {
    t.key == s.key && (t.vvNew == s.vvNew || (k !in s.vvNew && t.vvNew == s.vvNew[k := id]))
  }

  /** What one reference of the file does to the table. */
  lemma RestoreStep(e: Env, t: State, recs: seq<Record>, restore: bool, bucket: nat, id: nat, u: State)
    returns (k: Slot)
    requires NewAt(t.mapInfo, recs, id) && IsValidAddr(e, recs[id].addr)
    requires t.mapInfo[id].refCount == |Refs(t.vvNew, id)| && u == RestoreRef(e, t, restore, bucket, id)
    requires !restore && Refs(t.vvNew, id) != {} ==> NewSlot(e, t.key, recs[id].addr, recs[id].source) in t.vvNew
    ensures OneMore(t, u, k, id) && RefTaken(e, u, recs, restore, (bucket, id))
    ensures u.vvNew != t.vvNew ==>
            || k == NewSlot(e, t.key, recs[id].addr, recs[id].source)
            || (restore && k == NewSlotIn(e, t.key, recs[id].addr, bucket))
  {
    var r := recs[id];
    assert t.mapInfo[id].addr == r.addr && t.mapInfo[id].source == r.source;
    k := if restore && NewSlotIn(e, t.key, r.addr, bucket) !in t.vvNew then NewSlotIn(e, t.key, r.addr, bucket)
         else NewSlot(e, t.key, r.addr, r.source);
  }

  lemma RefFromMore(e: Env, s: State, t: State, recs: seq<Record>, nNew: nat, restore: bool, pairs: seq<(nat, nat)>,
                    more: seq<(nat, nat)>, k: Slot)
    requires RefFrom(e, s, recs, nNew, restore, pairs, k) && t.key == s.key && k in t.vvNew && t.vvNew[k] == s.vvNew[k]
    requires forall p :: p in pairs ==> p in more
    ensures RefFrom(e, t, recs, nNew, restore, more, k)
  {
  }

  lemma HomeFirst(e: Env, s: State, recs: seq<Record>, nNew: nat, pairs: seq<(nat, nat)>, id: nat)
    requires RefsFrom(e, s, recs, nNew, false, pairs) && Refs(s.vvNew, id) != {}
    ensures id < |recs| && NewSlot(e, s.key, recs[id].addr, recs[id].source) in s.vvNew
  {
    var k :| k in Refs(s.vvNew, id);
    assert RefFrom(e, s, recs, nNew, false, pairs, k);
  }

  /** One more pair of the file. */
  lemma RefsNext(e: Env, t: State, u: State, recs: seq<Record>, nNew: nat, restore: bool, pairs: seq<(nat, nat)>,
                 bucket: nat,
                 id: nat, more: seq<(nat, nat)>, k: Slot)
    requires RefsFrom(e, t, recs, nNew, restore, pairs) && RefsTaken(e, t, recs, restore, pairs) && id < nNew <= |recs|
    requires more == pairs + [(bucket, id)] && OneMore(t, u, k, id) && RefTaken(e, u, recs, restore, (bucket, id))
    requires u.vvNew != t.vvNew ==>
             || k == NewSlot(e, t.key, recs[id].addr, recs[id].source)
             || (restore && k == NewSlotIn(e, t.key, recs[id].addr, bucket))
    ensures RefsFrom(e, u, recs, nNew, restore, more) && RefsTaken(e, u, recs, restore, more)
  {
    forall j | 0 <= j < |more| ensures RefTaken(e, u, recs, restore, more[j]) {
      if j < |pairs| { RefTakenStays(e, t, u, recs, restore, pairs[j]); }
    }
    forall x | x in u.vvNew ensures RefFrom(e, u, recs, nNew, restore, more, x) {
      if x in t.vvNew {
        RefFromMore(e, t, u, recs, nNew, restore, pairs, more, x);
      } else {
        assert more[|pairs|] == (bucket, id);
      }
    }
  }

  /** The entry that the j-th pair names, when it is its turn. */
  ghost predicate EntryMet(e: Env, t: State, restore: bool, pairs: seq<(nat, nat)>, recs: seq<Record>, nNew: nat,
                          j: nat)
    requires j < |pairs|
  {
    var v, id := RestoreRefs(e, t, restore, pairs[..j]), pairs[j].1;
    && id < nNew <= |recs| && IsValidAddr(e, recs[id].addr) && NewAt(v.mapInfo, recs, id)
    && v.mapInfo[id].refCount == |Refs(v.vvNew, id)|
  }

  lemma {:induction false} RefsRestoredTo(e: Env, t: State, restore: bool, pairs: seq<(nat, nat)>, recs: seq<Record>,
                                          nNew: nat, n: nat)
    requires n <= |pairs| && t.vvNew == map[]
    requires forall j :: 0 <= j < n ==> EntryMet(e, t, restore, pairs, recs, nNew, j)
    ensures var u := RestoreRefs(e, t, restore, pairs[..n]);
            RefsFrom(e, u, recs, nNew, restore, pairs[..n]) && RefsTaken(e, u, recs, restore, pairs[..n])
  {
    if n > 0 {
      var j := n - 1;
      var (bucket, id) := pairs[j];
      var v := RestoreRefs(e, t, restore, pairs[..j]);
      RefsRestoredTo(e, t, restore, pairs, recs, nNew, j);
      assert EntryMet(e, t, restore, pairs, recs, nNew, j);
      assert pairs[..n][..j] == pairs[..j] && pairs[..n] == pairs[..j] + [(bucket, id)];
      RestoreLast(e, t, restore, pairs[..n], j, bucket, id);
      RestoreNext(e, v, RestoreRef(e, v, restore, bucket, id), restore, pairs[..j], bucket, id, pairs[..n], recs, nNew);
    }
  }

  lemma RefsRestored(e: Env, t: State, restore: bool, pairs: seq<(nat, nat)>, count: int, recs: seq<Record>, nNew: nat)
    requires Core(e, t, {}, t.mapInfo.Keys) && HoldsNew(t.mapInfo, recs, nNew) && InFile(pairs, count, nNew)
    requires (restore ==> count <= NEW_BUCKET_COUNT) && t.vvNew == map[] && Readable(e, recs, nNew)
    ensures var u := RestoreRefs(e, t, restore, pairs);
            RefsFrom(e, u, recs, nNew, restore, pairs) && RefsTaken(e, u, recs, restore, pairs)
  {
    forall j | 0 <= j < |pairs| ensures EntryMet(e, t, restore, pairs, recs, nNew, j) {
      var id := pairs[j].1;
      RestoredEntry(e, t, restore, pairs[..j], count, recs, nNew, id);
      assert NewAt(t.mapInfo, recs, id) && NewAt(t.mapInfo, recs, nNew - 1);
    }
    RefsRestoredTo(e, t, restore, pairs, recs, nNew, |pairs|);
    assert pairs[..|pairs|] == pairs;
  }

  lemma RestoreLast(e: Env, t: State, restore: bool, pairs: seq<(nat, nat)>, n: nat, bucket: nat, id: nat)
    requires |pairs| == n + 1 && pairs[n] == (bucket, id)
    ensures RestoreRefs(e, t, restore, pairs) ==
            RestoreRef(e, RestoreRefs(e, t, restore, pairs[..n]), restore, bucket, id)
  {
  }

  lemma RestoreNext(e: Env, v: State, u: State, restore: bool, pairs: seq<(nat, nat)>, bucket: nat, id: nat,
                    more: seq<(nat, nat)>, recs: seq<Record>, nNew: nat)
    requires RefsFrom(e, v, recs, nNew, restore, pairs) && RefsTaken(e, v, recs, restore, pairs)
    requires id < nNew <= |recs| && more == pairs + [(bucket, id)] && u == RestoreRef(e, v, restore, bucket, id)
    requires NewAt(v.mapInfo, recs, id) && IsValidAddr(e, recs[id].addr)
    requires v.mapInfo[id].refCount == |Refs(v.vvNew, id)|
    ensures RefsFrom(e, u, recs, nNew, restore, more) && RefsTaken(e, u, recs, restore, more)
  {
    if !restore && Refs(v.vvNew, id) != {} { HomeFirst(e, v, recs, nNew, pairs, id); }
    var k := RestoreStep(e, v, recs, restore, bucket, id, u);
    RefsNext(e, v, u, recs, nNew, restore, pairs, bucket, id, more, k);
  }

  lemma RestoredEntry(e: Env, t: State, restore: bool, pairs: seq<(nat, nat)>, count: int, recs: seq<Record>,
                      nNew: nat, id: nat)
    requires Core(e, t, {}, t.mapInfo.Keys) && HoldsNew(t.mapInfo, recs, nNew) && InFile(pairs, count, nNew)
    requires (restore ==> count <= NEW_BUCKET_COUNT) && id < nNew
    ensures var v := RestoreRefs(e, t, restore, pairs);
            NewAt(v.mapInfo, recs, id) && v.mapInfo[id].refCount == |Refs(v.vvNew, id)|
  {
    var v := RestoreRefs(e, t, restore, pairs);
    RestoreRefsAny(e, t, restore, pairs, count, recs, nNew);
    assert NewAt(t.mapInfo, recs, id);
    RefCountOf(e, v, id, {}, v.mapInfo.Keys);
  }

  // ----- pruning

  predicate Bare(info: Info) { !info.inTried && info.refCount == 0 }

  lemma PruneOne(e: Env, t: State, id: int, u: State)
    requires Core(e, t, {}, t.mapInfo.Keys) && id in t.mapInfo && Bare(t.mapInfo[id]) && u == Delete(e, t, id)
    ensures Core(e, u, {}, u.mapInfo.Keys) && Alike(t, u) && id !in u.mapInfo && u.vvNew == t.vvNew
    ensures forall other :: other in u.mapInfo ==> u.mapInfo[other].refCount == t.mapInfo[other].refCount
  {
    DeleteKeepsCore(e, t, id, {}, t.mapInfo.Keys);
    DeleteRest(e, t, id);
    forall other ensures (other in u.mapInfo <==> other in t.mapInfo && other != id) &&
        (other != id ==> Kept(t, u, other)) {
      DeleteFrame(e, t, id, other);
    }
    PendingMore(e, u, {}, t.mapInfo.Keys - {id}, u.mapInfo.Keys);
  }

  /** Walking over all entries without a reference leaves none. */
  lemma {:induction false} PruneAny(e: Env, t: State, order: seq<int>)
    requires Core(e, t, {}, t.mapInfo.Keys)
    requires forall id :: id in t.mapInfo && Bare(t.mapInfo[id]) ==> id in order
    ensures Core(e, Prune(e, t, order), {}, {}) && Alike(t, Prune(e, t, order))
    ensures Prune(e, t, order).vvNew == t.vvNew
    decreases |order|
  {
    if |order| == 0 {
      RefCountsCount(e, t);
      NonePendingCore(e, t);
    } else {
      var id := order[0];
      var u := if id in t.mapInfo && Bare(t.mapInfo[id]) then Delete(e, t, id) else t;
      if id in t.mapInfo && Bare(t.mapInfo[id]) { PruneOne(e, t, id, u); }
      forall other | other in u.mapInfo && Bare(u.mapInfo[other]) ensures other in order[1..] {
        assert Bare(t.mapInfo[other]) && other in order && other != id;
      }
      PruneAny(e, u, order[1..]);
    }
  }

  lemma RefCountsCount(e: Env, t: State)
    requires Core(e, t, {}, t.mapInfo.Keys)
    ensures forall id :: id in t.mapInfo ==> t.mapInfo[id].refCount >= 0
  {
    forall id | id in t.mapInfo ensures t.mapInfo[id].refCount >= 0 { RefCountOf(e, t, id, {}, t.mapInfo.Keys); }
  }

  // ----- the whole file

  function BucketCount(toks: seq<Token>): int
    requires HeaderOk(toks)
  {
    if toks[0].n >= V1_DETERMINISTIC then FlipBit30(toks[5].n) else toks[5].n
  }

  lemma AlikeStays(e: Env, t: State, u: State, recs: seq<Record>, nNew: nat)
    requires Alike(t, u) && FromFile(t.mapInfo, recs, nNew, |recs|) && SlotsTaken(e, t, recs, nNew, |recs|)
    ensures FromFile(u.mapInfo, recs, nNew, |recs|) && SlotsTaken(e, u, recs, nNew, |recs|)
  {
    forall id | id in u.mapInfo ensures exists i :: 0 <= i < |recs| && IsRecord(u.mapInfo[id], recs, nNew, i) {
      var i :| 0 <= i < |recs| && IsRecord(t.mapInfo[id], recs, nNew, i);
      assert IsRecord(u.mapInfo[id], recs, nNew, i);
    }
  }

  /** The buckets of the file are used if it has as many and was written under the same map. */
  predicate Restorable(e: Env, format: int, count: int, tail: seq<Token>)
    requires format >= 2 ==> |tail| > 0 && tail[0].Checksum?
  {
    count == 1024 && (if format >= 2 then tail[0].hash else 0) == e.asmapChecksum
  }

  ghost predicate RefsRight(e: Env, s: State, recs: seq<Record>, nNew: nat, restore: bool, pairs: seq<(nat, nat)>) {
    RefsFrom(e, s, recs, nNew, restore, pairs) && RefsTaken(e, s, recs, restore, pairs)
  }

  lemma RefsStay(e: Env, s: State, t: State, recs: seq<Record>, nNew: nat, restore: bool, pairs: seq<(nat, nat)>)
    requires RefsRight(e, s, recs, nNew, restore, pairs) && t.key == s.key && t.vvNew == s.vvNew
    ensures RefsRight(e, t, recs, nNew, restore, pairs)
  {
    forall k | k in t.vvNew ensures RefFrom(e, t, recs, nNew, restore, pairs, k) {
      assert RefFrom(e, s, recs, nNew, restore, pairs, k);
    }
    forall j | 0 <= j < |pairs| ensures RefTaken(e, t, recs, restore, pairs[j]) {
      assert RefTaken(e, s, recs, restore, pairs[j]);
    }
  }

  /** What comes after the entries never spoils them. */
  lemma FinishAny(e: Env, t: State, recs: seq<Record>, nNew: nat, pairs: seq<(nat, nat)>, tail: seq<Token>, format: int,
                  count: int, prune: seq<int>) returns (u: State)
    requires AllThere(e, t, recs, nNew) && InFile(pairs, count, nNew) && Readable(e, recs, nNew)
    requires (format >= V2_ASMAP ==> |tail| > 0 && tail[0].Checksum?) && forall id :: id in t.mapInfo ==> id in prune
    ensures Finish(e, t, pairs, tail, format, count, prune) == Ok(u)
    ensures Inv(e, u) && Alike(t, u) && RefsRight(e, u, recs, nNew, Restorable(e, format, count, tail), pairs)
  {
    var restore := Restorable(e, format, count, tail);
    var v := RestoreRefs(e, t, restore, pairs);
    RestoreRefsAny(e, t, restore, pairs, count, recs, nNew);
    RefsRestored(e, t, restore, pairs, count, recs, nNew);
    u := Prune(e, v, prune);
    PruneAny(e, v, prune);
    RefsStay(e, v, u, recs, nNew, restore, pairs);
    InvIsConsistent(e, u);
  }

  lemma NothingYet(e: Env, key: nat, recs: seq<Record>, nNew: nat, nTried: nat)
    requires key != 0
    ensures SomeNew(e, Blank(key, nNew, nTried), recs, nNew, 0)
  {
    InitialInv(e, key);
    var t := Blank(key, nNew, nTried);
    assert View(t, 0, 0) == Initial(key);
    PendingMore(e, Initial(key), {}, {}, t.mapInfo.Keys);
  }

  lemma NewDone(e: Env, t: State, recs: seq<Record>, nNew: nat, nTried: nat)
    requires SomeNew(e, t, recs, nNew, nNew) && |recs| == nNew + nTried && t.nNew == nNew && t.nTried == nTried
    ensures SomeTried(e, t.(nIdCount := nNew), recs, nNew, nNew, 0)
  {
    assert View(t.(nIdCount := nNew), nNew, 0) == View(t, nNew, 0);
  }

  lemma EntriesReadAny(e: Env, key: nat, recs: seq<Record>, nNew: nat, nTried: nat, body: seq<Token>, rest: seq<Token>)
    returns (t: State, later: seq<Token>, u: State)
    requires key != 0 && Readable(e, recs, nNew) && |recs| == nNew + nTried && body == RecordTokens(recs) + rest
    ensures LoadNew(e, Blank(key, nNew, nTried), body, 0, nNew) == Some((t, later))
    ensures LoadTried(e, t.(nIdCount := nNew), later, 0, nTried) == Some((u, rest))
    ensures AllThere(e, u, recs, nNew) && u.key == key
  {
    assert RecordTokens(recs)[0..] == RecordTokens(recs);
    NothingYet(e, key, recs, nNew, nTried);
    t := LoadNewAny(e, Blank(key, nNew, nTried), recs, nNew, 0, rest);
    later := RecordTokens(recs)[nNew..] + rest;
    NewDone(e, t, recs, nNew, nTried);
    u := LoadTriedAny(e, t.(nIdCount := nNew), recs, nNew, nNew, 0, 0, nTried, rest);
  }

  lemma UnserializeStages(e: Env, toks: seq<Token>, prune: seq<int>, nNew: nat, nTried: nat, t: State,
                          later: seq<Token>,
                          u: State, rest: seq<Token>, pairs: seq<(nat, nat)>, tail: seq<Token>)
    requires !TooNew(toks) && HeaderOk(toks) && nNew == toks[3].n && nTried == toks[4].n
    requires LoadNew(e, Blank(toks[2].key, nNew, nTried), toks[6..], 0, nNew) == Some((t, later))
    requires LoadTried(e, t.(nIdCount := nNew), later, 0, nTried) == Some((u, rest))
    requires ReadBuckets(rest, 0, BucketCount(toks), nNew, []) == Some((pairs, tail))
    ensures Unserialize(e, toks, prune) == Finish(e, u, pairs, tail, toks[0].n, BucketCount(toks), prune)
  {
  }

  /**
   Any file with a header, records that can be read, bucket lists of any number and content and,
   in the formats that have one, any checksum is accepted: the consistency check at the end never
   refuses it. All indexes agree, every entry is a record of the file, and no slot that a
   valid tried record of it has is left vacant. References stand in the buckets of the file if these
   can be restored, and otherwise where the source of the entry selects, and none is lost without need.
   */
  lemma AnyFileReads(e: Env, toks: seq<Token>, recs: seq<Record>, nNew: nat, rest: seq<Token>, pairs: seq<(nat, nat)>,
                     tail: seq<Token>, prune: seq<int>) returns (t: State)
    requires !TooNew(toks) && HeaderOk(toks) && toks[2].key != 0 && nNew == toks[3].n && |recs| == nNew + toks[4].n
    requires toks[6..] == RecordTokens(recs) + rest && Readable(e, recs, nNew)
    requires ReadBuckets(rest, 0, BucketCount(toks), nNew, []) == Some((pairs, tail))
    requires toks[0].n >= V2_ASMAP ==> |tail| > 0 && tail[0].Checksum?
    requires forall id :: 0 <= id < |recs| ==> id in prune
    ensures Unserialize(e, toks, prune) == Ok(t) && Inv(e, t) && t.key == toks[2].key
    ensures FromFile(t.mapInfo, recs, nNew, |recs|) && SlotsTaken(e, t, recs, nNew, |recs|)
    ensures RefsRight(e, t, recs, nNew, Restorable(e, toks[0].n, BucketCount(toks), tail), pairs)
    ensures HoldsSome(t.mapInfo, recs, nNew)
  {
    var a, later, u := EntriesReadAny(e, toks[2].key, recs, nNew, toks[4].n, toks[6..], rest);
    assert InFile(pairs, BucketCount(toks), nNew) by { PairsInFile(rest, 0, BucketCount(toks), nNew, []); }
    UnserializeStages(e, toks, prune, nNew, toks[4].n, a, later, u, rest, pairs, tail);
    IdsBelowCount(e, u, recs, nNew, prune);
    t := FinishAny(e, u, recs, nNew, pairs, tail, toks[0].n, BucketCount(toks), prune);
    AlikeStays(e, u, t, recs, nNew);
    forall id | id in t.mapInfo && 0 <= id < nNew ensures NewAt(t.mapInfo, recs, id) {
      assert NewAt(u.mapInfo, recs, id);
    }
  }

  lemma IdsBelowCount(e: Env, t: State, recs: seq<Record>, nNew: nat, prune: seq<int>)
    requires AllThere(e, t, recs, nNew) && forall id :: 0 <= id < |recs| ==> id in prune
    ensures forall id :: id in t.mapInfo ==> id in prune
  {
    forall id | id in t.mapInfo ensures id in prune { assert id in Addrs(t.mapInfo).Keys; }
  }

  /** Files that are refused for their header: written by software that this one is too old
      for, or with numbers that cannot be. */
  lemma HeaderRefused(e: Env, toks: seq<Token>, prune: seq<int>)
    requires |toks| >= 6 && toks[0].Num? && toks[1].Num? && toks[2].Key? && toks[3].Num? && toks[4].Num? && toks[5].Num?
    ensures Unserialize(e, toks, prune) == WrongVersion <==> toks[1].n > 36
    ensures toks[1].n < 32 || (toks[1].n <= 36 && !(0 <= toks[3].n <= 65536 && 0 <= toks[4].n <= 16384)) ==>
            Unserialize(e, toks, prune) == Corrupt
    ensures Unserialize(e, toks, prune).Ok? ==> Consistent(e, Unserialize(e, toks, prune).state)
  {
  }

  // ----- a file written under another AS map

  function Records(s: State, ids: seq<int>): seq<Record> {
    seq(|ids|, i requires 0 <= i < |ids| => RecordOf(s.At(ids[i])))
  }

  lemma WrittenReadable(e: Env, e': Env, s: State, all: seq<int>)
    requires Inv(e, s) && IsRoster(s, all) && e'.validIp == e.validIp
    ensures Readable(e', Records(s, all), s.nNew)
  {
    forall i | 0 <= i < |all|
      ensures IsValidAddr(e', s.At(all[i]).addr) && s.At(all[i]).lastSuccess >= 0
      ensures i >= s.nNew ==> s.At(all[i]).lastSuccess > 0
    {
      SourceRecord(e, s, all[i]);
    }
    forall i, j | 0 <= i < j < |all| ensures s.At(all[i]).addr != s.At(all[j]).addr { AddrsDiffer(s, all, i, j); }
  }

  lemma TokensJoin(s: State, ids: seq<int>, tids: seq<int>)
    ensures RecordTokens(Records(s, ids + tids)) == EntryTokens(s, ids) + EntryTokens(s, tids)
  {
  }

  lemma Regroup<T>(a: seq<T>, b: seq<T>, c: seq<T>)
    ensures a + (b + c) == (a + b) + c
  {
  }

  lemma WrittenTokens(s: State, ids: seq<int>, tids: seq<int>, all: seq<int>, rest: seq<Token>)
    requires all == ids + tids
    ensures EntryTokens(s, ids) + (EntryTokens(s, tids) + rest) == RecordTokens(Records(s, all)) + rest
  {
    TokensJoin(s, ids, tids);
    Regroup(EntryTokens(s, ids), EntryTokens(s, tids), rest);
  }

  /** The header and the entries of a written file. */
  lemma WrittenHead(e: Env, s: State, order: seq<int>, all: seq<int>, ids: seq<int>, toks: seq<Token>, rest: seq<Token>)
    requires Inv(e, s) && all == Roster(s, order) && ids == NewOrder(s, order) && toks == Serialize(e, s, order)
    requires rest == BucketTokens(s.vvNew, ids, 0) + [Checksum(e.asmapChecksum)]
    ensures !TooNew(toks) && HeaderOk(toks) && toks[0] == Num(4) && toks[2] == Key(s.key) && toks[3] == Num(s.nNew) &&
            toks[4] == Num(s.nTried)
    ensures BucketCount(toks) == NEW_BUCKET_COUNT && toks[6..] == RecordTokens(Records(s, all)) + rest
  {
    NewFits(e, s);
    TriedFitsTable(e, s);
    HeaderReads(e, s, order);
    WrittenTokens(s, ids, TriedOrder(s, order), all, rest);
  }

  /**
   Read under any other bucket hashes, positions and AS map, as long as the same addresses are
   valid, a written file is accepted and gives a manager whose indexes agree. All its entries
   were in the one written, in the same table; every tried slot that an entry of the latter
   hashes to is taken.
   */
  lemma OtherMapReads(e: Env, e': Env, s: State, order: seq<int>, prune: seq<int>) returns (t: State)
    requires Inv(e, s) && Enumerates(s, order) && e'.validIp == e.validIp
    requires forall id :: 0 <= id < s.nNew + s.nTried ==> id in prune
    ensures Unserialize(e', Serialize(e, s, order), prune) == Ok(t) && Inv(e', t) && t.key == s.key
    ensures forall id :: id in t.mapInfo ==> exists was :: was in s.mapInfo && SameRecord(s, was, t, id)
    ensures forall was :: was in s.mapInfo && s.mapInfo[was].inTried ==>
            TriedSlot(e', s.key, s.mapInfo[was].addr) in t.vvTried
    ensures e'.asmapChecksum != e.asmapChecksum ==> AllHome(e', t) && HomesTaken(e', s, t)
  {
    var all, ids, checksum := Roster(s, order), NewOrder(s, order), [Checksum(e.asmapChecksum)];
    assert IsRoster(s, all) && |ids| == s.nNew by { RosterFacts(e, s, order); }
    t := WrittenReads(e, e', s, order, all, ids, BucketTokens(s.vvNew, ids, 0) + checksum,
                      PairsOf(s.vvNew, ids, AllSlots(s.vvNew, 0)), checksum, prune);
    EntriesWere(s, t, all);
    SlotsWere(e', s, t, all);
    if e'.asmapChecksum != e.asmapChecksum {
      var pairs := PairsOf(s.vvNew, ids, AllSlots(s.vvNew, 0));
      HomesWere(e, e', s, t, all, ids, pairs);
      HomesOnly(e', s, t, all, s.nNew, pairs);
    }
  }

  /** Every reference stands where the source of its entry selects. */
  ghost predicate AllHome(e: Env, t: State) {
    forall k :: k in t.vvNew ==>
      t.vvNew[k] in t.mapInfo && k == NewSlot(e, t.key, t.mapInfo[t.vvNew[k]].addr, t.mapInfo[t.vvNew[k]].source)
  }

  /** The slot that the source of a new entry selects is taken. */
  ghost predicate HomesTaken(e: Env, s: State, t: State) {
    forall was :: was in s.mapInfo && !s.mapInfo[was].inTried ==>
      NewSlot(e, s.key, s.mapInfo[was].addr, s.mapInfo[was].source) in t.vvNew
  }

  lemma HomesWere(e: Env, e': Env, s: State, t: State, all: seq<int>, ids: seq<int>, pairs: seq<(nat, nat)>)
    requires Inv(e, s) && IsRoster(s, all) && ids == all[..s.nNew] && t.key == s.key
    requires pairs == PairsOf(s.vvNew, ids, AllSlots(s.vvNew, 0)) && RefsTaken(e', t, Records(s, all), false, pairs)
    ensures HomesTaken(e', s, t)
  {
    forall was | was in s.mapInfo && !s.mapInfo[was].inTried
      ensures NewSlot(e', s.key, s.mapInfo[was].addr, s.mapInfo[was].source) in t.vvNew
    {
      var j := ListedSomewhere(e, s, all, ids, pairs, was);
      HomeWas(e', s, t, all, pairs, was, j);
    }
  }

  lemma HomeWas(e: Env, s: State, t: State, all: seq<int>, pairs: seq<(nat, nat)>, was: int, j: nat)
    requires t.key == s.key && RefsTaken(e, t, Records(s, all), false, pairs) && was in s.mapInfo
    requires j < |pairs| && pairs[j].1 < |all| && all[pairs[j].1] == was
    ensures NewSlot(e, s.key, s.mapInfo[was].addr, s.mapInfo[was].source) in t.vvNew
  {
    assert RefTaken(e, t, Records(s, all), false, pairs[j]);
  }

  /** A new entry is in some bucket list of the file. */
  lemma ListedSomewhere(e: Env, s: State, all: seq<int>, ids: seq<int>, pairs: seq<(nat, nat)>, was: int)
    returns (j: nat)
    requires Inv(e, s) && IsRoster(s, all) && ids == all[..s.nNew] && was in s.mapInfo && !s.mapInfo[was].inTried
    requires pairs == PairsOf(s.vvNew, ids, AllSlots(s.vvNew, 0))
    ensures j < |pairs| && pairs[j].1 < |ids| && all[pairs[j].1] == was
  {
    RefCountOf(e, s, was, {}, {});
    HasRefs(e, s, was);
    var k :| k in Refs(s.vvNew, was);
    NewSlots(e, s);
    var slots := AllSlots(s.vvNew, 0);
    assert k in slots;
    j :| 0 <= j < |slots| && slots[j] == k;
    SlotNumber(e, s, all, ids, k);
  }

  lemma HomesOnly(e: Env, s: State, t: State, all: seq<int>, nNew: nat, pairs: seq<(nat, nat)>)
    requires Inv(e, t) && RefsFrom(e, t, Records(s, all), nNew, false, pairs)
    requires HoldsSome(t.mapInfo, Records(s, all), nNew)
    ensures AllHome(e, t)
  {
    forall k | k in t.vvNew
      ensures t.vvNew[k] in t.mapInfo && k == NewSlot(e, t.key, t.mapInfo[t.vvNew[k]].addr,
              t.mapInfo[t.vvNew[k]].source)
    {
      RefTarget(e, t, k, {}, {});
      assert NewAt(t.mapInfo, Records(s, all), t.vvNew[k]) by { assert RefFrom(e, t, Records(s, all), nNew, false,
             pairs, k); }
      assert RefFrom(e, t, Records(s, all), nNew, false, pairs, k);
    }
  }

  lemma WrittenReads(e: Env, e': Env, s: State, order: seq<int>, all: seq<int>, ids: seq<int>, rest: seq<Token>,
                     pairs: seq<(nat, nat)>, checksum: seq<Token>, prune: seq<int>) returns (t: State)
    requires Inv(e, s) && IsRoster(s, all) && all == Roster(s, order) && ids == NewOrder(s, order) && |ids| == s.nNew
    requires checksum == [Checksum(e.asmapChecksum)] && rest == BucketTokens(s.vvNew, ids, 0) + checksum
    requires pairs == PairsOf(s.vvNew, ids, AllSlots(s.vvNew, 0)) && e'.validIp == e.validIp
    requires forall id :: 0 <= id < |all| ==> id in prune
    ensures Unserialize(e', Serialize(e, s, order), prune) == Ok(t) && Inv(e', t) && t.key == s.key
    ensures FromFile(t.mapInfo, Records(s, all), s.nNew, |all|) && SlotsTaken(e', t, Records(s, all), s.nNew, |all|)
    ensures HoldsSome(t.mapInfo, Records(s, all), s.nNew)
    ensures e'.asmapChecksum != e.asmapChecksum ==> RefsRight(e', t, Records(s, all), s.nNew, false, pairs)
  {
    var toks, recs := Serialize(e, s, order), Records(s, all);
    WrittenHead(e, s, order, all, ids, toks, rest);
    assert Readable(e', recs, s.nNew) by { WrittenReadable(e, e', s, all); }
    assert ReadBuckets(rest, 0, NEW_BUCKET_COUNT, s.nNew, []) == Some((pairs, checksum)) by {
      BucketsReadBack(e, s, all, ids, s.nNew, rest, pairs, checksum);
    }
    t := HeadReads(e', toks, s.key, recs, s.nNew, s.nTried, rest, pairs, e.asmapChecksum, prune);
  }

  lemma HeadReads(e: Env, toks: seq<Token>, key: nat, recs: seq<Record>, nNew: nat, nTried: nat, rest: seq<Token>,
                  pairs: seq<(nat, nat)>, hash: nat, prune: seq<int>) returns (t: State)
    requires !TooNew(toks) && HeaderOk(toks) && toks[0] == Num(4) && toks[2] == Key(key) && key != 0
    requires toks[3] == Num(nNew) && toks[4] == Num(nTried) && BucketCount(toks) == NEW_BUCKET_COUNT
    requires toks[6..] == RecordTokens(recs) + rest && Readable(e, recs, nNew) && |recs| == nNew + nTried
    requires ReadBuckets(rest, 0, NEW_BUCKET_COUNT, nNew, []) == Some((pairs, [Checksum(hash)]))
    requires forall id :: 0 <= id < |recs| ==> id in prune
    ensures Unserialize(e, toks, prune) == Ok(t) && Inv(e, t) && t.key == key
    ensures FromFile(t.mapInfo, recs, nNew, |recs|) && SlotsTaken(e, t, recs, nNew, |recs|)
    ensures HoldsSome(t.mapInfo, recs, nNew) && (e.asmapChecksum != hash ==> RefsRight(e, t, recs, nNew, false, pairs))
  {
    t := AnyFileReads(e, toks, recs, nNew, rest, pairs, [Checksum(hash)], prune);
  }

  predicate SameRecord(s: State, was: int, t: State, id: int) {
    && was in s.mapInfo && id in t.mapInfo && RecordOf(t.mapInfo[id]) == RecordOf(s.mapInfo[was])
    && t.mapInfo[id].inTried == s.mapInfo[was].inTried
  }

  lemma EntriesWere(s: State, t: State, all: seq<int>)
    requires IsRoster(s, all) && FromFile(t.mapInfo, Records(s, all), s.nNew, |all|)
    ensures forall id :: id in t.mapInfo ==> exists was :: was in s.mapInfo && SameRecord(s, was, t, id)
  {
    forall id | id in t.mapInfo ensures exists was :: was in s.mapInfo && SameRecord(s, was, t, id) {
      var i :| 0 <= i < |all| && IsRecord(t.mapInfo[id], Records(s, all), s.nNew, i);
      assert SameRecord(s, all[i], t, id);
    }
  }

  lemma SlotsWere(e: Env, s: State, t: State, all: seq<int>)
    requires IsRoster(s, all) && SlotsTaken(e, t, Records(s, all), s.nNew, |all|) && t.key == s.key
    requires forall id :: id in s.mapInfo ==> IsValidAddr(e, s.mapInfo[id].addr)
    ensures forall was :: was in s.mapInfo && s.mapInfo[was].inTried ==>
            TriedSlot(e, s.key, s.mapInfo[was].addr) in t.vvTried
  {
    forall was | was in s.mapInfo && s.mapInfo[was].inTried ensures TriedSlot(e, s.key,
        s.mapInfo[was].addr) in t.vvTried {
      assert was in all;
      var i :| 0 <= i < |all| && all[i] == was;
      assert Records(s, all)[i].addr == s.mapInfo[was].addr;
    }
  }
}
