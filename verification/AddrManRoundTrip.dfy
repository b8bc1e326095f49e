/**
 Writing the address manager to disk and reading it back gives the same
 manager, up to a renumbering of the entries.
 */
module AddrManRoundTrip {
  import opened AddrManCheck
  import opened AddrManDisk
  import opened AddrManInvariant
  import opened AddrManOperations
  import opened AddrManRuns
  import opened AddrManState
  import opened AddrManSteps
  import opened Helpers

  // ----- the order of the entries

  /** `order` walks every entry once. */
  ghost predicate Enumerates(s: State, order: seq<int>) {
    Distinct(order) && forall id :: id in order <==> id in s.mapInfo
  }

  lemma {:induction false} OrdersSplit(s: State, order: seq<int>)
    requires Distinct(order)
    ensures var (a, b) := (NewOrder(s, order), TriedOrder(s, order));
            && Distinct(a) && Distinct(b)
            && (forall id :: id in a <==> id in order && s.At(id).refCount != 0)
            && (forall id :: id in b <==> id in order && s.At(id).inTried)
  {
    if |order| > 0 {
      var rest, id := order[..|order| - 1], order[|order| - 1];
      OrdersSplit(s, rest);
      assert order == rest + [id];
      assert id !in rest;
      assert forall x :: x in order <==> x in rest || x == id;
    }
  }

  /** The entries in the order in which they are read back. */
  ghost function Roster(s: State, order: seq<int>): seq<int> {
    NewOrder(s, order) + TriedOrder(s, order)
  }

  /** Referenced means new. */
  ghost predicate RefsMeanNew(s: State) {
    forall id :: id in s.mapInfo ==> (s.mapInfo[id].refCount != 0 <==> !s.mapInfo[id].inTried)
  }

  lemma InvRefsMeanNew(e: Env, s: State)
    requires Inv(e, s)
    ensures RefsMeanNew(s)
  {
    forall id | id in s.mapInfo ensures s.mapInfo[id].refCount != 0 <==> !s.mapInfo[id].inTried {
      EntryImplied(e, s, id);
    }
  }

  lemma OrdersTyped(s: State, order: seq<int>)
    requires RefsMeanNew(s) && Enumerates(s, order)
    ensures var (a, b) := (NewOrder(s, order), TriedOrder(s, order));
            && Distinct(a) && Distinct(b)
            && (forall id :: id in a <==> id in s.mapInfo && !s.mapInfo[id].inTried)
            && (forall id :: id in b <==> id in s.mapInfo && s.mapInfo[id].inTried)
  {
    OrdersSplit(s, order);
  }

  ghost predicate IsRoster(s: State, all: seq<int>) {
    && Distinct(all) && (forall id :: id in all <==> id in s.mapInfo)
    && 0 <= s.nNew && |all| == s.nNew + s.nTried
    && (forall i :: 0 <= i < |all| ==> all[i] in s.mapInfo && (s.mapInfo[all[i]].inTried <==> i >= s.nNew))
  }

  lemma RosterFacts(e: Env, s: State, order: seq<int>)
    requires Inv(e, s) && Enumerates(s, order)
    ensures IsRoster(s, Roster(s, order)) && |NewOrder(s, order)| == s.nNew && |TriedOrder(s, order)| == s.nTried
  {
    InvRefsMeanNew(e, s);
    OrdersTyped(s, order);
    SizesImplied(s);
    RosterSizes(s, order);
  }

  /** A list of distinct elements has the size of their set. */
  lemma {:induction false} SameSize<T>(v: seq<T>, c: set<T>)
    requires Distinct(v) && forall x :: x in v <==> x in c
    ensures |v| == |c|
    decreases |v|
  {
    if |v| == 0 {
      assert c == {};
    } else {
      var n := |v| - 1;
      forall x ensures x in v[..n] <==> x in c - {v[n]} {
        if x in v && x != v[n] {
          var i :| 0 <= i < |v| && v[i] == x;
          assert v[..n][i] == x;
        }
      }
      SameSize(v[..n], c - {v[n]});
      assert v[n] in c;
    }
  }

  lemma RosterSizes(s: State, order: seq<int>)
    requires RefsMeanNew(s) && Enumerates(s, order)
    requires s.nTried == |TriedIds(s.mapInfo)| && s.nNew == |NewIds(s.mapInfo)|
    ensures IsRoster(s, Roster(s, order)) && |NewOrder(s, order)| == s.nNew && |TriedOrder(s, order)| == s.nTried
  {
    var a, b := NewOrder(s, order), TriedOrder(s, order);
    OrdersTyped(s, order);
    assert forall id :: id in a <==> id in NewIds(s.mapInfo);
    assert forall id :: id in b <==> id in TriedIds(s.mapInfo);
    SameSize(a, NewIds(s.mapInfo));
    SameSize(b, TriedIds(s.mapInfo));
    var all := a + b;
    forall i | 0 <= i < |all| ensures all[i] in s.mapInfo && (s.mapInfo[all[i]].inTried <==> i >= s.nNew) {
      if i < |a| { assert a[i] in a; } else { assert b[i - |a|] in b; }
    }
    forall i, j | 0 <= i < j < |all| ensures all[i] != all[j] {
      if i < |a| { assert a[i] in a; }
      if j >= |a| { assert b[j - |a|] in b; }
    }
  }

  // ----- what has been read so far

  /** `b` is `a` read back: memory-only fields start anew, references and the
      place in vRandom are yet to be compared. */
  predicate Twin(a: Info, b: Info) {
    b == a.(lastTry := 0, lastCountAttempt := 0, refCount := b.refCount, randomPos := b.randomPos)
  }

  /** `t` holds the first `n` entries of the roster of `s`, and tables that agree
      with those of `s`. */
  ghost predicate Copied(s: State, t: State, all: seq<int>, n: nat) {
    && n <= |all| && t.key == s.key
    && |t.vRandom| == n && (forall i :: 0 <= i < n ==> t.vRandom[i] == i)
    && t.lastGood == 1
    && (forall i :: i in t.mapInfo <==> 0 <= i < n)
    && (forall i :: 0 <= i < n ==> all[i] in s.mapInfo && Twin(s.mapInfo[all[i]], t.mapInfo[i]))
    && Mirrors(s.vvTried, t.vvTried, all, n)
    && Mirrors(s.vvNew, t.vvNew, all, n)
  }

  ghost predicate Mirrors(table: map<Slot, int>, table': map<Slot, int>, all: seq<int>, n: nat) {
    n <= |all| && forall k :: k in table' ==> k in table && 0 <= table'[k] < n && all[table'[k]] == table[k]
  }

  /** The state being read, with the counters it would have if nothing was left to read. */
  function View(t: State, nNew: int, nTried: int): State {
    t.(nIdCount := nNew + nTried, nNew := nNew, nTried := nTried)
  }

  function AddressOf(r: Record): Address { Address(r.addr, r.services, r.time) }

  lemma AddrsDiffer(s: State, all: seq<int>, i: nat, n: nat)
    requires AddrIndexed(Addrs(s.mapInfo), s.mapAddr) && IsRoster(s, all) && i < n < |all|
    ensures s.mapInfo[all[i]].addr != s.mapInfo[all[n]].addr
  {
    AddressIndexed(s, all[i]);
    AddressIndexed(s, all[n]);
  }

  lemma AddressIndexed(s: State, id: int)
    requires AddrIndexed(Addrs(s.mapInfo), s.mapAddr) && id in s.mapInfo
    ensures s.mapInfo[id].addr in s.mapAddr && s.mapAddr[s.mapInfo[id].addr] == id
  {
    assert id in Addrs(s.mapInfo);
  }

  lemma FreshAddress(s: State, t: State, all: seq<int>, n: nat)
    requires AddrIndexed(Addrs(s.mapInfo), s.mapAddr) && AddrIndexed(Addrs(t.mapInfo), t.mapAddr)
    requires IsRoster(s, all) && Copied(s, t, all, n) && n < |all|
    ensures s.mapInfo[all[n]].addr !in t.mapAddr
  {
    var a := s.mapInfo[all[n]].addr;
    forall i | i in t.mapInfo ensures t.mapInfo[i].addr != a {
      AddrsDiffer(s, all, i, n);
      assert Twin(s.mapInfo[all[i]], t.mapInfo[i]);
    }
    IndexedAddress(t, a);
  }

  lemma IndexedAddress(t: State, a: Service)
    requires AddrIndexed(Addrs(t.mapInfo), t.mapAddr)
    ensures a in t.mapAddr ==> t.mapAddr[a] in t.mapInfo && t.mapInfo[t.mapAddr[a]].addr == a
  {
    assert a in t.mapAddr ==> t.mapAddr[a] in Addrs(t.mapInfo);
  }

  // ----- reading the new entries

  lemma LoadNewIsCreate(e: Env, t: State, n: nat, next: nat, r: Record)
    requires next == n + 1
    ensures var v := View(t, n, 0);
            Create(e, v, AddressOf(r), r.source).With(n, FromRecord(r).(randomPos := |v.vRandom|))
              == View(LoadNewEntry(e, t, n, r), next, 0)
  {
  }

  lemma LoadNewKeepsCore(e: Env, t: State, n: nat, next: nat, r: Record)
    requires Core(e, View(t, n, 0), {}, t.mapInfo.Keys) && IsValidAddr(e, r.addr) && r.addr !in t.mapAddr
    requires r.lastSuccess >= 0 && next == n + 1
    ensures var u := LoadNewEntry(e, t, n, r); Core(e, View(u, next, 0), {}, u.mapInfo.Keys)
  {
    var v, u := View(t, n, 0), LoadNewEntry(e, t, n, r);
    var pending := t.mapInfo.Keys + {n};
    var c := Create(e, v, AddressOf(r), r.source);
    var info := FromRecord(r).(randomPos := |v.vRandom|);
    assert Core(e, c.With(n, info), {}, pending) by {
      assert v.nIdCount == n;
      CreateKeepsCore(e, v, AddressOf(r), r.source, t.mapInfo.Keys);
      TouchKeepsCore(e, c, n, info, {}, pending);
    }
    LoadNewIsCreate(e, t, n, next, r);
    LoadNewKeys(e, t, n, r);
  }

  lemma LoadNewKeys(e: Env, t: State, n: nat, r: Record)
    ensures LoadNewEntry(e, t, n, r).mapInfo.Keys == t.mapInfo.Keys + {n}
  {
  }

  lemma LoadNewCopies(e: Env, s: State, t: State, all: seq<int>, n: nat)
    requires IsRoster(s, all) && Copied(s, t, all, n) && n < |all| && n < s.nNew
    ensures Copied(s, LoadNewEntry(e, t, n, RecordOf(s.mapInfo[all[n]])), all, n + 1)
  {
    var u := LoadNewEntry(e, t, n, RecordOf(s.mapInfo[all[n]]));
    forall i | 0 <= i < n + 1 ensures all[i] in s.mapInfo && Twin(s.mapInfo[all[i]], u.mapInfo[i]) {
      assert i < n ==> Twin(s.mapInfo[all[i]], t.mapInfo[i]);
    }
  }

  ghost predicate ReadingNew(e: Env, s: State, t: State, all: seq<int>, n: nat) {
    && Copied(s, t, all, n)
    && Core(e, View(t, n, 0), {}, t.mapInfo.Keys)
    && t.nNew == s.nNew && t.nTried == s.nTried && t.vvNew == map[] && t.vvTried == map[]
    && t.collisions == {}
  }

  lemma SourceRecord(e: Env, s: State, id: int)
    requires EntriesSane(e, s.mapInfo) && id in s.mapInfo
    ensures IsValidAddr(e, s.mapInfo[id].addr) && s.mapInfo[id].lastSuccess >= 0
    ensures s.mapInfo[id].inTried ==> s.mapInfo[id].lastSuccess > 0
  {
  }

  lemma ReadingNewNext(e: Env, s: State, t: State, all: seq<int>, n: nat, next: nat)
    requires Inv(e, s) && IsRoster(s, all) && ReadingNew(e, s, t, all, n) && n < |all| && n < s.nNew && next == n + 1
    ensures ReadingNew(e, s, LoadNewEntry(e, t, n, RecordOf(s.mapInfo[all[n]])), all, next)
  {
    SourceRecord(e, s, all[n]);
    FreshAddress(s, View(t, n, 0), all, n);
    LoadNewKeepsCore(e, t, n, next, RecordOf(s.mapInfo[all[n]]));
    LoadNewCopies(e, s, t, all, n);
  }

  lemma LoadNewUnfold(e: Env, s: State, t: State, ids: seq<int>, n: nat, next: nat, rest: seq<Token>)
    requires n < |ids| && next == n + 1
    ensures LoadNew(e, t, EntryTokens(s, ids)[n..] + rest, n, |ids|) ==
            LoadNew(e, LoadNewEntry(e, t, n, RecordOf(s.At(ids[n]))), EntryTokens(s, ids)[next..] + rest, next, |ids|)
  {
    var toks := EntryTokens(s, ids)[n..] + rest;
    assert toks[0] == Entry(RecordOf(s.At(ids[n])));
    assert toks[1..] == EntryTokens(s, ids)[next..] + rest;
  }

  lemma LoadNewEnds(e: Env, s: State, t: State, ids: seq<int>, rest: seq<Token>)
    ensures LoadNew(e, t, EntryTokens(s, ids)[|ids|..] + rest, |ids|, |ids|) == Some((t, rest))
  {
    assert EntryTokens(s, ids)[|ids|..] + rest == rest;
  }

  /** Reading the new entries back. */
  lemma {:induction false} LoadNewReads(e: Env, s: State, t: State, all: seq<int>, ids: seq<int>, n: nat,
                          rest: seq<Token>)
    returns (u: State)
    requires Inv(e, s) && IsRoster(s, all) && ReadingNew(e, s, t, all, n) && n <= |ids|
    requires |ids| == s.nNew && ids == all[..s.nNew]
    ensures LoadNew(e, t, EntryTokens(s, ids)[n..] + rest, n, |ids|) == Some((u, rest))
    ensures ReadingNew(e, s, u, all, |ids|)
    decreases |ids| - n
  {
    if n == |ids| {
      LoadNewEnds(e, s, t, ids, rest);
      u := t;
    } else {
      var next := n + 1;
      LoadNewUnfold(e, s, t, ids, n, next, rest);
      ReadingNewNext(e, s, t, all, n, next);
      u := LoadNewReads(e, s, LoadNewEntry(e, t, n, RecordOf(s.mapInfo[all[n]])), all, ids, next, rest);
    }
  }

  // ----- reading the tried entries

  ghost predicate ReadingTried(e: Env, s: State, t: State, all: seq<int>, n: nat) {
    && Copied(s, t, all, n) && 0 <= s.nNew <= n == t.nIdCount
    && Core(e, View(t, s.nNew, n - s.nNew), {}, t.mapInfo.Keys)
    && t.nNew == s.nNew && t.nTried == s.nTried && t.vvNew == map[]
    && t.collisions == {}
  }

  /** A tried entry as if it were created, uncounted and moved to its slot. */
  function CreateTried(e: Env, v: State, r: Record): State {
    var c := Create(e, v, AddressOf(r), r.source);
    var d := c.With(v.nIdCount, FromRecord(r).(randomPos := |v.vRandom|));
    OccupyTried(e, Uncount(e, d, v.nIdCount), TriedSlot(e, v.key, r.addr), v.nIdCount)
  }

  lemma BumpTwice(counts: map<Network, Counts>, net: Network)
    ensures Bump(Bump(Bump(counts, net, 1, 0), net, -1, 0), net, 0, 1) == Bump(counts, net, 0, 1)
  {
  }

  lemma LoadTriedIsCreate(e: Env, t: State, nNew: nat, m: nat, m': nat, r: Record)
    requires t.nIdCount == nNew + m && m' == m + 1
    ensures CreateTried(e, View(t, nNew, m), r) == View(LoadTriedEntry(e, t, r), nNew, m')
  {
    BumpTwice(t.counts, NetOf(e, r.addr));
  }

  lemma CreateTriedKeepsCore(e: Env, v: State, r: Record, pending: set<int>)
    requires Core(e, v, {}, pending) && IsValidAddr(e, r.addr) && r.addr !in v.mapAddr && r.lastSuccess > 0
    requires TriedSlot(e, v.key, r.addr) !in v.vvTried
    ensures Core(e, CreateTried(e, v, r), {}, pending + {v.nIdCount})
  {
    var id := v.nIdCount;
    var c := Create(e, v, AddressOf(r), r.source);
    var info := FromRecord(r).(randomPos := |v.vRandom|);
    var d := c.With(id, info);
    assert Core(e, d, {}, pending + {id}) && id in d.mapInfo && d.mapInfo[id] == info by {
      CreateKeepsCore(e, v, AddressOf(r), r.source, pending);
      TouchKeepsCore(e, c, id, info, {}, pending + {id});
    }
    UncountKeepsCore(e, d, id, {}, pending + {id});
    OccupyKeepsCore(e, Uncount(e, d, id), TriedSlot(e, v.key, r.addr), id, {} + {id}, pending + {id} - {id});
    assert {} + {id} - {id} == {};
    PendingMore(e, CreateTried(e, v, r), {}, pending + {id} - {id}, pending + {id});
  }

  lemma LoadTriedKeepsCore(e: Env, t: State, nNew: nat, m: nat, m': nat, r: Record)
    requires t.nIdCount == nNew + m && m' == m + 1
    requires Core(e, View(t, nNew, m), {}, t.mapInfo.Keys) && TriedFits(e, t, r) && r.addr !in t.mapAddr
    requires r.lastSuccess > 0
    ensures var u := LoadTriedEntry(e, t, r); Core(e, View(u, nNew, m'), {}, u.mapInfo.Keys)
  {
    var id := View(t, nNew, m).nIdCount;
    CreateTriedKeepsCore(e, View(t, nNew, m), r, t.mapInfo.Keys);
    LoadTriedIsCreate(e, t, nNew, m, m', r);
    LoadTriedKeys(e, t, r, id);
  }

  lemma LoadTriedKeys(e: Env, t: State, r: Record, id: int)
    requires id == t.nIdCount
    ensures LoadTriedEntry(e, t, r).mapInfo.Keys == t.mapInfo.Keys + {id}
  {
  }

  lemma LoadTriedCopies(e: Env, s: State, t: State, all: seq<int>, n: nat)
    requires IsRoster(s, all) && Copied(s, t, all, n) && s.nNew <= n < |all| && t.nIdCount == n
    requires TriedIndexed(e, s.key, Addrs(s.mapInfo), TriedIds(s.mapInfo), s.vvTried)
    ensures Copied(s, LoadTriedEntry(e, t, RecordOf(s.mapInfo[all[n]])), all, n + 1)
  {
    var r := RecordOf(s.mapInfo[all[n]]);
    var u := LoadTriedEntry(e, t, r);
    forall i | 0 <= i < n + 1 ensures all[i] in s.mapInfo && Twin(s.mapInfo[all[i]], u.mapInfo[i]) {
      assert i < n ==> Twin(s.mapInfo[all[i]], t.mapInfo[i]);
    }
    TriedSlotOf(e, s, all[n]);
  }

  lemma TriedSlotOf(e: Env, s: State, id: int)
    requires TriedIndexed(e, s.key, Addrs(s.mapInfo), TriedIds(s.mapInfo), s.vvTried)
    requires id in s.mapInfo && s.mapInfo[id].inTried
    ensures var k := TriedSlot(e, s.key, s.mapInfo[id].addr); k in s.vvTried && s.vvTried[k] == id
  {
    assert id in TriedIds(s.mapInfo) && id in Addrs(s.mapInfo);
  }

  /** The tried slot of an entry still to be read is vacant. */
  lemma StillVacant(e: Env, s: State, t: State, all: seq<int>, n: nat)
    requires IsRoster(s, all) && Copied(s, t, all, n) && s.nNew <= n < |all|
    requires TriedIndexed(e, s.key, Addrs(s.mapInfo), TriedIds(s.mapInfo), s.vvTried)
    ensures TriedSlot(e, t.key, s.mapInfo[all[n]].addr) !in t.vvTried
  {
    TriedSlotOf(e, s, all[n]);
  }

  lemma ReadingTriedNext(e: Env, s: State, t: State, all: seq<int>, n: nat, next: nat)
    requires Inv(e, s) && IsRoster(s, all) && ReadingTried(e, s, t, all, n) && n < |all| && next == n + 1
    ensures TriedFits(e, t, RecordOf(s.mapInfo[all[n]]))
    ensures ReadingTried(e, s, LoadTriedEntry(e, t, RecordOf(s.mapInfo[all[n]])), all, next)
  {
    var r := RecordOf(s.mapInfo[all[n]]);
    SourceRecord(e, s, all[n]);
    StillVacant(e, s, t, all, n);
    FreshAddress(s, View(t, s.nNew, n - s.nNew), all, n);
    LoadTriedKeepsCore(e, t, s.nNew, n - s.nNew, next - s.nNew, r);
    LoadTriedCopies(e, s, t, all, n);
  }

  lemma LoadTriedUnfold(e: Env, s: State, t: State, ids: seq<int>, n: nat, next: nat, rest: seq<Token>)
    requires n < |ids| && next == n + 1 && TriedFits(e, t, RecordOf(s.At(ids[n])))
    ensures LoadTried(e, t, EntryTokens(s, ids)[n..] + rest, n, |ids|) ==
            LoadTried(e, LoadTriedEntry(e, t, RecordOf(s.At(ids[n]))), EntryTokens(s, ids)[next..] + rest, next, |ids|)
  {
    var toks := EntryTokens(s, ids)[n..] + rest;
    assert toks[0] == Entry(RecordOf(s.At(ids[n])));
    assert toks[1..] == EntryTokens(s, ids)[next..] + rest;
  }

  lemma LoadTriedEnds(e: Env, s: State, t: State, ids: seq<int>, rest: seq<Token>)
    ensures LoadTried(e, t, EntryTokens(s, ids)[|ids|..] + rest, |ids|, |ids|) == Some((t, rest))
  {
    assert EntryTokens(s, ids)[|ids|..] + rest == rest;
  }

  /** Reading the tried entries back: every one of them finds its slot vacant. */
  lemma {:induction false} LoadTriedReads(e: Env, s: State, t: State, all: seq<int>, ids: seq<int>, i: nat, n: nat,
                                          rest: seq<Token>) returns (u: State)
    requires Inv(e, s) && IsRoster(s, all) && n == s.nNew + i && ReadingTried(e, s, t, all, n) && i <= |ids|
    requires |ids| == s.nTried && ids == all[s.nNew..]
    ensures LoadTried(e, t, EntryTokens(s, ids)[i..] + rest, i, |ids|) == Some((u, rest))
    ensures ReadingTried(e, s, u, all, |all|)
    decreases |ids| - i
  {
    if i == |ids| {
      LoadTriedEnds(e, s, t, ids, rest);
      u := t;
    } else {
      var next, nextI := n + 1, i + 1;
      assert ids[i] == all[n];
      ReadingTriedNext(e, s, t, all, n, next);
      LoadTriedUnfold(e, s, t, ids, i, nextI, rest);
      u := LoadTriedReads(e, s, LoadTriedEntry(e, t, RecordOf(s.mapInfo[all[n]])), all, ids, nextI, next, rest);
    }
  }

  // ----- reading the buckets

  ghost function AllSlots(table: map<Slot, int>, bucket: nat): seq<Slot>
    decreases NEW_BUCKET_COUNT - bucket, |table|
  {
    if bucket >= NEW_BUCKET_COUNT then [] else RowSlots(table, bucket, 0) + AllSlots(table, bucket + 1)
  }

  lemma {:induction false} RowSlotsFacts(table: map<Slot, int>, bucket: nat, i: nat)
    ensures var v := RowSlots(table, bucket, i);
            && Distinct(v)
            && (forall k :: k in v <==> k in table && k.bucket == bucket && i <= k.pos < BUCKET_SIZE)
    decreases BUCKET_SIZE - i, bucket
  {
    if i < BUCKET_SIZE {
      RowSlotsFacts(table, bucket, i + 1);
      var v, w, k := RowSlots(table, bucket, i), RowSlots(table, bucket, i + 1), Slot(bucket, i);
      assert v == (if k in table then [k] else []) + w;
      assert k !in w;
      forall j | j in table && j.bucket == bucket && i <= j.pos < BUCKET_SIZE ensures j in v {
        assert j.pos == i ==> j == k;
      }
    }
  }

  lemma DistinctConcat(a: seq<Slot>, b: seq<Slot>)
    requires Distinct(a) && Distinct(b) && forall k :: k in a ==> k !in b
    ensures Distinct(a + b) && forall k :: k in a + b <==> k in a || k in b
  {
    forall i, j | 0 <= i < j < |a + b| ensures (a + b)[i] != (a + b)[j] {
      if i < |a| <= j { assert a[i] in a && b[j - |a|] in b; }
    }
  }

  lemma {:induction false} AllSlotsFacts(table: map<Slot, int>, bucket: nat)
    ensures var v := AllSlots(table, bucket);
            && Distinct(v)
            && (forall k :: k in v <==> k in table && bucket <= k.bucket < NEW_BUCKET_COUNT && k.pos < BUCKET_SIZE)
    decreases NEW_BUCKET_COUNT - bucket, |table|
  {
    if bucket < NEW_BUCKET_COUNT {
      RowSlotsFacts(table, bucket, 0);
      AllSlotsFacts(table, bucket + 1);
      DistinctConcat(RowSlots(table, bucket, 0), AllSlots(table, bucket + 1));
    }
  }

  /** The pairs that Unserialize gathers for the given slots. */
  ghost function PairsOf(table: map<Slot, int>, ids: seq<int>, slots: seq<Slot>): seq<(nat, nat)> {
    seq(|slots|, i requires 0 <= i < |slots| =>
      (slots[i].bucket, if slots[i] in table then IndexIn(ids, table[slots[i]]) else 0))
  }

  ghost predicate Named(table: map<Slot, int>, ids: seq<int>) {
    forall k :: k in table ==> table[k] in ids
  }

  lemma {:induction false} RowReads(table: map<Slot, int>, ids: seq<int>, slots: seq<Slot>, bucket: nat, i: nat,
                                    rest: seq<Token>, acc: seq<(nat, nat)>)
    requires Named(table, ids) && i <= |slots|
    requires forall j :: 0 <= j < |slots| ==> slots[j] in table && slots[j].bucket == bucket
    ensures ReadRow(IndexTokens(table, ids, slots)[i..] + rest, bucket, i, |slots|, |ids|, acc) ==
            Some((acc + PairsOf(table, ids, slots)[i..], rest))
    decreases |slots| - i
  {
    var toks := IndexTokens(table, ids, slots)[i..] + rest;
    if i == |slots| {
      assert toks == rest;
      assert acc + PairsOf(table, ids, slots)[i..] == acc;
    } else {
      var pair := PairsOf(table, ids, slots)[i];
      assert slots[i] in table && slots[i].bucket == bucket;
      assert toks[0] == Num(pair.1) && pair == (bucket, IndexIn(ids, table[slots[i]]));
      assert toks[1..] == IndexTokens(table, ids, slots)[i + 1..] + rest;
      RowReads(table, ids, slots, bucket, i + 1, rest, acc + [pair]);
      assert acc + [pair] + PairsOf(table, ids, slots)[i + 1..] == acc + PairsOf(table, ids, slots)[i..];
    }
  }

  lemma PairsConcat(table: map<Slot, int>, ids: seq<int>, a: seq<Slot>, b: seq<Slot>)
    ensures PairsOf(table, ids, a + b) == PairsOf(table, ids, a) + PairsOf(table, ids, b)
  {
  }

  lemma ReadBucketsUnfold(toks: seq<Token>, bucket: nat, next: nat, count: int, nNew: int, acc: seq<(nat, nat)>,
                          size: int, acc': seq<(nat, nat)>, later: seq<Token>)
    requires bucket < count && next == bucket + 1 && |toks| > 0 && toks[0] == Num(size)
    requires ReadRow(toks[1..], bucket, 0, size, nNew, acc) == Some((acc', later))
    ensures ReadBuckets(toks, bucket, count, nNew, acc) == ReadBuckets(later, next, count, nNew, acc')
  {
  }

  lemma RowTokensSplit(table: map<Slot, int>, ids: seq<int>, bucket: nat, next: nat, rest: seq<Token>)
    requires bucket < NEW_BUCKET_COUNT && next == bucket + 1
    ensures var toks, slots := BucketTokens(table, ids, bucket) + rest, RowSlots(table, bucket, 0);
            && |toks| > 0 && toks[0] == Num(|slots|)
            && toks[1..] == IndexTokens(table, ids, slots)[0..] + (BucketTokens(table, ids, next) + rest)
  {
    var slots := RowSlots(table, bucket, 0);
    var x, a, b := Num(|slots|), IndexTokens(table, ids, slots), BucketTokens(table, ids, next);
    assert BucketTokens(table, ids, bucket) == [x] + a + b;
    Behead(x, a, b, rest);
  }

  lemma Behead<T>(x: T, a: seq<T>, b: seq<T>, rest: seq<T>)
    ensures var all := [x] + a + b + rest; |all| > 0 && all[0] == x && all[1..] == a[0..] + (b + rest)
  {
  }

  lemma {:induction false} BucketsRead(table: map<Slot, int>, ids: seq<int>, bucket: nat, rest: seq<Token>,
                          acc: seq<(nat, nat)>)
    requires Named(table, ids)
    ensures ReadBuckets(BucketTokens(table, ids, bucket) + rest, bucket, NEW_BUCKET_COUNT, |ids|, acc) ==
            Some((acc + PairsOf(table, ids, AllSlots(table, bucket)), rest))
    decreases NEW_BUCKET_COUNT - bucket, |table|
  {
    if bucket >= NEW_BUCKET_COUNT {
      assert BucketTokens(table, ids, bucket) + rest == rest;
      assert acc + PairsOf(table, ids, []) == acc;
    } else {
      var next := bucket + 1;
      var slots, more := RowSlots(table, bucket, 0), AllSlots(table, next);
      var acc' := acc + PairsOf(table, ids, slots);
      var later := BucketTokens(table, ids, next) + rest;
      RowTokensSplit(table, ids, bucket, next, rest);
      assert ReadRow(IndexTokens(table, ids, slots)[0..] + later, bucket, 0, |slots|, |ids|, acc) ==
             Some((acc', later)) by {
        RowSlotsFacts(table, bucket, 0);
        forall j | 0 <= j < |slots| ensures slots[j] in table && slots[j].bucket == bucket { assert slots[j] in slots; }
        RowReads(table, ids, slots, bucket, 0, later, acc);
        assert PairsOf(table, ids, slots)[0..] == PairsOf(table, ids, slots);
      }
      ReadBucketsUnfold(BucketTokens(table, ids, bucket) + rest, bucket, next, NEW_BUCKET_COUNT, |ids|, acc, |slots|,
          acc', later);
      BucketsRead(table, ids, next, rest, acc');
      PairsConcat(table, ids, slots, more);
      assert acc' + PairsOf(table, ids, more) == acc + PairsOf(table, ids, slots + more);
    }
  }

  // ----- giving the references back

  ghost predicate Restoring(e: Env, s: State, t: State, all: seq<int>, slots: seq<Slot>) {
    && Copied(s, t, all, |all|) && t.nIdCount == |all|
    && Core(e, t, {}, t.mapInfo.Keys)
    && t.nNew == s.nNew && t.nTried == s.nTried && t.collisions == {}
    && (forall k :: k in t.vvNew <==> k in slots)
  }

  /** A slot of the new table of `s`, named by the number its entry gets. */
  lemma SlotNumber(e: Env, s: State, all: seq<int>, ids: seq<int>, k: Slot)
    requires Inv(e, s) && IsRoster(s, all) && ids == all[..s.nNew] && k in s.vvNew
    ensures var i := IndexIn(ids, s.vvNew[k]);
            && i < s.nNew && all[i] == s.vvNew[k] && s.vvNew[k] in s.mapInfo
            && k == NewSlotIn(e, s.key, s.mapInfo[all[i]].addr, k.bucket) && k.bucket < NEW_BUCKET_COUNT
  {
    RefTarget(e, s, k, {}, {});
    var id := s.vvNew[k];
    assert id in all;
    var j :| 0 <= j < |all| && all[j] == id;
    assert ids[j] == id;
  }

  lemma FewerRefs(s: State, t: State, all: seq<int>, i: nat, k: Slot)
    requires i < |all| && Distinct(all) && Mirrors(s.vvNew, t.vvNew, all, |all|)
    requires k in s.vvNew && s.vvNew[k] == all[i] && k !in t.vvNew
    ensures |Refs(t.vvNew, i)| < |Refs(s.vvNew, all[i])|
  {
    assert Refs(t.vvNew, i) + {k} <= Refs(s.vvNew, all[i]);
    CardLess(Refs(t.vvNew, i), Refs(s.vvNew, all[i]), k);
  }

  lemma RestoreNext(e: Env, s: State, t: State, u: State, all: seq<int>, ids: seq<int>, slots: seq<Slot>, k: Slot,
                    more: seq<Slot>)
    requires Inv(e, s) && IsRoster(s, all) && ids == all[..s.nNew]
    requires Restoring(e, s, t, all, slots) && k in s.vvNew && k !in slots && more == slots + [k]
    requires u == RestoreRef(e, t, true, k.bucket, IndexIn(ids, s.vvNew[k]))
    ensures Restoring(e, s, u, all, more)
  {
    var i := IndexIn(ids, s.vvNew[k]);
    SlotNumber(e, s, all, ids, k);
    assert Twin(s.mapInfo[all[i]], t.mapInfo[i]);
    SourceRecord(e, s, all[i]);
    RefCountOf(e, s, all[i], {}, {});
    RefCountOf(e, t, i, {}, t.mapInfo.Keys);
    FewerRefs(s, t, all, i, k);
    AddRefKeepsCore(e, t, k, i, {}, t.mapInfo.Keys);
    RestoreCopies(s, t, all, slots, k, i);
    PendingMore(e, AddRef(t, k, i), {}, t.mapInfo.Keys - {i}, AddRef(t, k, i).mapInfo.Keys);
  }

  lemma RestoreCopies(s: State, t: State, all: seq<int>, slots: seq<Slot>, k: Slot, i: nat)
    requires Copied(s, t, all, |all|) && i < |all| && k in s.vvNew && s.vvNew[k] == all[i]
    requires forall j :: j in t.vvNew <==> j in slots
    ensures var u := AddRef(t, k, i);
            && Copied(s, u, all, |all|) && u.mapInfo.Keys == t.mapInfo.Keys
            && (forall j :: j in u.vvNew <==> j in slots + [k])
  {
    var u := AddRef(t, k, i);
    forall j | 0 <= j < |all| ensures all[j] in s.mapInfo && Twin(s.mapInfo[all[j]], u.mapInfo[j]) {
      assert Twin(s.mapInfo[all[j]], t.mapInfo[j]);
    }
  }

  lemma DistinctLast(slots: seq<Slot>, some: seq<Slot>, k: Slot)
    requires Distinct(slots) && |slots| > 0 && some == slots[..|slots| - 1] && k == slots[|slots| - 1]
    ensures slots == some + [k] && Distinct(some) && k !in some
    ensures k in slots && forall j :: j in some ==> j in slots
  {
  }

  lemma PairsLast(table: map<Slot, int>, ids: seq<int>, slots: seq<Slot>, n: nat)
    requires |slots| == n + 1 && slots[n] in table
    ensures PairsOf(table, ids, slots)[..n] == PairsOf(table, ids, slots[..n])
    ensures PairsOf(table, ids, slots)[n] == (slots[n].bucket, IndexIn(ids, table[slots[n]]))
  {
  }

  lemma RestoreRefsLast(e: Env, t: State, v: State, table: map<Slot, int>, ids: seq<int>, slots: seq<Slot>, n: nat)
    returns (u: State)
    requires |slots| == n + 1 && slots[n] in table && v == RestoreRefs(e, t, true, PairsOf(table, ids, slots[..n]))
    ensures u == RestoreRef(e, v, true, slots[n].bucket, IndexIn(ids, table[slots[n]]))
    ensures u == RestoreRefs(e, t, true, PairsOf(table, ids, slots))
  {
    PairsLast(table, ids, slots, n);
    u := RestoreRef(e, v, true, slots[n].bucket, IndexIn(ids, table[slots[n]]));
  }

  lemma {:induction false} RestoreAll(e: Env, s: State, t: State, all: seq<int>, ids: seq<int>, slots: seq<Slot>)
    returns (u: State)
    requires Inv(e, s) && IsRoster(s, all) && ids == all[..s.nNew]
    requires Restoring(e, s, t, all, []) && Distinct(slots) && forall k :: k in slots ==> k in s.vvNew
    ensures u == RestoreRefs(e, t, true, PairsOf(s.vvNew, ids, slots))
    ensures Restoring(e, s, u, all, slots)
    decreases |slots|
  {
    if |slots| == 0 {
      assert slots == [];
      u := t;
    } else {
      var n := |slots| - 1;
      var some, k := slots[..n], slots[n];
      DistinctLast(slots, some, k);
      var v := RestoreAll(e, s, t, all, ids, some);
      u := RestoreRefsLast(e, t, v, s.vvNew, ids, slots, n);
      RestoreNext(e, s, v, u, all, ids, some, k, slots);
    }
  }

  // ----- the result

  /** `t` is `s` with entry `all[i]` renumbered to `i`: the same entries in the
      same slots with the same references, and the same counters. Only fields
      that are kept in memory alone start anew. */
  ghost predicate Renumbered(s: State, t: State, all: seq<int>) {
    && IsRoster(s, all)
    && t.key == s.key && t.nNew == s.nNew && t.nTried == s.nTried && t.nIdCount == |all|
    && (forall i :: i in t.mapInfo <==> 0 <= i < |all|)
    && (forall i :: 0 <= i < |all| ==>
          t.mapInfo[i] == s.mapInfo[all[i]].(lastTry := 0, lastCountAttempt := 0, randomPos := i))
    && SameTable(s.vvTried, t.vvTried, all) && SameTable(s.vvNew, t.vvNew, all)
    && (forall net :: CountOf(t.counts, net) == CountOf(s.counts, net))
    && t.collisions == {} && t.lastGood == 1
  }

  ghost predicate SameTable(table: map<Slot, int>, table': map<Slot, int>, all: seq<int>) {
    table'.Keys == table.Keys && forall k :: k in table' ==> 0 <= table'[k] < |all| && all[table'[k]] == table[k]
  }

  lemma SameTried(e: Env, s: State, t: State, all: seq<int>)
    requires TriedIndexed(e, s.key, Addrs(s.mapInfo), TriedIds(s.mapInfo), s.vvTried)
    requires TriedIndexed(e, t.key, Addrs(t.mapInfo), TriedIds(t.mapInfo), t.vvTried)
    requires IsRoster(s, all) && Copied(s, t, all, |all|)
    ensures SameTable(s.vvTried, t.vvTried, all)
  {
    forall k | k in s.vvTried ensures k in t.vvTried {
      var id := s.vvTried[k];
      assert id in TriedIds(s.mapInfo) && id in all;
      var i :| 0 <= i < |all| && all[i] == id;
      assert Twin(s.mapInfo[all[i]], t.mapInfo[i]);
      TriedSlotOf(e, t, i);
    }
  }

  lemma SameNew(s: State, t: State, all: seq<int>, slots: seq<Slot>)
    requires Mirrors(s.vvNew, t.vvNew, all, |all|)
    requires forall k :: k in t.vvNew <==> k in slots
    requires forall k :: k in slots <==> k in s.vvNew
    ensures SameTable(s.vvNew, t.vvNew, all)
  {
  }

  lemma SameRefs(s: State, t: State, all: seq<int>, i: nat)
    requires Distinct(all) && i < |all| && SameTable(s.vvNew, t.vvNew, all)
    ensures Refs(t.vvNew, i) == Refs(s.vvNew, all[i])
  {
  }

  lemma SameEntry(e: Env, s: State, t: State, all: seq<int>, i: nat)
    requires Inv(e, s) && Core(e, t, {}, t.mapInfo.Keys) && IsRoster(s, all) && Copied(s, t, all, |all|)
    requires SameTable(s.vvNew, t.vvNew, all) && i < |all|
    ensures t.mapInfo[i] == s.mapInfo[all[i]].(lastTry := 0, lastCountAttempt := 0, randomPos := i)
  {
    assert Twin(s.mapInfo[all[i]], t.mapInfo[i]);
    SameRefs(s, t, all, i);
    RefCountOf(e, s, all[i], {}, {});
    RefCountOf(e, t, i, {}, t.mapInfo.Keys);
    PlaceOf(t, i);
  }

  lemma SameCounts(e: Env, s: State, t: State, all: seq<int>, net: Network)
    requires IsRoster(s, all) && (forall i :: i in t.mapInfo <==> 0 <= i < |all|)
    requires forall i :: 0 <= i < |all| ==> Twin(s.mapInfo[all[i]], t.mapInfo[i])
    ensures Tally(e, s.mapInfo, net) == Tally(e, t.mapInfo, net)
  {
    SameTally(e, s, t, all, net, false);
    SameTally(e, s, t, all, net, true);
  }

  lemma RosterCard(a: set<int>, all: seq<int>)
    requires Distinct(all) && forall i :: i in a ==> 0 <= i < |all|
    ensures |set i | i in a :: all[i]| == |a|
  {
    var m := map i: int | 0 <= i < |all| :: all[i];
    assert Injective(m) by { assert forall i, j :: i in m && j in m && i != j ==> all[i] != all[j]; }
    ImageCard(a, m, set i | i in a :: all[i]);
  }

  lemma TwinInNet(e: Env, s: State, t: State, all: seq<int>, net: Network, inTried: bool, i: nat)
    requires IsRoster(s, all) && i < |all| && i in t.mapInfo && Twin(s.mapInfo[all[i]], t.mapInfo[i])
    ensures i in OfNet(e, t.mapInfo, net, inTried) <==> all[i] in OfNet(e, s.mapInfo, net, inTried)
  {
  }

  lemma SameTally(e: Env, s: State, t: State, all: seq<int>, net: Network, inTried: bool)
    requires IsRoster(s, all) && (forall i :: i in t.mapInfo <==> 0 <= i < |all|)
    requires forall i :: 0 <= i < |all| ==> Twin(s.mapInfo[all[i]], t.mapInfo[i])
    ensures |OfNet(e, s.mapInfo, net, inTried)| == |OfNet(e, t.mapInfo, net, inTried)|
  {
    var a, b := OfNet(e, t.mapInfo, net, inTried), OfNet(e, s.mapInfo, net, inTried);
    forall i | 0 <= i < |all| ensures i in a <==> all[i] in b { TwinInNet(e, s, t, all, net, inTried, i); }
    assert forall id :: id in b ==> id in all;
    SameUnder(a, b, all);
  }

  lemma SameUnder(a: set<int>, b: set<int>, all: seq<int>)
    requires Distinct(all) && (forall i :: i in a ==> 0 <= i < |all|) && (forall id :: id in b ==> id in all)
    requires forall i :: 0 <= i < |all| ==> (i in a <==> all[i] in b)
    ensures |a| == |b|
  {
    RosterCard(a, all);
    var image := set i | i in a :: all[i];
    forall id | id in b ensures id in image {
      var i :| 0 <= i < |all| && all[i] == id;
      assert i in a;
    }
    assert b == image;
  }

  lemma CountsAreTallies(e: Env, s: State, pending: set<int>, net: Network)
    requires Core(e, s, {}, pending)
    ensures CountOf(s.counts, net) == Tally(e, s.mapInfo, net)
  {
    TallyExact(e, s.mapInfo, net);
  }

  lemma SameEntries(e: Env, s: State, t: State, all: seq<int>)
    requires Inv(e, s) && Core(e, t, {}, t.mapInfo.Keys) && IsRoster(s, all) && Copied(s, t, all, |all|)
    requires SameTable(s.vvNew, t.vvNew, all)
    ensures forall i :: 0 <= i < |all| ==>
              t.mapInfo[i] == s.mapInfo[all[i]].(lastTry := 0, lastCountAttempt := 0, randomPos := i)
  {
    forall i | 0 <= i < |all|
      ensures t.mapInfo[i] == s.mapInfo[all[i]].(lastTry := 0, lastCountAttempt := 0, randomPos := i)
    {
      SameEntry(e, s, t, all, i);
    }
  }

  lemma SameCounters(e: Env, s: State, t: State, all: seq<int>)
    requires Inv(e, s) && Core(e, t, {}, t.mapInfo.Keys) && IsRoster(s, all) && Copied(s, t, all, |all|)
    ensures forall net :: CountOf(t.counts, net) == CountOf(s.counts, net)
  {
    forall net ensures CountOf(t.counts, net) == CountOf(s.counts, net) {
      CountsAreTallies(e, s, {}, net);
      CountsAreTallies(e, t, t.mapInfo.Keys, net);
      SameCounts(e, s, t, all, net);
    }
  }

  lemma RestoredIsRenumbered(e: Env, s: State, t: State, all: seq<int>, slots: seq<Slot>)
    requires Inv(e, s) && IsRoster(s, all) && Restoring(e, s, t, all, slots)
    requires forall k :: k in slots <==> k in s.vvNew
    ensures Renumbered(s, t, all)
  {
    assert SameTable(s.vvTried, t.vvTried, all) by { SameTried(e, s, t, all); }
    SameNew(s, t, all, slots);
    SameEntries(e, s, t, all);
    SameCounters(e, s, t, all);
  }

  /** Every entry that was new has its references again. */
  lemma NoneIsPending(e: Env, s: State, t: State, all: seq<int>)
    requires Inv(e, s) && Renumbered(s, t, all) && Core(e, t, {}, t.mapInfo.Keys)
    ensures Inv(e, t)
  {
    forall i | i in t.mapInfo && !t.mapInfo[i].inTried ensures t.mapInfo[i].refCount >= 1 {
      EntryImplied(e, s, all[i]);
    }
    NonePendingCore(e, t);
  }

  lemma NonePendingCore(e: Env, t: State)
    requires Core(e, t, {}, t.mapInfo.Keys)
    requires forall i :: i in t.mapInfo && !t.mapInfo[i].inTried ==> t.mapInfo[i].refCount >= 1
    ensures Core(e, t, {}, {})
  {
    forall i | i in RefCounts(t.mapInfo) && i !in TriedIds(t.mapInfo) ensures RefCounts(t.mapInfo)[i] >= 1 {
      assert i in t.mapInfo;
    }
  }

  lemma {:induction false} PruneNone(e: Env, t: State, order: seq<int>)
    requires forall i :: i in t.mapInfo && !t.mapInfo[i].inTried ==> t.mapInfo[i].refCount >= 1
    ensures Prune(e, t, order) == t
    decreases |order|
  {
    if |order| > 0 { PruneNone(e, t, order[1..]); }
  }

  // ----- the sizes of the tables

  lemma {:induction false} SlotsBound(keys: set<Slot>, n: nat)
    requires forall k :: k in keys ==> k.pos < BUCKET_SIZE && k.bucket * BUCKET_SIZE + k.pos < n
    ensures |keys| <= n
  {
    if n == 0 {
      assert keys == {} by { forall k | k in keys ensures false { } }
    } else {
      var last := Slot((n - 1) / BUCKET_SIZE, (n - 1) % BUCKET_SIZE);
      SlotsBound(keys - {last}, n - 1);
      assert keys <= keys - {last} + {last};
      CardMost(keys, keys - {last}, last);
    }
  }

  lemma CardMost(b: set<Slot>, a: set<Slot>, k: Slot)
    requires a == b - {k}
    ensures |b| <= |a| + 1
  {
    if k in b { assert b == a + {k}; } else { assert b == a; }
  }

  lemma {:induction false} Hosted(ids: set<int>, table: map<Slot, int>)
    requires forall id :: id in ids ==> exists k :: k in table && table[k] == id
    ensures |ids| <= |table.Keys|
    decreases |ids|
  {
    if |ids| != 0 {
      var id := Pick(ids);
      var k :| k in table && table[k] == id;
      var rest := table - {k};
      assert rest.Keys == table.Keys - {k};
      forall x | x in ids - {id} ensures exists j :: j in rest && rest[j] == x {
        var j :| j in table && table[j] == x;
        assert j in rest && rest[j] == x;
      }
      Hosted(ids - {id}, rest);
    }
  }

  lemma SomeRef(table: map<Slot, int>, id: int) returns (k: Slot)
    requires |Refs(table, id)| >= 1
    ensures k in table && table[k] == id
  {
    k := Pick(Refs(table, id));
  }

  lemma NewInRange(e: Env, s: State)
    requires NewIndexed(e, s.key, Addrs(s.mapInfo), TriedIds(s.mapInfo), s.vvNew)
    ensures forall k :: k in s.vvNew ==> k.bucket < NEW_BUCKET_COUNT && k.pos < BUCKET_SIZE
  {
  }

  lemma TriedInRange(e: Env, s: State)
    requires TriedIndexed(e, s.key, Addrs(s.mapInfo), TriedIds(s.mapInfo), s.vvTried)
    ensures forall k :: k in s.vvTried ==> k.bucket < TRIED_BUCKET_COUNT && k.pos < BUCKET_SIZE
  {
  }

  lemma NewFits(e: Env, s: State)
    requires Inv(e, s)
    ensures 0 <= s.nNew <= NEW_BUCKET_COUNT * BUCKET_SIZE
  {
    forall id | id in NewIds(s.mapInfo) ensures exists k :: k in s.vvNew && s.vvNew[k] == id {
      EntryImplied(e, s, id);
      RefCountOf(e, s, id, {}, {});
      var k := SomeRef(s.vvNew, id);
    }
    Hosted(NewIds(s.mapInfo), s.vvNew);
    NewInRange(e, s);
    SlotsBound(s.vvNew.Keys, NEW_BUCKET_COUNT * BUCKET_SIZE);
    SizesImplied(s);
  }

  lemma TriedFitsTable(e: Env, s: State)
    requires Inv(e, s)
    ensures 0 <= s.nTried <= TRIED_BUCKET_COUNT * BUCKET_SIZE
  {
    forall id | id in TriedIds(s.mapInfo) ensures exists k :: k in s.vvTried && s.vvTried[k] == id {
      TriedSlotOf(e, s, id);
    }
    Hosted(TriedIds(s.mapInfo), s.vvTried);
    TriedInRange(e, s);
    SlotsBound(s.vvTried.Keys, TRIED_BUCKET_COUNT * BUCKET_SIZE);
    SizesImplied(s);
  }

  // ----- the whole file

  lemma HeaderReads(e: Env, s: State, order: seq<int>)
    requires 0 <= s.nNew <= NEW_BUCKET_COUNT * BUCKET_SIZE && 0 <= s.nTried <= TRIED_BUCKET_COUNT * BUCKET_SIZE
    ensures var toks := Serialize(e, s, order);
            && !TooNew(toks) && HeaderOk(toks)
            && toks[0] == Num(4) && toks[1] == Num(36) && toks[5] == Num(0x4000_0400) && toks[2] == Key(s.key) &&
                toks[3] == Num(s.nNew)
            && toks[4] == Num(s.nTried)
            && toks[5].Num? && FlipBit30(toks[5].n) == NEW_BUCKET_COUNT
            && toks[6..] == EntryTokens(s, NewOrder(s, order)) + (EntryTokens(s, TriedOrder(s, order)) +
                 (BucketTokens(s.vvNew, NewOrder(s, order), 0) + [Checksum(e.asmapChecksum)]))
  {
    var ids := NewOrder(s, order);
    var body := EntryTokens(s, ids) + (EntryTokens(s, TriedOrder(s, order)) +
                  (BucketTokens(s.vvNew, ids, 0) + [Checksum(e.asmapChecksum)]));
    HeaderSplit(s, body);
  }

  lemma HeaderSplit(s: State, body: seq<Token>)
    requires 0 <= s.nNew <= NEW_BUCKET_COUNT * BUCKET_SIZE && 0 <= s.nTried <= TRIED_BUCKET_COUNT * BUCKET_SIZE
    ensures var toks := HeaderTokens(s) + body;
            && !TooNew(toks) && HeaderOk(toks)
            && toks[0] == Num(4) && toks[1] == Num(36) && toks[5] == Num(0x4000_0400) && toks[2] == Key(s.key) &&
                toks[3] == Num(s.nNew)
            && toks[4] == Num(s.nTried)
            && toks[5].Num? && FlipBit30(toks[5].n) == NEW_BUCKET_COUNT && toks[6..] == body
  {
    var toks := HeaderTokens(s) + body;
    assert toks[..6] == HeaderTokens(s);
  }

  lemma NothingRead(e: Env, s: State, all: seq<int>)
    requires Inv(e, s)
    ensures ReadingNew(e, s, Blank(s.key, s.nNew, s.nTried), all, 0)
  {
    InitialInv(e, s.key);
    var t := Blank(s.key, s.nNew, s.nTried);
    assert View(t, 0, 0) == Initial(s.key);
    PendingMore(e, Initial(s.key), {}, {}, t.mapInfo.Keys);
  }

  lemma NewAllRead(e: Env, s: State, t: State, all: seq<int>, n: nat)
    requires ReadingNew(e, s, t, all, n) && n == s.nNew
    ensures ReadingTried(e, s, t.(nIdCount := s.nNew), all, n)
  {
    var u, m := t.(nIdCount := s.nNew), n - s.nNew;
    assert m == 0 && View(u, s.nNew, m) == View(t, n, 0);
  }

  lemma AllRead(e: Env, s: State, t: State, all: seq<int>)
    requires IsRoster(s, all) && ReadingTried(e, s, t, all, |all|)
    ensures Restoring(e, s, t, all, [])
  {
    assert View(t, s.nNew, |all| - s.nNew) == t;
  }

  lemma NewSlots(e: Env, s: State)
    requires NewIndexed(e, s.key, Addrs(s.mapInfo), TriedIds(s.mapInfo), s.vvNew)
    ensures Distinct(AllSlots(s.vvNew, 0)) && forall k :: k in AllSlots(s.vvNew, 0) <==> k in s.vvNew
  {
    NewInRange(e, s);
    AllSlotsFacts(s.vvNew, 0);
  }

  lemma FinishUnfold(e: Env, t: State, u: State, pairs: seq<(nat, nat)>, prune: seq<int>)
    requires RestoreRefs(e, t, true, pairs) == u && Prune(e, u, prune) == u && Consistent(e, u)
    ensures Finish(e, t, pairs, [Checksum(e.asmapChecksum)], FILE_FORMAT, NEW_BUCKET_COUNT, prune) == Ok(u)
  {
  }

  lemma NothingPruned(e: Env, s: State, prune: seq<int>)
    requires Inv(e, s)
    ensures Prune(e, s, prune) == s
  {
    forall i | i in s.mapInfo && !s.mapInfo[i].inTried ensures s.mapInfo[i].refCount >= 1 { EntryImplied(e, s, i); }
    PruneNone(e, s, prune);
  }

  lemma FinishReads(e: Env, s: State, t: State, all: seq<int>, ids: seq<int>, slots: seq<Slot>, prune: seq<int>)
    returns (u: State)
    requires Inv(e, s) && IsRoster(s, all) && ids == all[..s.nNew] && Restoring(e, s, t, all, [])
    requires Distinct(slots) && forall k :: k in slots <==> k in s.vvNew
    ensures Finish(e, t, PairsOf(s.vvNew, ids, slots), [Checksum(e.asmapChecksum)], FILE_FORMAT, NEW_BUCKET_COUNT,
            prune) == Ok(u)
    ensures Renumbered(s, u, all) && Inv(e, u)
  {
    u := RestoreAll(e, s, t, all, ids, slots);
    RestoredIsRenumbered(e, s, u, all, slots);
    NoneIsPending(e, s, u, all);
    InvIsConsistent(e, u);
    NothingPruned(e, u, prune);
    FinishUnfold(e, t, u, PairsOf(s.vvNew, ids, slots), prune);
  }

  lemma NewNamed(e: Env, s: State, all: seq<int>, ids: seq<int>)
    requires Inv(e, s) && IsRoster(s, all) && ids == all[..s.nNew]
    ensures Named(s.vvNew, ids)
  {
    forall k | k in s.vvNew ensures s.vvNew[k] in ids { SlotNumber(e, s, all, ids, k); }
  }

  lemma NewReads(e: Env, s: State, all: seq<int>, ids: seq<int>, rest: seq<Token>) returns (t: State, t': State)
    requires Inv(e, s) && IsRoster(s, all) && |ids| == s.nNew && ids == all[..s.nNew]
    ensures LoadNew(e, Blank(s.key, s.nNew, s.nTried), EntryTokens(s, ids) + rest, 0, s.nNew) == Some((t, rest))
    ensures t' == t.(nIdCount := s.nNew) && ReadingTried(e, s, t', all, s.nNew)
  {
    NothingRead(e, s, all);
    assert EntryTokens(s, ids)[0..] == EntryTokens(s, ids);
    t := LoadNewReads(e, s, Blank(s.key, s.nNew, s.nTried), all, ids, 0, rest);
    NewAllRead(e, s, t, all, s.nNew);
    t' := t.(nIdCount := s.nNew);
  }

  lemma TriedReads(e: Env, s: State, t: State, all: seq<int>, ids: seq<int>, rest: seq<Token>) returns (u: State)
    requires Inv(e, s) && IsRoster(s, all) && |ids| == s.nTried && ids == all[s.nNew..]
    requires ReadingTried(e, s, t, all, s.nNew)
    ensures LoadTried(e, t, EntryTokens(s, ids) + rest, 0, s.nTried) == Some((u, rest))
    ensures Restoring(e, s, u, all, [])
  {
    assert EntryTokens(s, ids)[0..] == EntryTokens(s, ids);
    u := LoadTriedReads(e, s, t, all, ids, 0, s.nNew, rest);
    AllRead(e, s, u, all);
  }

  lemma AllBucketsRead(table: map<Slot, int>, ids: seq<int>, bucket: nat, rest: seq<Token>)
    requires Named(table, ids)
    ensures ReadBuckets(BucketTokens(table, ids, bucket) + rest, bucket, NEW_BUCKET_COUNT, |ids|, []) ==
            Some((PairsOf(table, ids, AllSlots(table, bucket)), rest))
  {
    var pairs := PairsOf(table, ids, AllSlots(table, bucket));
    assert [] + pairs == pairs;
    BucketsRead(table, ids, bucket, rest, []);
  }

  /** Unserialize, stage by stage. */
  lemma UnserializeUnfold(e: Env, toks: seq<Token>, prune: seq<int>, key: nat, nNew: nat, nTried: nat,
                          t: State, toks1: seq<Token>, u: State, toks2: seq<Token>, pairs: seq<(nat, nat)>,
                          toks3: seq<Token>)
    requires !TooNew(toks) && HeaderOk(toks) && toks[0] == Num(FILE_FORMAT) && toks[2] == Key(key)
    requires toks[3] == Num(nNew) && toks[4] == Num(nTried) && FlipBit30(toks[5].n) == NEW_BUCKET_COUNT
    requires LoadNew(e, Blank(key, nNew, nTried), toks[6..], 0, nNew) == Some((t, toks1))
    requires LoadTried(e, t.(nIdCount := nNew), toks1, 0, nTried) == Some((u, toks2))
    requires ReadBuckets(toks2, 0, NEW_BUCKET_COUNT, nNew, []) == Some((pairs, toks3))
    ensures Unserialize(e, toks, prune) == Finish(e, u, pairs, toks3, FILE_FORMAT, NEW_BUCKET_COUNT, prune)
  {
  }

  /** The entries, first the new ones and then the tried ones. */
  lemma EntriesRead(e: Env, s: State, all: seq<int>, ids: seq<int>, tids: seq<int>, body: seq<Token>, later: seq<Token>,
                    rest: seq<Token>) returns (t: State, u: State)
    requires Inv(e, s) && IsRoster(s, all) && ids == all[..s.nNew] && tids == all[s.nNew..]
    requires body == EntryTokens(s, ids) + later && later == EntryTokens(s, tids) + rest
    ensures LoadNew(e, Blank(s.key, s.nNew, s.nTried), body, 0, s.nNew) == Some((t, later))
    ensures LoadTried(e, t.(nIdCount := s.nNew), later, 0, s.nTried) == Some((u, rest)) && Restoring(e, s, u, all, [])
  {
    var t';
    t, t' := NewReads(e, s, all, ids, later);
    u := TriedReads(e, s, t', all, tids, rest);
  }

  lemma BucketsReadBack(e: Env, s: State, all: seq<int>, ids: seq<int>, n: nat, rest: seq<Token>,
                        pairs: seq<(nat, nat)>, checksum: seq<Token>)
    requires Inv(e, s) && IsRoster(s, all) && ids == all[..s.nNew] && n == |ids|
    requires rest == BucketTokens(s.vvNew, ids, 0) + checksum && pairs == PairsOf(s.vvNew, ids, AllSlots(s.vvNew, 0))
    ensures ReadBuckets(rest, 0, NEW_BUCKET_COUNT, n, []) == Some((pairs, checksum))
  {
    NewNamed(e, s, all, ids);
    AllBucketsRead(s.vvNew, ids, 0, checksum);
  }

  lemma BodyReads(e: Env, s: State, all: seq<int>, ids: seq<int>, tids: seq<int>, body: seq<Token>, later: seq<Token>,
                  rest: seq<Token>, pairs: seq<(nat, nat)>, checksum: seq<Token>) returns (t: State, u: State)
    requires Inv(e, s) && IsRoster(s, all) && ids == all[..s.nNew] && |ids| == s.nNew && tids == all[s.nNew..]
    requires body == EntryTokens(s, ids) + later && later == EntryTokens(s, tids) + rest
    requires rest == BucketTokens(s.vvNew, ids, 0) + checksum && pairs == PairsOf(s.vvNew, ids, AllSlots(s.vvNew, 0))
    ensures LoadNew(e, Blank(s.key, s.nNew, s.nTried), body, 0, s.nNew) == Some((t, later))
    ensures LoadTried(e, t.(nIdCount := s.nNew), later, 0, s.nTried) == Some((u, rest)) && Restoring(e, s, u, all, [])
    ensures ReadBuckets(rest, 0, NEW_BUCKET_COUNT, s.nNew, []) == Some((pairs, checksum))
  {
    t, u := EntriesRead(e, s, all, ids, tids, body, later, rest);
    BucketsReadBack(e, s, all, ids, s.nNew, rest, pairs, checksum);
  }

  /** Unserialize undoes Serialize: from any reachable state, whatever the order
      in which the entries are walked, and with the same asmap at both ends, the
      file is accepted and gives back the state up to renumbering. */
  lemma RoundTrip(e: Env, s: State, order: seq<int>, prune: seq<int>)
    requires Inv(e, s) && Enumerates(s, order)
    ensures var r := Unserialize(e, Serialize(e, s, order), prune);
            r.Ok? && Renumbered(s, r.state, Roster(s, order)) && Inv(e, r.state)
  {
    var all, ids, checksum := Roster(s, order), NewOrder(s, order), [Checksum(e.asmapChecksum)];
    var pairs := PairsOf(s.vvNew, ids, AllSlots(s.vvNew, 0));
    RosterFacts(e, s, order);
    var u := WholeReads(e, s, order, all, ids, pairs, checksum, prune);
    NewSlots(e, s);
    var v := FinishReads(e, s, u, all, ids, AllSlots(s.vvNew, 0), prune);
  }

  lemma WholeReads(e: Env, s: State, order: seq<int>, all: seq<int>, ids: seq<int>, pairs: seq<(nat, nat)>,
                   checksum: seq<Token>, prune: seq<int>) returns (u: State)
    requires Inv(e, s) && all == Roster(s, order) && ids == NewOrder(s, order) && IsRoster(s, all)
    requires |ids| == s.nNew && checksum == [Checksum(e.asmapChecksum)]
    requires pairs == PairsOf(s.vvNew, ids, AllSlots(s.vvNew, 0))
    ensures Unserialize(e, Serialize(e, s, order), prune) ==
            Finish(e, u, pairs, checksum, FILE_FORMAT, NEW_BUCKET_COUNT, prune)
    ensures Restoring(e, s, u, all, [])
  {
    var tids, rest := TriedOrder(s, order), BucketTokens(s.vvNew, ids, 0) + checksum;
    var later := EntryTokens(s, tids) + rest;
    var t;
    t, u := BodyReads(e, s, all, ids, tids, EntryTokens(s, ids) + later, later, rest, pairs, checksum);
    NewFits(e, s);
    TriedFitsTable(e, s);
    HeadedReads(e, s, Serialize(e, s, order), EntryTokens(s, ids) + later, t, later, u, rest, pairs, checksum, prune);
  }

  lemma HeadedReads(e: Env, s: State, toks: seq<Token>, body: seq<Token>, t: State, later: seq<Token>,
                    u: State, rest: seq<Token>, pairs: seq<(nat, nat)>, checksum: seq<Token>, prune: seq<int>)
    requires 0 <= s.nNew <= NEW_BUCKET_COUNT * BUCKET_SIZE && 0 <= s.nTried <= TRIED_BUCKET_COUNT * BUCKET_SIZE
    requires toks == HeaderTokens(s) + body
    requires LoadNew(e, Blank(s.key, s.nNew, s.nTried), body, 0, s.nNew) == Some((t, later))
    requires LoadTried(e, t.(nIdCount := s.nNew), later, 0, s.nTried) == Some((u, rest))
    requires ReadBuckets(rest, 0, NEW_BUCKET_COUNT, s.nNew, []) == Some((pairs, checksum))
    ensures Unserialize(e, toks, prune) == Finish(e, u, pairs, checksum, FILE_FORMAT, NEW_BUCKET_COUNT, prune)
  {
    HeaderSplit(s, body);
    UnserializeUnfold(e, toks, prune, s.key, s.nNew, s.nTried, t, later, u, rest, pairs, checksum);
  }
}
