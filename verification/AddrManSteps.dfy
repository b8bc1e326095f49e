/**
 Every elementary step of the address manager keeps the index invariant.
 */
module AddrManSteps {
  import opened AddrManState
  import opened AddrManInvariant

  // ----- fields under update

  lemma FieldsOfUpdate(m: map<int, Info>, id: int, info: Info)
    ensures Addrs(m[id := info]) == Addrs(m)[id := info.addr]
    ensures Places(m[id := info]) == Places(m)[id := info.randomPos]
    ensures RefCounts(m[id := info]) == RefCounts(m)[id := info.refCount]
    ensures TriedIds(m[id := info]) == if info.inTried then TriedIds(m) + {id} else TriedIds(m) - {id}
    ensures info.inTried == (id in TriedIds(m)) ==> TriedIds(m[id := info]) == TriedIds(m)
  {
  }

  lemma SaneUpdate(e: Env, m: map<int, Info>, id: int, info: Info)
    requires EntriesSane(e, m) && IsValidAddr(e, info.addr) && SaneTimes(info)
    ensures EntriesSane(e, m[id := info])
  {
  }

  lemma FieldsOfRemoval(m: map<int, Info>, id: int)
    ensures Addrs(m - {id}) == Addrs(m) - {id}
    ensures Places(m - {id}) == Places(m) - {id}
    ensures RefCounts(m - {id}) == RefCounts(m) - {id}
    ensures TriedIds(m - {id}) == TriedIds(m) - {id}
    ensures id !in TriedIds(m) ==> TriedIds(m - {id}) == TriedIds(m)
  {
  }

  lemma SaneRemoval(e: Env, m: map<int, Info>, id: int)
    requires EntriesSane(e, m)
    ensures EntriesSane(e, m - {id})
  {
  }

  lemma SameValue<T>(m: map<int, T>, id: int)
    requires id in m
    ensures m[id := m[id]] == m
  {
  }

  // ----- how the counters follow one entry

  function Indicator(b: bool): int { if b then 1 else 0 }

  ghost predicate SameBut<T(!new)>(a: set<T>, b: set<T>, x: T) {
    forall y :: y != x ==> (y in a <==> y in b)
  }

  lemma CardFollows<T(!new)>(a: set<T>, b: set<T>, x: T)
    requires SameBut(a, b, x)
    ensures |b| == |a| + Indicator(x in b) - Indicator(x in a)
  {
    if x in a && x !in b {
      assert b == a - {x};
    } else if x !in a && x in b {
      assert b == a + {x};
    } else {
      assert b == a;
    }
  }

  ghost predicate SameAddrsBut(addrs: map<int, Service>, addrs': map<int, Service>, id: int) {
    forall i :: i != id ==> (i in addrs <==> i in addrs') && (i in addrs ==> addrs[i] == addrs'[i])
  }

  /** When only entry `id` joins or leaves the new or the tried entries, one
      adjustment of its network's count keeps all counts exact. */
  lemma CountsFollow(e: Env, addrs: map<int, Service>, newIds: set<int>, triedIds: set<int>,
                     counts: map<Network, Counts>,
                     addrs': map<int, Service>, newIds': set<int>, triedIds': set<int>, id: int, a: Service,
                     dNew: int, dTried: int)
    requires NetExact(e, addrs, newIds, triedIds, counts)
    requires SameBut(newIds, newIds', id) && SameBut(triedIds, triedIds', id)
    requires SameAddrsBut(addrs, addrs', id)
    requires (id in newIds + triedIds ==> id in addrs) && (id in newIds' + triedIds' ==> id in addrs')
    requires (id in addrs ==> addrs[id] == a) && (id in addrs' ==> addrs'[id] == a)
    requires dNew == Indicator(id in newIds') - Indicator(id in newIds)
    requires dTried == Indicator(id in triedIds') - Indicator(id in triedIds)
    ensures NetExact(e, addrs', newIds', triedIds', Bump(counts, NetOf(e, a), dNew, dTried))
  {
    var counts' := Bump(counts, NetOf(e, a), dNew, dTried);
    forall net
      ensures CountOf(counts', net) == Counts(|InNet(e, addrs', newIds', net)|, |InNet(e, addrs', triedIds', net)|)
    {
      InNetFollows(e, addrs, newIds, addrs', newIds', id, net);
      InNetFollows(e, addrs, triedIds, addrs', triedIds', id, net);
    }
  }

  lemma InNetFollows(e: Env, addrs: map<int, Service>, ids: set<int>, addrs': map<int, Service>, ids': set<int>,
                     id: int, net: Network)
    requires SameBut(ids, ids', id) && SameAddrsBut(addrs, addrs', id)
    ensures var was, now := InNet(e, addrs, ids, net), InNet(e, addrs', ids', net);
            |now| == |was| + Indicator(id in now) - Indicator(id in was)
  {
    var was, now := InNet(e, addrs, ids, net), InNet(e, addrs', ids', net);
    forall y | y != id ensures y in was <==> y in now {
      assert y in ids <==> y in ids';
      assert y in addrs <==> y in addrs';
    }
    CardFollows(was, now, id);
  }

  /** The same with the totals, for a step that moves one entry between new,
      tried, limbo and nowhere. */
  lemma CountMove(e: Env, addrs: map<int, Service>, triedIds: set<int>, limbo: set<int>,
                  nNew: int, nTried: int, counts: map<Network, Counts>,
                  addrs': map<int, Service>, triedIds': set<int>, limbo': set<int>, id: int, a: Service,
                  nNew': int, nTried': int, dNew: int, dTried: int)
    requires Totals(addrs.Keys, triedIds, limbo, nNew, nTried)
    requires NetExact(e, addrs, addrs.Keys - triedIds - limbo, triedIds, counts)
    requires SameAddrsBut(addrs, addrs', id)
    requires SameBut(triedIds, triedIds', id) && SameBut(limbo, limbo', id)
    requires (id in addrs ==> addrs[id] == a) && (id in addrs' ==> addrs'[id] == a)
    requires (id in triedIds ==> id in addrs) && (id in triedIds' ==> id in addrs')
    requires dNew == Indicator(id in addrs'.Keys - triedIds' - limbo') - Indicator(id in addrs.Keys - triedIds - limbo)
    requires dTried == Indicator(id in triedIds') - Indicator(id in triedIds)
    requires nNew' == nNew + dNew && nTried' == nTried + dTried
    ensures Totals(addrs'.Keys, triedIds', limbo', nNew', nTried')
    ensures NetExact(e, addrs', addrs'.Keys - triedIds' - limbo', triedIds', Bump(counts, NetOf(e, a), dNew, dTried))
  {
    var was, now := addrs.Keys - triedIds - limbo, addrs'.Keys - triedIds' - limbo';
    NewIdsFollow(addrs, triedIds, limbo, addrs', triedIds', limbo', id);
    CardFollows(was, now, id);
    CardFollows(triedIds, triedIds', id);
    CountsFollow(e, addrs, was, triedIds, counts, addrs', now, triedIds', id, a, dNew, dTried);
  }

  lemma NewIdsFollow(addrs: map<int, Service>, triedIds: set<int>, limbo: set<int>,
                     addrs': map<int, Service>, triedIds': set<int>, limbo': set<int>, id: int)
    requires SameAddrsBut(addrs, addrs', id)
    requires SameBut(triedIds, triedIds', id) && SameBut(limbo, limbo', id)
    ensures SameBut(addrs.Keys - triedIds - limbo, addrs'.Keys - triedIds' - limbo', id)
  {
    var was, now := addrs.Keys - triedIds - limbo, addrs'.Keys - triedIds' - limbo';
    forall y | y != id ensures y in was <==> y in now {
      assert y in addrs <==> y in addrs';
      assert y in triedIds <==> y in triedIds';
      assert y in limbo <==> y in limbo';
    }
  }

  // ----- elementary steps

  /** Rewriting the bookkeeping of an entry touches no index. */
  lemma TouchKeepsCore(e: Env, s: State, id: int, info: Info, limbo: set<int>, pending: set<int>)
    requires Core(e, s, limbo, pending)
    requires id in s.mapInfo && SaneTimes(info)
    requires SameIndexing(info, s.mapInfo[id])
    ensures Core(e, s.With(id, info), limbo, pending)
  {
    var m := s.mapInfo;
    FieldsOfUpdate(m, id, info);
    SameValue(Addrs(m), id);
    SameValue(Places(m), id);
    SameValue(RefCounts(m), id);
    SaneUpdate(e, m, id, info);
  }

  lemma RandomAppend(places: map<int, int>, v: seq<int>, id: int)
    requires RandomIndexed(places, v) && id !in places
    ensures RandomIndexed(places[id := |v|], v + [id])
  {
  }

  lemma AddrInsert(addrs: map<int, Service>, byAddr: map<Service, int>, id: int, a: Service)
    requires AddrIndexed(addrs, byAddr) && id !in addrs && a !in byAddr
    ensures AddrIndexed(addrs[id := a], byAddr[a := id])
  {
  }

  lemma TablesIgnore(e: Env, key: nat, addrs: map<int, Service>, triedIds: set<int>,
                     tried: map<Slot, int>, table: map<Slot, int>, id: int, a: Service)
    requires TriedIndexed(e, key, addrs, triedIds, tried) && NewIndexed(e, key, addrs, triedIds, table)
    requires id !in addrs && id !in triedIds
    ensures TriedIndexed(e, key, addrs[id := a], triedIds, tried)
    ensures NewIndexed(e, key, addrs[id := a], triedIds, table)
  {
  }

  lemma CountInsert(e: Env, addrs: map<int, Service>, triedIds: set<int>, nNew: int, nTried: int,
                    counts: map<Network, Counts>, id: int, a: Service, nNew': int)
    requires Totals(addrs.Keys, triedIds, {}, nNew, nTried)
    requires NetExact(e, addrs, addrs.Keys - triedIds - {}, triedIds, counts)
    requires id !in addrs && id !in triedIds && nNew' == nNew + 1
    ensures Totals(addrs[id := a].Keys, triedIds, {}, nNew', nTried)
    ensures NetExact(e, addrs[id := a], addrs[id := a].Keys - triedIds - {}, triedIds, Bump(counts, NetOf(e, a), 1, 0))
  {
    CountMove(e, addrs, triedIds, {}, nNew, nTried, counts, addrs[id := a], triedIds, {}, id, a, nNew', nTried, 1, 0);
  }

  lemma RefsInsert(refCounts: map<int, int>, triedIds: set<int>, pending: set<int>, table: map<Slot, int>, id: int)
    requires RefsExact(refCounts, table) && RefsBounded(refCounts, triedIds, {}, pending)
    requires id !in refCounts && forall k :: k in table ==> table[k] in refCounts
    ensures RefsExact(refCounts[id := 0], table) && RefsBounded(refCounts[id := 0], triedIds, {}, pending + {id})
  {
    assert Refs(table, id) == {};
  }

  lemma CreateKeepsCore(e: Env, s: State, a: Address, source: NetAddr, pending: set<int>)
    requires Core(e, s, {}, pending)
    requires a.service !in s.mapAddr && IsValidAddr(e, a.service)
    ensures Core(e, Create(e, s, a, source), {}, pending + {s.nIdCount})
  {
    var id := s.nIdCount;
    var m := s.mapInfo;
    var addrs, triedIds := Addrs(m), TriedIds(m);
    assert id !in m;
    var info := FreshInfo(a, source).(randomPos := |s.vRandom|);
    FieldsOfUpdate(m, id, info);
    SaneUpdate(e, m, id, info);
    RandomAppend(Places(m), s.vRandom, id);
    AddrInsert(addrs, s.mapAddr, id, a.service);
    TablesIgnore(e, s.key, addrs, triedIds, s.vvTried, s.vvNew, id, a.service);
    RefsInsert(RefCounts(m), triedIds, pending, s.vvNew, id);
    CountInsert(e, addrs, triedIds, s.nNew, s.nTried, s.counts, id, a.service, Create(e, s, a, source).nNew);
  }

  // Exchanging two places of vRandom.

  lemma RandomSwap(places: map<int, int>, v: seq<int>, i: int, j: int)
    requires RandomIndexed(places, v) && 0 <= i < |v| && 0 <= j < |v| && i != j
    ensures RandomIndexed(places[v[i] := j][v[j] := i], v[i := v[j]][j := v[i]])
  {
  }

  lemma SwapKeepsCore(e: Env, s: State, i: int, j: int, limbo: set<int>, pending: set<int>)
    requires Core(e, s, limbo, pending)
    requires 0 <= i < |s.vRandom| && 0 <= j < |s.vRandom|
    ensures Core(e, SwapRandom(s, i, j), limbo, pending)
  {
    if i != j {
      var m := s.mapInfo;
      var id1, id2 := s.vRandom[i], s.vRandom[j];
      assert id1 in m && id2 in m && id1 != id2 by { assert id1 in Places(m) && id2 in Places(m); }
      var info1, info2 := m[id1].(randomPos := j), m[id2].(randomPos := i);
      var m1 := m[id1 := info1];
      TwoUpdates(e, m, id1, info1);
      TwoUpdates(e, m1, id2, info2);
      RandomSwap(Places(m), s.vRandom, i, j);
    }
  }

  /** An update that only moves an entry within vRandom. */
  lemma TwoUpdates(e: Env, m: map<int, Info>, id: int, info: Info)
    requires EntriesSane(e, m) && id in m && info == m[id].(randomPos := info.randomPos)
    ensures var m' := m[id := info];
            && Addrs(m') == Addrs(m) && RefCounts(m') == RefCounts(m) && TriedIds(m') == TriedIds(m)
            && Places(m') == Places(m)[id := info.randomPos]
            && EntriesSane(e, m')
  {
    FieldsOfUpdate(m, id, info);
    SaneUpdate(e, m, id, info);
  }

  // Deleting an entry.

  lemma RandomPop(places: map<int, int>, v: seq<int>, id: int)
    requires RandomIndexed(places, v) && |v| > 0 && v[|v| - 1] == id
    ensures RandomIndexed(places - {id}, v[..|v| - 1])
  {
  }

  lemma AddrRemove(addrs: map<int, Service>, byAddr: map<Service, int>, id: int)
    requires AddrIndexed(addrs, byAddr) && id in addrs
    ensures AddrIndexed(addrs - {id}, byAddr - {addrs[id]})
  {
  }

  lemma TablesForget(e: Env, key: nat, addrs: map<int, Service>, triedIds: set<int>,
                     tried: map<Slot, int>, table: map<Slot, int>, id: int)
    requires TriedIndexed(e, key, addrs, triedIds, tried) && NewIndexed(e, key, addrs, triedIds, table)
    requires id !in triedIds && Refs(table, id) == {}
    ensures TriedIndexed(e, key, addrs - {id}, triedIds, tried)
    ensures NewIndexed(e, key, addrs - {id}, triedIds, table)
  {
    forall k | k in table ensures table[k] != id { assert k !in Refs(table, id); }
  }

  lemma RefsForget(refCounts: map<int, int>, triedIds: set<int>, limbo: set<int>, pending: set<int>,
                   table: map<Slot, int>, id: int)
    requires RefsExact(refCounts, table) && RefsBounded(refCounts, triedIds, limbo, pending)
    requires id !in limbo
    ensures RefsExact(refCounts - {id}, table) && RefsBounded(refCounts - {id}, triedIds, limbo, pending - {id})
  {
  }

  /** Swapping moves entries within vRandom and changes nothing else of them. */
  lemma SwapFrame(s: State, i: int, j: int, id: int)
    requires RandomIndexed(Places(s.mapInfo), s.vRandom)
    requires 0 <= i < |s.vRandom| && 0 <= j < |s.vRandom|
    ensures var t := SwapRandom(s, i, j);
            && t.mapInfo.Keys == s.mapInfo.Keys
            && (id in s.mapInfo ==> t.mapInfo[id] == s.mapInfo[id].(randomPos := t.mapInfo[id].randomPos))
            && |t.vRandom| == |s.vRandom| && t.vRandom[j] == s.vRandom[i]
  {
    assert s.vRandom[i] in Places(s.mapInfo) && s.vRandom[j] in Places(s.mapInfo);
  }

  lemma DeleteKeepsCore(e: Env, s: State, id: int, limbo: set<int>, pending: set<int>)
    requires Core(e, s, limbo, pending)
    requires id in s.mapInfo && id !in limbo
    requires s.mapInfo[id].refCount == 0 && !s.mapInfo[id].inTried
    ensures Core(e, Delete(e, s, id), limbo, pending - {id})
  {
    var i, j := s.At(id).randomPos, s.LastPlace();
    var t := SwapRandom(s, i, j);
    assert 0 <= i < |s.vRandom| && s.vRandom[i] == id && 0 <= j == |s.vRandom| - 1 by { PlaceOf(s, id); }
    assert Core(e, t, limbo, pending) by { SwapKeepsCore(e, s, i, j, limbo, pending); }
    SwapFrame(s, i, j, id);
    UnlinkKeepsCore(e, t, id, limbo, pending);
  }

  lemma PlaceOf(s: State, id: int)
    requires RandomIndexed(Places(s.mapInfo), s.vRandom) && id in s.mapInfo
    ensures 0 <= s.mapInfo[id].randomPos < |s.vRandom| && s.vRandom[s.mapInfo[id].randomPos] == id
  {
    assert id in Places(s.mapInfo);
  }

  /** Delete, once the entry stands last in vRandom. */
  lemma UnlinkKeepsCore(e: Env, s: State, id: int, limbo: set<int>, pending: set<int>)
    requires Core(e, s, limbo, pending)
    requires id in s.mapInfo && id !in limbo
    requires s.mapInfo[id].refCount == 0 && !s.mapInfo[id].inTried
    requires |s.vRandom| > 0 && s.vRandom[|s.vRandom| - 1] == id
    ensures Core(e, Unlink(e, s, id), limbo, pending - {id})
  {
    var m := s.mapInfo;
    var addrs, triedIds := Addrs(m), TriedIds(m);
    FieldsOfRemoval(m, id);
    SaneRemoval(e, m, id);
    RandomPop(Places(m), s.vRandom, id);
    AddrRemove(addrs, s.mapAddr, id);
    assert id in RefCounts(m) && Refs(s.vvNew, id) == {};
    TablesForget(e, s.key, addrs, triedIds, s.vvTried, s.vvNew, id);
    RefsForget(RefCounts(m), triedIds, limbo, pending, s.vvNew, id);
    CountMove(e, addrs, triedIds, limbo, s.nNew, s.nTried, s.counts, addrs - {id}, triedIds, limbo, id, addrs[id],
              Unlink(e, s, id).nNew, s.nTried, -1, 0);
  }

  // References in the new table.

  lemma RefsDrop(refCounts: map<int, int>, triedIds: set<int>, limbo: set<int>, pending: set<int>,
                 table: map<Slot, int>, k: Slot, id: int, n: int)
    requires RefsExact(refCounts, table) && RefsBounded(refCounts, triedIds, limbo, pending)
    requires k in table && table[k] == id && id in refCounts && n == refCounts[id] - 1
    ensures RefsExact(refCounts[id := n], table - {k})
    ensures RefsBounded(refCounts[id := n], triedIds, limbo, pending + {id})
  {
    assert k in Refs(table, id);
    forall i | i in refCounts ensures refCounts[id := n][i] == |Refs(table - {k}, i)| {
      RefsOfRemoval(table, k, i);
    }
  }

  lemma RefsOfRemoval(table: map<Slot, int>, k: Slot, id: int)
    requires k in table
    ensures Refs(table - {k}, id) == if table[k] == id then Refs(table, id) - {k} else Refs(table, id)
  {
  }

  lemma RefsOfInsertion(table: map<Slot, int>, k: Slot, target: int, id: int)
    requires k !in table
    ensures k !in Refs(table, id)
    ensures Refs(table[k := target], id) == if target == id then Refs(table, id) + {k} else Refs(table, id)
  {
  }

  lemma RefsAdd(refCounts: map<int, int>, triedIds: set<int>, limbo: set<int>, pending: set<int>,
                table: map<Slot, int>, k: Slot, id: int, n: int)
    requires RefsExact(refCounts, table) && RefsBounded(refCounts, triedIds, limbo, pending)
    requires k !in table && id in refCounts && n == refCounts[id] + 1 <= NEW_BUCKETS_PER_ADDRESS
    ensures RefsExact(refCounts[id := n], table[k := id])
    ensures RefsBounded(refCounts[id := n], triedIds, limbo - {id}, pending - {id})
    ensures id !in limbo ==> RefsBounded(refCounts[id := n], triedIds, limbo, pending - {id})
  {
    RefsAddExact(refCounts, table, k, id, n);
    RefsAddBounded(refCounts, triedIds, limbo, pending, id, n);
    if id !in limbo { assert limbo - {id} == limbo; }
  }

  lemma RefsAddExact(refCounts: map<int, int>, table: map<Slot, int>, k: Slot, id: int, n: int)
    requires RefsExact(refCounts, table) && k !in table && id in refCounts && n == refCounts[id] + 1
    ensures RefsExact(refCounts[id := n], table[k := id])
  {
    forall i | i in refCounts ensures refCounts[id := n][i] == |Refs(table[k := id], i)| {
      RefsOfInsertion(table, k, id, i);
    }
  }

  lemma RefsAddBounded(refCounts: map<int, int>, triedIds: set<int>, limbo: set<int>, pending: set<int>, id: int,
                       n: int)
    requires RefsBounded(refCounts, triedIds, limbo, pending) && id in refCounts && n <= NEW_BUCKETS_PER_ADDRESS
    requires n >= 1
    ensures RefsBounded(refCounts[id := n], triedIds, limbo - {id}, pending - {id})
  {
  }

  lemma NewInsert(e: Env, key: nat, addrs: map<int, Service>, triedIds: set<int>, table: map<Slot, int>, k: Slot,
                  id: int)
    requires NewIndexed(e, key, addrs, triedIds, table)
    requires id in addrs && id !in triedIds && k.bucket < NEW_BUCKET_COUNT
    requires k == NewSlotIn(e, key, addrs[id], k.bucket)
    ensures NewIndexed(e, key, addrs, triedIds, table[k := id])
  {
  }

  lemma NewRemove(e: Env, key: nat, addrs: map<int, Service>, triedIds: set<int>, table: map<Slot, int>, k: Slot)
    requires NewIndexed(e, key, addrs, triedIds, table)
    ensures NewIndexed(e, key, addrs, triedIds, table - {k})
  {
  }

  /** An update of nothing but the reference count. */
  lemma RefUpdate(e: Env, m: map<int, Info>, id: int, info: Info)
    requires EntriesSane(e, m) && id in m && info == m[id].(refCount := info.refCount)
    ensures var m' := m[id := info];
            && Addrs(m') == Addrs(m) && Places(m') == Places(m) && TriedIds(m') == TriedIds(m)
            && RefCounts(m') == RefCounts(m)[id := info.refCount]
            && EntriesSane(e, m')
  {
    FieldsOfUpdate(m, id, info);
    SaneUpdate(e, m, id, info);
  }

  /** A slot of the new table refers to a live entry outside the tried table. */
  lemma RefTarget(e: Env, s: State, k: Slot, limbo: set<int>, pending: set<int>)
    requires Core(e, s, limbo, pending) && k in s.vvNew
    ensures var id := s.vvNew[k];
            && id in s.mapInfo && !s.mapInfo[id].inTried && id !in limbo && s.mapInfo[id].refCount >= 1
            && k.bucket < NEW_BUCKET_COUNT && k == NewSlotIn(e, s.key, s.mapInfo[id].addr, k.bucket)
  {
    var m, id := s.mapInfo, s.vvNew[k];
    assert id in Addrs(m) && id !in TriedIds(m);
    assert id in RefCounts(m) && k in Refs(s.vvNew, id);
  }

  lemma DropRefKeepsCore(e: Env, s: State, k: Slot, limbo: set<int>, pending: set<int>)
    requires Core(e, s, limbo, pending) && k in s.vvNew
    ensures Core(e, DropRef(s, k), limbo, pending + {s.vvNew[k]})
  {
    var m, id := s.mapInfo, s.vvNew[k];
    RefTarget(e, s, k, limbo, pending);
    var info := s.At(id).OneRefLess();
    RefsDrop(RefCounts(m), TriedIds(m), limbo, pending, s.vvNew, k, id, info.refCount);
    RefUpdate(e, m, id, info);
    NewRemove(e, s.key, Addrs(m), TriedIds(m), s.vvNew, k);
  }

  /** A pending entry with a reference is pending no more. */
  lemma PendingDone(e: Env, s: State, limbo: set<int>, pending: set<int>, id: int)
    requires Core(e, s, limbo, pending + {id})
    requires id in s.mapInfo ==> s.mapInfo[id].refCount >= 1
    ensures Core(e, s, limbo, pending)
  {
    assert id in RefCounts(s.mapInfo) ==> RefCounts(s.mapInfo)[id] >= 1;
  }

  lemma AddRefKeepsCore(e: Env, s: State, k: Slot, id: int, limbo: set<int>, pending: set<int>)
    requires Core(e, s, limbo, pending)
    requires k !in s.vvNew && id in s.mapInfo && !s.mapInfo[id].inTried && id !in limbo
    requires s.mapInfo[id].refCount < NEW_BUCKETS_PER_ADDRESS
    requires k.bucket < NEW_BUCKET_COUNT && k == NewSlotIn(e, s.key, s.mapInfo[id].addr, k.bucket)
    ensures Core(e, AddRef(s, k, id), limbo, pending - {id})
  {
    var m := s.mapInfo;
    var info := s.At(id).OneRefMore();
    RefsAdd(RefCounts(m), TriedIds(m), limbo, pending, s.vvNew, k, id, info.refCount);
    RefUpdate(e, m, id, info);
    NewInsert(e, s.key, Addrs(m), TriedIds(m), s.vvNew, k, id);
  }

  // Leaving and entering the counts.

  lemma UncountKeepsCore(e: Env, s: State, id: int, limbo: set<int>, pending: set<int>)
    requires Core(e, s, limbo, pending)
    requires id in s.mapInfo && !s.mapInfo[id].inTried && id !in limbo && s.mapInfo[id].refCount == 0
    ensures Core(e, Uncount(e, s, id), limbo + {id}, pending - {id})
  {
    var m := s.mapInfo;
    CountMove(e, Addrs(m), TriedIds(m), limbo, s.nNew, s.nTried, s.counts,
              Addrs(m), TriedIds(m), limbo + {id}, id, m[id].addr,
              Uncount(e, s, id).nNew, s.nTried, -1, 0);
    assert RefsBounded(RefCounts(m), TriedIds(m), limbo + {id}, pending - {id});
  }

  lemma RecountKeepsCore(e: Env, s: State, k: Slot, id: int, limbo: set<int>, pending: set<int>)
    requires Core(e, s, limbo, pending)
    requires k !in s.vvNew && id in limbo && id in s.mapInfo
    requires k.bucket < NEW_BUCKET_COUNT && k == NewSlotIn(e, s.key, s.mapInfo[id].addr, k.bucket)
    ensures Core(e, Recount(e, s, k, id), limbo - {id}, pending - {id})
  {
    var m := s.mapInfo;
    assert RefCounts(m)[id] == 0;
    var info := s.At(id).(refCount := 1);
    RefsAdd(RefCounts(m), TriedIds(m), limbo, pending, s.vvNew, k, id, info.refCount);
    RefUpdate(e, m, id, info);
    NewInsert(e, s.key, Addrs(m), TriedIds(m), s.vvNew, k, id);
    CountMove(e, Addrs(m), TriedIds(m), limbo, s.nNew, s.nTried, s.counts,
              Addrs(m), TriedIds(m), limbo - {id}, id, m[id].addr,
              Recount(e, s, k, id).nNew, s.nTried, 1, 0);
  }

  // Leaving and entering the tried table.

  /** An update of nothing but the tried flag. */
  lemma TriedUpdate(e: Env, m: map<int, Info>, id: int, info: Info)
    requires EntriesSane(e, m) && id in m && info == m[id].(inTried := info.inTried) && SaneTimes(info)
    ensures var m' := m[id := info];
            && Addrs(m') == Addrs(m) && Places(m') == Places(m) && RefCounts(m') == RefCounts(m)
            && TriedIds(m') == (if info.inTried then TriedIds(m) + {id} else TriedIds(m) - {id})
            && EntriesSane(e, m')
  {
    FieldsOfUpdate(m, id, info);
    SaneUpdate(e, m, id, info);
  }

  lemma TriedRemove(e: Env, key: nat, addrs: map<int, Service>, triedIds: set<int>,
                    tried: map<Slot, int>, table: map<Slot, int>, k: Slot)
    requires TriedIndexed(e, key, addrs, triedIds, tried) && NewIndexed(e, key, addrs, triedIds, table)
    requires k in tried
    ensures TriedIndexed(e, key, addrs, triedIds - {tried[k]}, tried - {k})
    ensures NewIndexed(e, key, addrs, triedIds - {tried[k]}, table)
    ensures Refs(table, tried[k]) == {}
  {
  }

  lemma TriedInsert(e: Env, key: nat, addrs: map<int, Service>, triedIds: set<int>,
                    tried: map<Slot, int>, table: map<Slot, int>, k: Slot, id: int)
    requires TriedIndexed(e, key, addrs, triedIds, tried) && NewIndexed(e, key, addrs, triedIds, table)
    requires k !in tried && id in addrs && k == TriedSlot(e, key, addrs[id]) && Refs(table, id) == {}
    ensures TriedIndexed(e, key, addrs, triedIds + {id}, tried[k := id])
    ensures NewIndexed(e, key, addrs, triedIds + {id}, table)
  {
    forall j | j in table ensures table[j] != id { assert j !in Refs(table, id); }
  }

  lemma LimboIn(refCounts: map<int, int>, triedIds: set<int>, limbo: set<int>, pending: set<int>, id: int)
    requires RefsBounded(refCounts, triedIds, limbo, pending)
    requires id in refCounts && refCounts[id] == 0
    ensures RefsBounded(refCounts, triedIds - {id}, limbo + {id}, pending)
  {
  }

  lemma LimboOut(refCounts: map<int, int>, triedIds: set<int>, limbo: set<int>, pending: set<int>, id: int)
    requires RefsBounded(refCounts, triedIds, limbo, pending)
    ensures RefsBounded(refCounts, triedIds + {id}, limbo - {id}, pending)
  {
  }

  lemma VacateKeepsCore(e: Env, s: State, k: Slot, limbo: set<int>, pending: set<int>)
    requires Core(e, s, limbo, pending) && k in s.vvTried
    ensures Core(e, VacateTried(e, s, k), limbo + {s.vvTried[k]}, pending)
    ensures s.vvTried[k] in s.mapInfo && s.vvTried[k] !in limbo
  {
    var m, id := s.mapInfo, s.vvTried[k];
    TriedTarget(e, s, k, limbo, pending);
    TriedRemove(e, s.key, Addrs(m), TriedIds(m), s.vvTried, s.vvNew, k);
    LimboIn(RefCounts(m), TriedIds(m), limbo, pending, id);
    TriedUpdate(e, m, id, s.At(id).(inTried := false));
    CountMove(e, Addrs(m), TriedIds(m), limbo, s.nNew, s.nTried, s.counts,
              Addrs(m), TriedIds(m) - {id}, limbo + {id}, id, s.At(id).addr,
              s.nNew, VacateTried(e, s, k).nTried, 0, -1);
  }

  /** A slot of the tried table refers to a live tried entry without references. */
  lemma TriedTarget(e: Env, s: State, k: Slot, limbo: set<int>, pending: set<int>)
    requires Core(e, s, limbo, pending) && k in s.vvTried
    ensures var id := s.vvTried[k];
            && id in s.mapInfo && s.mapInfo[id].inTried && id !in limbo && s.mapInfo[id].refCount == 0
            && k == TriedSlot(e, s.key, s.mapInfo[id].addr) && s.mapInfo[id].lastSuccess > 0
  {
    var m, id := s.mapInfo, s.vvTried[k];
    assert id in Addrs(m) && id in TriedIds(m);
    TriedRemove(e, s.key, Addrs(m), TriedIds(m), s.vvTried, s.vvNew, k);
    assert id in RefCounts(m) && RefCounts(m)[id] == |Refs(s.vvNew, id)|;
  }

  lemma OccupyKeepsCore(e: Env, s: State, k: Slot, id: int, limbo: set<int>, pending: set<int>)
    requires Core(e, s, limbo, pending) && id in limbo && id in s.mapInfo
    requires k !in s.vvTried && k == TriedSlot(e, s.key, s.mapInfo[id].addr)
    requires s.mapInfo[id].lastSuccess > 0
    ensures Core(e, OccupyTried(e, s, k, id), limbo - {id}, pending)
  {
    var m := s.mapInfo;
    LimboTarget(e, s, id, limbo, pending);
    TriedInsert(e, s.key, Addrs(m), TriedIds(m), s.vvTried, s.vvNew, k, id);
    LimboOut(RefCounts(m), TriedIds(m), limbo, pending, id);
    TriedUpdate(e, m, id, s.At(id).(inTried := true));
    CountMove(e, Addrs(m), TriedIds(m), limbo, s.nNew, s.nTried, s.counts,
              Addrs(m), TriedIds(m) + {id}, limbo - {id}, id, s.At(id).addr,
              s.nNew, OccupyTried(e, s, k, id).nTried, 0, 1);
  }

  lemma LimboTarget(e: Env, s: State, id: int, limbo: set<int>, pending: set<int>)
    requires Core(e, s, limbo, pending) && id in limbo
    ensures id in s.mapInfo && !s.mapInfo[id].inTried && s.mapInfo[id].refCount == 0 && Refs(s.vvNew, id) == {}
  {
    var refCounts := RefCounts(s.mapInfo);
    assert id in refCounts && refCounts[id] == 0 && id !in TriedIds(s.mapInfo);
    assert |Refs(s.vvNew, id)| == 0;
  }
}
