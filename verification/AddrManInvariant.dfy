/**
 The index invariant of the address manager and its preservation by every
 elementary step.

 Each index is related to the one field of the entries it depends on, seen as
 a map of its own, so that a step which leaves a field alone leaves the indexes
 on it alone.

 While an operation is under way two kinds of entry may be without a
 reference: `pending` ones are still counted as new, `limbo` ones are counted
 nowhere. Between operations both sets are empty.
 */
module AddrManInvariant {
  import opened AddrManState

  // ----- the fields of the entries, one map each

  ghost function Addrs(m: map<int, Info>): map<int, Service> { map id | id in m :: m[id].addr }
  ghost function Places(m: map<int, Info>): map<int, int> { map id | id in m :: m[id].randomPos }
  ghost function RefCounts(m: map<int, Info>): map<int, int> { map id | id in m :: m[id].refCount }
  ghost function TriedIds(m: map<int, Info>): set<int> { set id | id in m && m[id].inTried }

  // ----- the invariant

  ghost predicate IdsBelow(ids: set<int>, bound: int) {
    bound >= 0 && forall id :: id in ids ==> 0 <= id < bound
  }

  /** mapAddr is the inverse of "the address of an entry". */
  ghost predicate AddrIndexed(addrs: map<int, Service>, byAddr: map<Service, int>) {
    && (forall id :: id in addrs ==> addrs[id] in byAddr && byAddr[addrs[id]] == id)
    && (forall a :: a in byAddr ==> byAddr[a] in addrs && addrs[byAddr[a]] == a)
  }

  /** vRandom is a permutation of the ids, and every entry knows its place. */
  ghost predicate RandomIndexed(places: map<int, int>, v: seq<int>) {
    && (forall id :: id in places ==> 0 <= places[id] < |v| && v[places[id]] == id)
    && (forall i :: 0 <= i < |v| ==> v[i] in places && places[v[i]] == i)
  }

  /** The tried table holds exactly the tried entries, each where its hash says. */
  ghost predicate TriedIndexed(e: Env, key: nat, addrs: map<int, Service>, triedIds: set<int>, tried: map<Slot, int>) {
    && (forall k :: k in tried ==>
          tried[k] in triedIds && tried[k] in addrs && k == TriedSlot(e, key, addrs[tried[k]]))
    && (forall id :: id in triedIds && id in addrs ==>
          TriedSlot(e, key, addrs[id]) in tried && tried[TriedSlot(e, key, addrs[id])] == id)
  }

  /** The new table holds only entries that are not tried, at the position
      their hash gives for the bucket. */
  ghost predicate NewIndexed(e: Env, key: nat, addrs: map<int, Service>, triedIds: set<int>, table: map<Slot, int>) {
    forall k :: k in table ==>
      && k.bucket < NEW_BUCKET_COUNT
      && table[k] in addrs && table[k] !in triedIds
      && k == NewSlotIn(e, key, addrs[table[k]], k.bucket)
  }

  ghost function Refs(table: map<Slot, int>, id: int): set<Slot> {
    set k | k in table && table[k] == id
  }

  ghost predicate RefsExact(refCounts: map<int, int>, table: map<Slot, int>) {
    forall id :: id in refCounts ==> refCounts[id] == |Refs(table, id)|
  }

  ghost predicate RefsBounded(refCounts: map<int, int>, triedIds: set<int>, limbo: set<int>, pending: set<int>) {
    && (forall id :: id in refCounts ==> refCounts[id] <= NEW_BUCKETS_PER_ADDRESS)
    && (forall id :: id in refCounts && id !in triedIds && id !in limbo && id !in pending ==> refCounts[id] >= 1)
    && (forall id :: id in limbo ==> id in refCounts && id !in triedIds && refCounts[id] == 0)
  }

  ghost predicate Totals(ids: set<int>, triedIds: set<int>, limbo: set<int>, nNew: int, nTried: int) {
    nNew == |ids - triedIds - limbo| && nTried == |triedIds|
  }

  ghost function InNet(e: Env, addrs: map<int, Service>, ids: set<int>, net: Network): set<int> {
    set id | id in ids && id in addrs && NetOf(e, addrs[id]) == net
  }

  ghost predicate NetExact(e: Env, addrs: map<int, Service>, newIds: set<int>, triedIds: set<int>,
                           counts: map<Network, Counts>)
  {
    forall net ::
      CountOf(counts, net) == Counts(|InNet(e, addrs, newIds, net)|, |InNet(e, addrs, triedIds, net)|)
  }

  ghost predicate EntriesSane(e: Env, m: map<int, Info>) {
    forall id :: id in m ==> IsValidAddr(e, m[id].addr) && SaneTimes(m[id])
  }

  predicate SaneTimes(info: Info) {
    info.lastTry >= 0 && info.lastSuccess >= 0 && (info.inTried ==> info.lastSuccess > 0)
  }

  ghost predicate Core(e: Env, s: State, limbo: set<int>, pending: set<int>) {
    var addrs, triedIds := Addrs(s.mapInfo), TriedIds(s.mapInfo);
    && s.key != 0
    && IdsBelow(addrs.Keys, s.nIdCount)
    && AddrIndexed(addrs, s.mapAddr)
    && RandomIndexed(Places(s.mapInfo), s.vRandom)
    && TriedIndexed(e, s.key, addrs, triedIds, s.vvTried)
    && NewIndexed(e, s.key, addrs, triedIds, s.vvNew)
    && RefsExact(RefCounts(s.mapInfo), s.vvNew)
    && RefsBounded(RefCounts(s.mapInfo), triedIds, limbo, pending)
    && Totals(addrs.Keys, triedIds, limbo, s.nNew, s.nTried)
    && NetExact(e, addrs, addrs.Keys - triedIds - limbo, triedIds, s.counts)
    && EntriesSane(e, s.mapInfo)
  }

  /** Every collision is an id once handed out; while its entry lives, the
      tried slot it competes for is taken. */
  ghost predicate CollisionsHeld(e: Env, s: State) {
    && |s.collisions| <= TRIED_COLLISION_SIZE
    && forall id :: id in s.collisions ==>
         && 0 <= id < s.nIdCount
         && (id in s.mapInfo ==> TriedSlot(e, s.key, s.mapInfo[id].addr) in s.vvTried)
  }

  ghost predicate Inv(e: Env, s: State) {
    Core(e, s, {}, {}) && CollisionsHeld(e, s)
  }
}
