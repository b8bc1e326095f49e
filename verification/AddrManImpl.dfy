/**
 The address manager as an object: the fields of AddrManImpl and its methods,
 each proved to do to the object what the matching step or operation does to
 its state, and to trip none of its internal assertions.
 */
module AddrManImpl {
  import opened AddrManCollisions
  import opened AddrManInvariant
  import opened AddrManOperations
  import opened AddrManRuns
  import opened AddrManState
  import opened AddrManSteps
  import opened Helpers

  const VACANT: int := -1

  ghost function Slots(buckets: nat, size: nat): set<Slot> {
    set b, p | 0 <= b < buckets && 0 <= p < size :: Slot(b, p)
  }

  /** The occupied slots of a table. */
  ghost function Table(a: array2<int>): map<Slot, int>
    reads a
  {
    map k | k in Slots(a.Length0, a.Length1) && a[k.bucket, k.pos] != VACANT :: a[k.bucket, k.pos]
  }

  lemma TableAt(a: array2<int>, b: nat, p: nat)
    requires b < a.Length0 && p < a.Length1
    ensures Slot(b, p) in Table(a) <==> a[b, p] != VACANT
    ensures Slot(b, p) in Table(a) ==> Table(a)[Slot(b, p)] == a[b, p]
  {
  }

  lemma ScanUnfold(e: Env, s: State, id: int, start: nat, n: nat, k: Slot, next: nat)
    requires n < NEW_BUCKET_COUNT && next == n + 1 && k == NewSlotIn(e, s.key, s.At(id).addr, Wrap(start, n))
    ensures !(k in s.vvNew && s.vvNew[k] == id) ==>
              AddrManState.ScanNew(e, s, id, start, n) == AddrManState.ScanNew(e, s, id, start, next)
    ensures k in s.vvNew && s.vvNew[k] == id ==>
              AddrManState.ScanNew(e, s, id, start, n) ==
              if DropRef(s, k).At(id).refCount == 0 then DropRef(s, k)
              else AddrManState.ScanNew(e, DropRef(s, k), id, start, next)
  {
  }

  lemma AddUnfold(e: Env, s: State, addrs: seq<Address>, i: nat, source: NetAddr, timePenalty: int, now: int,
                  draws: nat -> nat, t: State, added: int)
    requires i < |addrs|
    requires (t, added) == AddrManState.Add(e, s, addrs[..i], source, timePenalty, now, draws)
    ensures var (u, ok) := AddrManState.AddSingle(e, t, addrs[i], source, timePenalty, now, draws(i));
            AddrManState.Add(e, s, addrs[..i + 1], source, timePenalty, now, draws) ==
                (u, if ok then added + 1 else added)
  {
    assert addrs[..i + 1][..i] == addrs[..i];
  }

  lemma ResolveNext(e: Env, s: State, rest: set<int>, id: int, clock: int -> int)
    requires Inv(e, s) && (forall i :: clock(i) > 0)
    requires id in rest && rest <= s.collisions && forall x :: x in rest ==> id <= x
    ensures var t := AddrManState.ResolveOne(e, s, id, clock(id));
            && Resolve(e, s, Ascending(rest), clock) == Resolve(e, t, Ascending(rest - {id}), clock)
            && rest - {id} <= t.collisions
  {
    var t := AddrManState.ResolveOne(e, s, id, clock(id));
    assert id == MinOf(rest);
    var ids := Ascending(rest);
    assert ids == [id] + Ascending(rest - {id});
    assert ids[1..] == Ascending(rest - {id});
    forall x | x in rest - {id} ensures x in t.collisions {
      ResolveOneLeaves(e, s, id, clock(id), x);
    }
  }

  function AddressOf(info: Info): Address { Address(info.addr, info.services, info.time) }

  /** The addresses of the entries picked, in order. */
  ghost predicate Addressed(m: map<int, Info>, picked: seq<int>, addresses: seq<Address>) {
    |addresses| == |picked| &&
    forall i :: 0 <= i < |picked| ==> picked[i] in m && addresses[i] == AddressOf(m[picked[i]])
  }

  lemma PickedLive(e: Env, s: State, n: nat, network: Option<Network>, filtered: bool, now: int, picked: seq<int>)
    requires Collected(e, s, n, network, filtered, now, picked)
    ensures forall i :: 0 <= i < |picked| ==> picked[i] in s.mapInfo
  {
    forall i | 0 <= i < |picked| ensures picked[i] in s.mapInfo {
      assert Picked(e, s, n, network, filtered, now, picked[i]);
    }
  }

  lemma GetAddrUnfold(e: Env, s: State, n: nat, limit: nat, network: Option<Network>, filtered: bool, now: int,
                      draws: nat -> nat, picked: seq<int>, next: nat)
    requires n < |s.vRandom| && |picked| < limit && next == n + 1
    ensures var t := AddrManState.SwapRandom(s, n, Draw(s, n, draws));
            && |t.vRandom| == |s.vRandom|
            && GetAddrFrom(e, s, n, limit, network, filtered, now, draws, picked) ==
               GetAddrFrom(e, t, next, limit, network, filtered, now, draws,
                           PickNext(e, t, n, network, filtered, now, picked))
  {
    SwapLength(s, n, Draw(s, n, draws));
  }

  method CopyAddresses(m: map<int, Info>, picked: seq<int>) returns (addresses: seq<Address>)
    requires forall i :: 0 <= i < |picked| ==> picked[i] in m
    ensures Addressed(m, picked, addresses)
  {
    addresses := [];
    for i := 0 to |picked|
      invariant |addresses| == i && forall j :: 0 <= j < i ==> addresses[j] == AddressOf(m[picked[j]])
    {
      addresses := addresses + [AddressOf(m[picked[i]])];
    }
  }

  method LimitFor(size: nat, maxAddresses: nat, maxPct: nat) returns (limit: nat)
    ensures limit == AddrLimit(size, maxAddresses, maxPct)
  {
    limit := size;
    if maxPct != 0 {
      var pct := if maxPct > 100 then 100 else maxPct;
      limit := pct * limit / 100;
    }
    if maxAddresses != 0 && maxAddresses < limit { limit := maxAddresses; }
  }

  class AddrMan {
    const env: Env
    var nKey: nat
    var nIdCount: int
    var mapInfo: map<int, Info>
    var mapAddr: map<Service, int>
    var vRandom: seq<int>
    var nTried: int
    const vvTried: array2<int>
    var nNew: int
    const vvNew: array2<int>
    var lastGood: int
    var triedCollisions: set<int>
    var networkCounts: map<Network, Counts>

    ghost predicate Shaped()
    {
      && vvTried.Length0 == TRIED_BUCKET_COUNT && vvTried.Length1 == BUCKET_SIZE
      && vvNew.Length0 == NEW_BUCKET_COUNT && vvNew.Length1 == BUCKET_SIZE
      && vvTried != vvNew
    }

    ghost function Snap(): State
      reads this, vvTried, vvNew
    {
      State(nKey, nIdCount, mapInfo, mapAddr, vRandom, nTried, Table(vvTried), nNew, Table(vvNew),
            lastGood, triedCollisions, networkCounts)
    }

    ghost predicate Valid()
      reads this, vvTried, vvNew
    {
      Shaped() && Inv(env, Snap())
    }

    constructor (e: Env, key: nat)
      requires key != 0
      ensures env == e && Valid() && fresh(vvTried) && fresh(vvNew)
      ensures Snap() == Initial(key)
    {
      env := e;
      nKey := key;
      nIdCount := 0;
      mapInfo, mapAddr, vRandom := map[], map[], [];
      nTried, nNew := 0, 0;
      vvTried := new int[TRIED_BUCKET_COUNT, BUCKET_SIZE]((_, _) => VACANT);
      vvNew := new int[NEW_BUCKET_COUNT, BUCKET_SIZE]((_, _) => VACANT);
      lastGood := 1;
      triedCollisions := {};
      networkCounts := map[];
      new;
      InitialInv(e, key);
    }

    method SetNew(bucket: nat, pos: nat, id: int)
      requires Shaped() && bucket < NEW_BUCKET_COUNT && pos < BUCKET_SIZE
      modifies vvNew
      ensures var k := Slot(bucket, pos);
              Table(vvNew) == if id == VACANT then old(Table(vvNew)) - {k} else old(Table(vvNew))[k := id]
    {
      vvNew[bucket, pos] := id;
    }

    method SetTried(bucket: nat, pos: nat, id: int)
      requires Shaped() && bucket < TRIED_BUCKET_COUNT && pos < BUCKET_SIZE
      modifies vvTried
      ensures var k := Slot(bucket, pos);
              Table(vvTried) == if id == VACANT then old(Table(vvTried)) - {k} else old(Table(vvTried))[k := id]
    {
      vvTried[bucket, pos] := id;
    }

    method Bumped(net: Network, dNew: int, dTried: int)
      modifies `networkCounts
      ensures networkCounts == Bump(old(networkCounts), net, dNew, dTried)
    {
      var c := if net in networkCounts then networkCounts[net] else Counts(0, 0);
      networkCounts := networkCounts[net := Counts(c.nNew + dNew, c.nTried + dTried)];
    }

    method Create(a: Address, source: NetAddr) returns (id: int)
      requires Shaped()
      modifies this
      ensures id == old(nIdCount) && Snap() == AddrManState.Create(env, old(Snap()), a, source)
    {
      id := nIdCount;
      nIdCount := nIdCount + 1;
      mapInfo := mapInfo[id := FreshInfo(a, source).(randomPos := |vRandom|)];
      mapAddr := mapAddr[a.service := id];
      vRandom := vRandom + [id];
      nNew := nNew + 1;
      Bumped(NetOf(env, a.service), 1, 0);
    }

    method SwapRandom(i: int, j: int)
      requires RandomIndexed(Places(mapInfo), vRandom)
      requires i != j ==> 0 <= i < |vRandom| && 0 <= j < |vRandom|
      modifies `mapInfo, `vRandom
      ensures Snap() == AddrManState.SwapRandom(old(Snap()), i, j)
    {
      if i == j { return; }
      assert 0 <= i < |vRandom| && 0 <= j < |vRandom|;
      var id1, id2 := vRandom[i], vRandom[j];
      assert id1 in Places(mapInfo) && id2 in Places(mapInfo);
      var info1, info2 := mapInfo[id1], mapInfo[id2];
      mapInfo := mapInfo[id1 := info1.(randomPos := j)];
      mapInfo := mapInfo[id2 := info2.(randomPos := i)];
      vRandom := vRandom[i := id2];
      vRandom := vRandom[j := id1];
    }

    /** Remove an entry that stands last in vRandom from every index. */
    method Unlink(id: int)
      requires id in mapInfo && |vRandom| > 0
      modifies `vRandom, `mapAddr, `mapInfo, `nNew, `networkCounts
      ensures Snap() == AddrManState.Unlink(env, old(Snap()), id)
    {
      Bumped(NetOf(env, mapInfo[id].addr), -1, 0);
      vRandom := vRandom[..|vRandom| - 1];
      mapAddr := mapAddr - {mapInfo[id].addr};
      mapInfo := mapInfo - {id};
      nNew := nNew - 1;
    }

    method Delete(id: int)
      requires Shaped() && RandomIndexed(Places(mapInfo), vRandom)
      requires id in mapInfo && !mapInfo[id].inTried && mapInfo[id].refCount == 0
      modifies this
      ensures Snap() == AddrManState.Delete(env, old(Snap()), id)
    {
      ghost var before := Snap();
      PlaceOf(before, id);
      SwapFrame(before, before.At(id).randomPos, before.LastPlace(), id);
      SwapRandom(mapInfo[id].randomPos, |vRandom| - 1);
      Unlink(id);
    }

    /** Take the reference at an occupied slot of the new table away. */
    method DropRefAt(bucket: nat, pos: nat)
      requires Shaped() && bucket < NEW_BUCKET_COUNT && pos < BUCKET_SIZE
      requires vvNew[bucket, pos] != VACANT && vvNew[bucket, pos] in mapInfo
      modifies `mapInfo, vvNew
      ensures Slot(bucket, pos) in old(Table(vvNew)) && old(Table(vvNew))[Slot(bucket, pos)] == old(vvNew[bucket, pos])
      ensures Snap() == DropRef(old(Snap()), Slot(bucket, pos))
    {
      var id := vvNew[bucket, pos];
      mapInfo := mapInfo[id := mapInfo[id].OneRefLess()];
      SetNew(bucket, pos, VACANT);
    }

    method ClearNew(bucket: nat, pos: nat, ghost limbo: set<int>, ghost pending: set<int>)
      requires Shaped() && bucket < NEW_BUCKET_COUNT && pos < BUCKET_SIZE
      requires Core(env, Snap(), limbo, pending)
      modifies this, vvNew
      ensures Snap() == AddrManState.ClearNew(env, old(Snap()), Slot(bucket, pos))
      ensures vvNew[bucket, pos] == VACANT
    {
      ghost var before, k := Snap(), Slot(bucket, pos);
      TableAt(vvNew, bucket, pos);
      if vvNew[bucket, pos] != VACANT {
        var id := vvNew[bucket, pos];
        RefTarget(env, before, k, limbo, pending);
        assert mapInfo[id].refCount > 0;
        DropRefAt(bucket, pos);
        DropRefKeepsCore(env, before, k, limbo, pending);
        if mapInfo[id].refCount == 0 {
          Delete(id);
        }
      }
      ClearNewFrame(env, before, k);
      TableAt(vvNew, bucket, pos);
    }

    /** The scan of MakeTried over the new buckets. */
    method ScanNew(id: int)
      requires Shaped() && id in mapInfo && id >= 0
      modifies `mapInfo, vvNew
      ensures Snap() == AddrManState.ScanNew(env, old(Snap()), id,
                                             NewBucket(env, nKey, old(mapInfo[id]).addr, old(mapInfo[id]).source), 0)
    {
      var info := mapInfo[id];
      var startBucket := NewBucket(env, nKey, info.addr, info.source);
      ghost var goal := AddrManState.ScanNew(env, Snap(), id, startBucket, 0);
      var n := 0;
      while n < NEW_BUCKET_COUNT
        invariant n <= NEW_BUCKET_COUNT && id in mapInfo && mapInfo[id].addr == info.addr
        invariant AddrManState.ScanNew(env, Snap(), id, startBucket, n) == goal
      {
        var next := n + 1;
        var bucket := Wrap(startBucket, n);
        var pos := env.position(nKey, true, bucket, info.addr);
        TableAt(vvNew, bucket, pos);
        ScanUnfold(env, Snap(), id, startBucket, n, Slot(bucket, pos), next);
        if vvNew[bucket, pos] == id {
          DropRefAt(bucket, pos);
          if mapInfo[id].refCount == 0 {
            assert Snap() == goal;
            break;
          }
          assert AddrManState.ScanNew(env, Snap(), id, startBucket, next) == goal;
        } else {
          assert AddrManState.ScanNew(env, Snap(), id, startBucket, next) == goal;
        }
        n := next;
      }
    }

    // The four groups of assignments of MakeTried.

    method LeaveCounts(id: int)
      requires id in mapInfo
      modifies `nNew, `networkCounts
      ensures Snap() == Uncount(env, old(Snap()), id)
    {
      nNew := nNew - 1;
      Bumped(NetOf(env, mapInfo[id].addr), -1, 0);
    }

    method VacateAt(bucket: nat, pos: nat)
      requires Shaped() && bucket < TRIED_BUCKET_COUNT && pos < BUCKET_SIZE
      requires vvTried[bucket, pos] != VACANT && vvTried[bucket, pos] in mapInfo
      modifies `mapInfo, `nTried, `networkCounts, vvTried
      ensures Snap() == VacateTried(env, old(Snap()), Slot(bucket, pos))
    {
      TableAt(vvTried, bucket, pos);
      var evictee := vvTried[bucket, pos];
      mapInfo := mapInfo[evictee := mapInfo[evictee].(inTried := false)];
      SetTried(bucket, pos, VACANT);
      nTried := nTried - 1;
      Bumped(NetOf(env, mapInfo[evictee].addr), 0, -1);
    }

    method ReturnTo(bucket: nat, pos: nat, evictee: int)
      requires Shaped() && bucket < NEW_BUCKET_COUNT && pos < BUCKET_SIZE
      requires evictee in mapInfo && evictee != VACANT
      modifies `mapInfo, `nNew, `networkCounts, vvNew
      ensures Snap() == Recount(env, old(Snap()), Slot(bucket, pos), evictee)
    {
      mapInfo := mapInfo[evictee := mapInfo[evictee].(refCount := 1)];
      SetNew(bucket, pos, evictee);
      nNew := nNew + 1;
      Bumped(NetOf(env, mapInfo[evictee].addr), 1, 0);
    }

    method OccupyAt(bucket: nat, pos: nat, id: int)
      requires Shaped() && bucket < TRIED_BUCKET_COUNT && pos < BUCKET_SIZE
      requires id in mapInfo && id != VACANT
      modifies `mapInfo, `nTried, `networkCounts, vvTried
      ensures Snap() == OccupyTried(env, old(Snap()), Slot(bucket, pos), id)
    {
      SetTried(bucket, pos, id);
      nTried := nTried + 1;
      mapInfo := mapInfo[id := mapInfo[id].(inTried := true)];
      Bumped(NetOf(env, mapInfo[id].addr), 0, 1);
    }

    /** The eviction in MakeTried: the tried entry at an occupied slot goes back
        to the new table, displacing whatever is in its place there. */
    method EvictTried(bucket: nat, pos: nat, ghost id: int)
      requires Shaped() && bucket < TRIED_BUCKET_COUNT && pos < BUCKET_SIZE
      requires Core(env, Snap(), {id}, {}) && vvTried[bucket, pos] != VACANT
      modifies this, vvNew, vvTried
      ensures Snap() == AddrManState.EvictTried(env, old(Snap()), Slot(bucket, pos))
    {
      var evictee := vvTried[bucket, pos];
      ghost var before, k := Snap(), Slot(bucket, pos);
      TableAt(vvTried, bucket, pos);
      TriedTarget(env, before, k, {id}, {});
      assert evictee in mapInfo;
      VacateAt(bucket, pos);
      VacateKeepsCore(env, before, k, {id}, {});
      SendHome(evictee, {id} + {evictee});
    }

    /** An entry in neither table goes back to its own slot of the new table. */
    method SendHome(evictee: int, ghost limbo: set<int>)
      requires Shaped() && Core(env, Snap(), limbo, {}) && evictee in limbo && evictee in mapInfo
      modifies this, vvNew
      ensures var s := old(Snap());
              var home := NewSlot(env, s.key, s.At(evictee).addr, s.At(evictee).source);
              Snap() == Recount(env, AddrManState.ClearNew(env, s, home), home, evictee)
    {
      ghost var before := Snap();
      var uBucket := NewBucket(env, nKey, mapInfo[evictee].addr, mapInfo[evictee].source);
      var uPos := env.position(nKey, true, uBucket, mapInfo[evictee].addr);
      ClearNew(uBucket, uPos, limbo, {});
      assert vvNew[uBucket, uPos] == VACANT;
      assert evictee in mapInfo && evictee >= 0 by {
        ClearNewKeepsCore(env, before, Slot(uBucket, uPos), limbo, {});
        LimboTarget(env, Snap(), evictee, limbo, {});
        assert evictee in Addrs(mapInfo).Keys;
      }
      ReturnTo(uBucket, uPos, evictee);
    }

    /** The first half of MakeTried: out of the new table and its counts. */
    method LeaveNew(id: int)
      requires Valid() && id in mapInfo && !mapInfo[id].inTried && mapInfo[id].refCount > 0
      modifies `mapInfo, `nNew, `networkCounts, vvNew
      ensures Snap() == AddrManOperations.LeaveNew(env, old(Snap()), id)
      ensures Core(env, Snap(), {id}, {}) && id in mapInfo && id >= 0 && mapInfo[id].refCount == 0
      ensures mapInfo[id].addr == old(mapInfo[id].addr)
    {
      LeaveNewFacts(env, Snap(), id);
      ScanNew(id);
      LeaveCounts(id);
    }

    /** Make room in the tried table for `id`. */
    method ClearTried(bucket: nat, pos: nat, ghost id: int)
      requires Shaped() && bucket < TRIED_BUCKET_COUNT && pos < BUCKET_SIZE && Core(env, Snap(), {id}, {})
      modifies this, vvNew, vvTried
      ensures Snap() == AddrManState.EvictTried(env, old(Snap()), Slot(bucket, pos))
      ensures vvTried[bucket, pos] == VACANT && id in mapInfo
    {
      ghost var before := Snap();
      TableAt(vvTried, bucket, pos);
      if vvTried[bucket, pos] != VACANT {
        EvictTried(bucket, pos, id);
      }
      EvictFrame(env, before, Slot(bucket, pos));
      TableAt(vvTried, bucket, pos);
      assert id in mapInfo by {
        EvictKeepsCore(env, before, Slot(bucket, pos), id);
        LimboTarget(env, Snap(), id, {id}, {});
      }
    }

    method MakeTried(id: int)
      requires Valid() && id in mapInfo && !mapInfo[id].inTried && mapInfo[id].refCount > 0
      modifies this, vvNew, vvTried
      ensures Snap() == AddrManState.MakeTried(env, old(Snap()), id)
    {
      var kBucket := env.triedBucket(nKey, mapInfo[id].addr);
      var kPos := env.position(nKey, false, kBucket, mapInfo[id].addr);
      MakeTriedIs(env, Snap(), id, Slot(kBucket, kPos));
      LeaveNew(id);
      EnterTried(kBucket, kPos, id);
    }

    /** The second half of MakeTried: whoever has the slot gives way. */
    method EnterTried(bucket: nat, pos: nat, id: int)
      requires Shaped() && bucket < TRIED_BUCKET_COUNT && pos < BUCKET_SIZE && id >= 0 && Core(env, Snap(), {id}, {})
      modifies this, vvNew, vvTried
      ensures var k := Slot(bucket, pos);
              Snap() == OccupyTried(env, AddrManState.EvictTried(env, old(Snap()), k), k, id)
    {
      ClearTried(bucket, pos, id);
      OccupyAt(bucket, pos, id);
    }

    function Find(a: Service): Option<int>
      reads this
    {
      if a in mapAddr && mapAddr[a] in mapInfo then Some(mapAddr[a]) else None
    }

    method AddRefAt(bucket: nat, pos: nat, id: int)
      requires Shaped() && bucket < NEW_BUCKET_COUNT && pos < BUCKET_SIZE
      requires id in mapInfo && id != VACANT
      modifies `mapInfo, vvNew
      ensures Snap() == AddRef(old(Snap()), Slot(bucket, pos), id)
    {
      mapInfo := mapInfo[id := mapInfo[id].OneRefMore()];
      SetNew(bucket, pos, id);
    }

    /** The second half of AddSingle. */
    method Place(id: int, source: NetAddr, now: int) returns (inserted: bool)
      requires Shaped() && Core(env, Snap(), {}, {id}) && id in mapInfo && !mapInfo[id].inTried
      modifies this, vvNew
      ensures (Snap(), inserted) == AddrManState.Place(env, old(Snap()), id, source, now)
    {
      ghost var before := Snap();
      assert id in Addrs(mapInfo).Keys;
      var bucket := NewBucket(env, nKey, mapInfo[id].addr, source);
      var pos := env.position(nKey, true, bucket, mapInfo[id].addr);
      ghost var k := Slot(bucket, pos);
      TableAt(vvNew, bucket, pos);
      inserted := vvNew[bucket, pos] == VACANT;
      if vvNew[bucket, pos] != id {
        if !inserted {
          RefTarget(env, before, k, {}, {id});
          var existing := mapInfo[vvNew[bucket, pos]];
          if existing.IsTerrible(now) || (existing.refCount > 1 && mapInfo[id].refCount == 0) {
            inserted := true;
          }
        }
        if inserted {
          ClearNewFrame(env, before, k);
          assert id in AddrManState.ClearNew(env, before, k).mapInfo by {
            if k in before.vvNew { ClearNewEntry(env, before, k, id);
          }
          }
          ClearNew(bucket, pos, {}, {id});
          AddRefAt(bucket, pos, id);
          assert (Snap(), inserted) == AddrManState.Place(env, before, id, source, now);
        } else if mapInfo[id].refCount == 0 {
          Delete(id);
          assert (Snap(), inserted) == AddrManState.Place(env, before, id, source, now);
        } else {
          assert (Snap(), inserted) == AddrManState.Place(env, before, id, source, now);
        }
      }
    }

    method AddSingle(a: Address, source: NetAddr, timePenalty: int, now: int, draw: nat) returns (ok: bool)
      requires Valid()
      modifies this, vvNew
      ensures Valid() && Later(old(Snap()), Snap())
      ensures (Snap(), ok) == AddrManState.AddSingle(env, old(Snap()), a, source, timePenalty, now, draw)
    {
      ghost var before := Snap();
      AddSingleKeepsInv(env, before, a, source, timePenalty, now, draw);
      FindFinds(env, before, a.service);
      if !IsRoutable(env, a.service) { return false; }
      var found := Find(a.service);
      var penalty := if a.service.ip == source then 0 else timePenalty;
      if found.Some? {
        ok := AddAgain(found.value, a, source, penalty, now, draw);
      } else {
        ok := AddNew(a, source, penalty, now);
      }
    }

    method AddAgain(id: int, a: Address, source: NetAddr, penalty: int, now: int, draw: nat) returns (ok: bool)
      requires Valid() && id in mapInfo
      modifies this, vvNew
      ensures (Snap(), ok) == AddrManState.AddAgain(env, old(Snap()), id, a, source, penalty, now, draw)
    {
      ghost var before := Snap();
      SaneEntry(env, before, id);
      TouchKeepsInv(env, before, id, Refreshed(before.At(id), a, penalty, now));
      mapInfo := mapInfo[id := Refreshed(mapInfo[id], a, penalty, now)];
      if !MayGainRef(mapInfo[id], a, draw) { return false; }
      PendingMore(env, Snap(), {}, {}, {id});
      ok := Place(id, source, now);
    }

    method CreatePenalized(a: Address, source: NetAddr, penalty: int) returns (id: int)
      requires Shaped()
      modifies this
      ensures id == old(nIdCount)
      ensures var t := AddrManState.Create(env, old(Snap()), a, source);
              Snap() == t.With(id, Penalized(t.At(id), penalty))
    {
      id := Create(a, source);
      mapInfo := mapInfo[id := Penalized(mapInfo[id], penalty)];
    }

    method AddNew(a: Address, source: NetAddr, penalty: int, now: int) returns (ok: bool)
      requires Valid() && a.service !in mapAddr && IsRoutable(env, a.service)
      modifies this, vvNew
      ensures (Snap(), ok) == AddrManState.AddNew(env, old(Snap()), a, source, penalty, now)
    {
      CreatePendingKeepsCore(env, Snap(), a, source, penalty);
      var id := CreatePenalized(a, source, penalty);
      ok := Place(id, source, now);
    }

    method Add(addrs: seq<Address>, source: NetAddr, timePenalty: int, now: int, draws: nat -> nat) returns (any: bool)
      requires Valid()
      modifies this, vvNew
      ensures Valid() && Later(old(Snap()), Snap())
      ensures var (t, added) := AddrManState.Add(env, old(Snap()), addrs, source, timePenalty, now, draws);
              Snap() == t && any == (added > 0)
    {
      var added := 0;
      assert addrs[..0] == [];
      Stays(env, Snap());
      for i := 0 to |addrs|
        invariant Valid() && Later(old(Snap()), Snap())
        invariant (Snap(), added) == AddrManState.Add(env, old(Snap()), addrs[..i], source, timePenalty, now, draws)
      {
        ghost var t := Snap();
        AddUnfold(env, old(Snap()), addrs, i, source, timePenalty, now, draws, t, added);
        var ok := AddSingle(addrs[i], source, timePenalty, now, draws(i));
        added := if ok then added + 1 else added;
        assert (Snap(), added) == AddrManState.Add(env, old(Snap()), addrs[..i + 1], source, timePenalty, now, draws);
        LaterTransitive(old(Snap()), t, Snap());
      }
      assert addrs[..|addrs|] == addrs;
      any := added > 0;
    }

    // The statistics of a successful contact.
    method Reach(id: int, time: int)
      requires id in mapInfo
      modifies `lastGood, `mapInfo
      ensures Snap() == Reached(old(Snap()), id, time) && id in mapInfo
    {
      lastGood := time;
      mapInfo := mapInfo[id := Succeeded(mapInfo[id], time)];
    }

    method GoodLocked(a: Service, testBeforeEvict: bool, time: int) returns (moved: bool)
      requires Valid() && time > 0
      modifies this, vvNew, vvTried
      ensures (Snap(), moved) == AddrManState.Good(env, old(Snap()), a, testBeforeEvict, time)
    {
      GoodIs(env, Snap(), a, testBeforeEvict, time);
      var found := Find(a);
      if found.None? {
        lastGood := time;
        return false;
      }
      ReachedInv(env, Snap(), a, time);
      Reach(found.value, time);
      moved := Promote(found.value, testBeforeEvict);
    }

    method Good(a: Service, time: int) returns (moved: bool)
      requires Valid() && time > 0
      modifies this, vvNew, vvTried
      ensures Valid() && Later(old(Snap()), Snap())
      ensures (Snap(), moved) == AddrManState.Good(env, old(Snap()), a, true, time)
    {
      GoodKeepsInv(env, Snap(), a, true, time);
      moved := GoodLocked(a, true, time);
    }

    /** Good_, once the entry is found and its statistics are updated. */
    method Promote(id: int, testBeforeEvict: bool) returns (moved: bool)
      requires Valid() && id in mapInfo
      modifies this, vvNew, vvTried
      ensures (Snap(), moved) == AddrManState.Promote(env, old(Snap()), id, testBeforeEvict)
    {
      moved := false;
      if !mapInfo[id].inTried && mapInfo[id].refCount > 0 {
        var bucket := env.triedBucket(nKey, mapInfo[id].addr);
        var pos := env.position(nKey, false, bucket, mapInfo[id].addr);
        TableAt(vvTried, bucket, pos);
        PromoteIs(env, Snap(), id, testBeforeEvict, Slot(bucket, pos));
        if testBeforeEvict && vvTried[bucket, pos] != VACANT {
          if |triedCollisions| < TRIED_COLLISION_SIZE { triedCollisions := triedCollisions + {id}; }
        } else {
          MakeTried(id);
          moved := true;
        }
      }
    }

    method AttemptLocked(a: Service, countFailure: bool, time: int)
      modifies `mapInfo
      ensures Snap() == AddrManState.Attempt(old(Snap()), a, countFailure, time)
    {
      var found := Find(a);
      if found.Some? {
        var info := mapInfo[found.value].(lastTry := time);
        if countFailure && info.lastCountAttempt < lastGood {
          info := info.(lastCountAttempt := time);
          info := info.(attempts := info.attempts + 1);
        }
        assert info == Attempted(mapInfo[found.value], lastGood, countFailure, time);
        mapInfo := mapInfo[found.value := info];
      }
    }

    method Attempt(a: Service, countFailure: bool, time: int)
      requires Valid() && time >= 0
      modifies this
      ensures Valid() && Later(old(Snap()), Snap())
      ensures Snap() == AddrManState.Attempt(old(Snap()), a, countFailure, time)
    {
      AttemptKeepsInv(env, Snap(), a, countFailure, time);
      AttemptLocked(a, countFailure, time);
    }

    method ConnectedLocked(a: Service, time: int)
      modifies `mapInfo
      ensures Snap() == AddrManState.Connected(old(Snap()), a, time)
    {
      var found := Find(a);
      if found.Some? {
        var info := mapInfo[found.value];
        if time - info.time > 20 * MINUTE { info := info.(time := time); }
        assert info == Seen(mapInfo[found.value], time);
        mapInfo := mapInfo[found.value := info];
      }
    }

    method Connected(a: Service, time: int)
      requires Valid()
      modifies this
      ensures Valid() && Later(old(Snap()), Snap())
      ensures Snap() == AddrManState.Connected(old(Snap()), a, time)
    {
      ConnectedKeepsInv(env, Snap(), a, time);
      ConnectedLocked(a, time);
    }

    method SetServicesLocked(a: Service, services: set<nat>)
      modifies `mapInfo
      ensures Snap() == AddrManState.SetServices(old(Snap()), a, services)
    {
      var found := Find(a);
      if found.Some? {
        mapInfo := mapInfo[found.value := mapInfo[found.value].(services := services)];
      }
    }

    method SetServices(a: Service, services: set<nat>)
      requires Valid()
      modifies this
      ensures Valid() && Later(old(Snap()), Snap())
      ensures Snap() == AddrManState.SetServices(old(Snap()), a, services)
    {
      SetServicesKeepsInv(env, Snap(), a, services);
      SetServicesLocked(a, services);
    }

    /** The decision of ResolveCollisions_ about one collision. */
    method JudgeCollision(id: int, now: int) returns (verdict: Verdict)
      requires Valid() && id in triedCollisions
      ensures verdict == Judge(env, Snap(), id, now) && verdict != Vacant
    {
      CollisionStillCollides(env, Snap(), id, now);
      if id !in mapInfo { return Forget; }
      var info := mapInfo[id];
      var bucket := env.triedBucket(nKey, info.addr);
      var pos := env.position(nKey, false, bucket, info.addr);
      TableAt(vvTried, bucket, pos);
      if !IsValidAddr(env, info.addr) { return Forget; }
      if vvTried[bucket, pos] == VACANT {
        // The branch for a collision that is not a collision anymore.
        assert false;
      }
      assert vvTried[bucket, pos] in mapInfo by { TriedTarget(env, Snap(), Slot(bucket, pos), {}, {}); }
      var older := mapInfo[vvTried[bucket, pos]];
      if now - older.lastSuccess < REPLACEMENT { return Forget; }
      if now - older.lastTry < REPLACEMENT {
        if now - older.lastTry > 60 { return Replace; }
      } else if now - info.lastSuccess > TEST_WINDOW {
        return Replace;
      }
      return Wait;
    }

    /** One round of the loop of ResolveCollisions_. */
    method ResolveOne(id: int, now: int)
      requires Valid() && id in triedCollisions && now > 0
      modifies this, vvNew, vvTried
      ensures Valid() && Snap() == AddrManState.ResolveOne(env, old(Snap()), id, now)
    {
      ghost var before := Snap();
      ResolveOneKeepsInv(env, before, id, now);
      var verdict := JudgeCollision(id, now);
      if verdict == Replace {
        var _ := GoodLocked(mapInfo[id].addr, false, now);
      }
      if verdict != Wait {
        triedCollisions := triedCollisions - {id};
      }
      assert Snap() == AddrManState.ResolveOne(env, before, id, now);
    }

    method ResolveLocked(clock: int -> int)
      requires Valid() && forall id :: clock(id) > 0
      modifies this, vvNew, vvTried
      ensures Snap() == Resolve(env, old(Snap()), Ascending(old(triedCollisions)), clock)
    {
      ghost var goal := Resolve(env, Snap(), Ascending(triedCollisions), clock);
      var rest := triedCollisions;
      while |rest| != 0
        invariant Valid() && rest <= triedCollisions
        invariant Resolve(env, Snap(), Ascending(rest), clock) == goal
      {
        ghost var least := MinOf(rest);
        var id :| id in rest && forall x :: x in rest ==> id <= x;
        ResolveNext(env, Snap(), rest, id, clock);
        ResolveOne(id, clock(id));
        rest := rest - {id};
      }
    }

    method ResolveCollisions(clock: int -> int)
      requires Valid() && forall id :: clock(id) > 0
      modifies this, vvNew, vvTried
      ensures Valid() && Later(old(Snap()), Snap())
      ensures Snap() == Resolve(env, old(Snap()), Ascending(old(triedCollisions)), clock)
      ensures Brief(clock) ==> Outcome(env, old(Snap()), Snap(), clock, old(triedCollisions))
    {
      if Brief(clock) { ResolveSettles(env, Snap(), clock); }
      ResolveKeepsInv(env, Snap(), Ascending(triedCollisions), clock);
      ResolveLocked(clock);
    }

    /** The entry that a collision chosen at random would evict. */
    method SelectTriedCollision(choice: int) returns (r: Option<Info>)
      requires Valid() && (triedCollisions != {} ==> choice in triedCollisions)
      modifies `triedCollisions
      ensures Valid() && Later(old(Snap()), Snap())
      ensures r.Some? <==> choice in old(triedCollisions) && choice in mapInfo
      ensures r.Some? ==> exists id :: id in mapInfo && mapInfo[id] == r.value && r.value.inTried
                                    && TriedSlot(env, nKey, r.value.addr) == TriedSlot(env, nKey, mapInfo[choice].addr)
      ensures Snap() == AddrManState.SelectTriedCollision(env, old(Snap()), choice).0
    {
      ghost var before := Snap();
      SelectReadsTried(env, before, choice);
      if triedCollisions == {} { return None; }
      if choice !in mapInfo {
        triedCollisions := triedCollisions - {choice};
        return None;
      }
      var info := mapInfo[choice];
      var bucket := env.triedBucket(nKey, info.addr);
      var pos := env.position(nKey, false, bucket, info.addr);
      TableAt(vvTried, bucket, pos);
      TriedTarget(env, before, Slot(bucket, pos), {}, {});
      return Some(mapInfo[vvTried[bucket, pos]]);
    }

    method GetAddrLocked(limit: nat, network: Option<Network>, filtered: bool, now: int, draws: nat -> nat)
      returns (picked: seq<int>)
      requires RandomIndexed(Places(mapInfo), vRandom)
      modifies `mapInfo, `vRandom
      ensures (Snap(), picked) == GetAddrFrom(env, old(Snap()), 0, limit, network, filtered, now, draws, [])
    {
      ghost var goal := GetAddrFrom(env, Snap(), 0, limit, network, filtered, now, draws, []);
      picked := [];
      var n := 0;
      while n < |vRandom| && |picked| < limit
        invariant n <= |vRandom| && RandomIndexed(Places(mapInfo), vRandom)
        invariant GetAddrFrom(env, Snap(), n, limit, network, filtered, now, draws, picked) == goal
        decreases |vRandom| - n
      {
        ghost var s := Snap();
        var j := DrawFrom(|vRandom|, n, draws);
        var next := n + 1;
        GetAddrUnfold(env, s, n, limit, network, filtered, now, draws, picked, next);
        RandomSwapped(s, n, j);
        SwapRandom(n, j);
        assert vRandom[n] in Places(mapInfo);
        ghost var more := PickNext(env, Snap(), n, network, filtered, now, picked);
        if Wanted(env, mapInfo[vRandom[n]], network, filtered, now) {
          picked := picked + [vRandom[n]];
        }
        assert picked == more;
        n := next;
      }
    }

    method GetAddr(maxAddresses: nat, maxPct: nat, network: Option<Network>, filtered: bool, now: int,
                   draws: nat -> nat)
      returns (addresses: seq<Address>)
      requires Valid()
      modifies `mapInfo, `vRandom
      ensures Valid() && Later(old(Snap()), Snap())
      ensures exists picked :: Addressed(mapInfo, picked, addresses) &&
                GotAddrs(env, Snap(), |old(vRandom)|, AddrLimit(|old(vRandom)|, maxAddresses, maxPct),
                         network, filtered, now, picked, true) &&
                (|picked| < AddrLimit(|old(vRandom)|, maxAddresses, maxPct) ==>
                   MissesNone(env, Snap(), |old(vRandom)|, network, filtered, now, picked))
    {
      ghost var before := Snap();
      var limit := LimitFor(|vRandom|, maxAddresses, maxPct);
      Stays(env, before);
      GetAddrKeepsInv(env, before, before, 0, limit, network, filtered, now, draws, []);
      GetAddrCollects(env, before, 0, limit, network, filtered, now, draws, []);
      var picked := GetAddrLocked(limit, network, filtered, now, draws);
      PickedLive(env, Snap(), |before.vRandom|, network, filtered, now, picked);
      addresses := CopyAddresses(mapInfo, picked);
    }
  }
}
