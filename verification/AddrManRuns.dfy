/**
 Runs of the address manager. Whatever sequence of calls is made, with whatever
 random numbers, clock readings and addresses, the indexes agree after every
 call and the tried table only fills up.
 */
module AddrManRuns {
  import opened AddrManInvariant
  import opened AddrManOperations
  import opened AddrManState
  import opened AddrManSteps
  import opened Helpers

  lemma SameTables(s: State, t: State)
    requires t.key == s.key && t.nIdCount == s.nIdCount && t.nTried == s.nTried && t.vvTried == s.vvTried
    requires forall id :: id in t.mapInfo ==> SameName(s, t, id)
    ensures Later(s, t)
  {
    SameNameIds(s, t);
  }

  lemma Stays(e: Env, s: State)
    requires Inv(e, s)
    ensures Advances(e, s, s)
  {
    SameTables(s, s);
  }

  /** A rewrite of the bookkeeping of one entry. */
  lemma TouchKeepsInv(e: Env, s: State, id: int, info: Info)
    requires Inv(e, s) && id in s.mapInfo && SaneTimes(info)
    requires SameIndexing(info, s.mapInfo[id])
    ensures Advances(e, s, s.With(id, info))
  {
    TouchKeepsCore(e, s, id, info, {}, {});
    SameTables(s, s.With(id, info));
    LaterKeepsCollisions(e, s, s.With(id, info));
  }

  lemma SaneEntry(e: Env, s: State, id: int)
    requires EntriesSane(e, s.mapInfo) && id in s.mapInfo
    ensures IsValidAddr(e, s.mapInfo[id].addr) && SaneTimes(s.mapInfo[id])
  {
  }

  lemma FindFinds(e: Env, s: State, a: Service)
    requires AddrIndexed(Addrs(s.mapInfo), s.mapAddr)
    ensures s.Find(a).Some? <==> a in s.mapAddr
    ensures s.Find(a).Some? ==> s.Find(a).value in s.mapInfo && s.mapInfo[s.Find(a).value].addr == a
  {
    if a in s.mapAddr {
      assert s.mapAddr[a] in Addrs(s.mapInfo);
    }
  }

  // ----- AddSingle

  lemma PlaceKeepsInv(e: Env, s: State, t: State, id: int, source: NetAddr, now: int)
    requires CollisionsHeld(e, s) && Later(s, t) && t.collisions == s.collisions
    requires Core(e, t, {}, {id}) && id in t.mapInfo && !t.mapInfo[id].inTried
    requires t.mapInfo[id].refCount < NEW_BUCKETS_PER_ADDRESS
    ensures var u := Place(e, t, id, source, now).0; Advances(e, s, u)
  {
    var u := Place(e, t, id, source, now).0;
    PlaceKeepsCore(e, t, id, source, now);
    PlaceFrame(e, t, id, source, now);
    forall other | other in u.mapInfo ensures SameName(t, u, other) {
      PlaceOrigin(e, t, id, source, now, other);
    }
    SameTables(t, u);
    LaterTransitive(s, t, u);
    LaterKeepsCollisions(e, s, u);
  }

  lemma CreateLater(e: Env, s: State, a: Address, source: NetAddr)
    requires IdsBelow(Addrs(s.mapInfo).Keys, s.nIdCount)
    ensures Later(s, Create(e, s, a, source))
  {
    FieldsOfUpdate(s.mapInfo, s.nIdCount, FreshInfo(a, source).(randomPos := |s.vRandom|));
  }

  lemma CreatePendingKeepsCore(e: Env, s: State, a: Address, source: NetAddr, penalty: int)
    requires Inv(e, s) && a.service !in s.mapAddr && IsValidAddr(e, a.service)
    ensures var t, id := Create(e, s, a, source), s.nIdCount;
            var u := t.With(id, Penalized(t.At(id), penalty));
            && Core(e, u, {}, {id}) && Later(s, u) && u.collisions == s.collisions
            && id in u.mapInfo && !u.mapInfo[id].inTried && u.mapInfo[id].refCount == 0
  {
    var t, id := Create(e, s, a, source), s.nIdCount;
    assert id in t.mapInfo && t.At(id) == FreshInfo(a, source).(randomPos := |s.vRandom|);
    var info := Penalized(t.At(id), penalty);
    assert Core(e, t, {}, {id}) by {
      assert {} + {id} == {id};
      CreateKeepsCore(e, s, a, source, {});
    }
    assert Later(s, t.With(id, info)) by {
      CreateLater(e, s, a, source);
      TouchLater(s, t, id, info);
    }
    assert Core(e, t.With(id, info), {}, {id}) by { TouchKeepsCore(e, t, id, info, {}, {id}); }
  }

  lemma TouchLater(s: State, t: State, id: int, info: Info)
    requires Later(s, t) && id in t.mapInfo && info.addr == t.mapInfo[id].addr
    ensures Later(s, t.With(id, info))
  {
    SameTables(t, t.With(id, info));
    LaterTransitive(s, t, t.With(id, info));
  }

  lemma AddNewKeepsInv(e: Env, s: State, a: Address, source: NetAddr, penalty: int, now: int)
    requires Inv(e, s) && a.service !in s.mapAddr && IsValidAddr(e, a.service)
    ensures var t := AddNew(e, s, a, source, penalty, now).0; Advances(e, s, t)
  {
    var t, id := Create(e, s, a, source), s.nIdCount;
    CreatePendingKeepsCore(e, s, a, source, penalty);
    PlaceKeepsInv(e, s, t.With(id, Penalized(t.At(id), penalty)), id, source, now);
  }

  lemma AddAgainKeepsInv(e: Env, s: State, id: int, a: Address, source: NetAddr, penalty: int, now: int, draw: nat)
    requires Inv(e, s) && id in s.mapInfo
    ensures var t := AddAgain(e, s, id, a, source, penalty, now, draw).0; Advances(e, s, t)
  {
    var info := Refreshed(s.At(id), a, penalty, now);
    var t := s.With(id, info);
    SaneEntry(e, s, id);
    TouchKeepsInv(e, s, id, info);
    if MayGainRef(info, a, draw) {
      RefCountOf(e, t, id, {}, {});
      PendingMore(e, t, {}, {}, {id});
      PlaceKeepsInv(e, s, t, id, source, now);
    }
  }

  lemma AddSingleKeepsInv(e: Env, s: State, a: Address, source: NetAddr, timePenalty: int, now: int, draw: nat)
    requires Inv(e, s)
    ensures var t := AddSingle(e, s, a, source, timePenalty, now, draw).0; Advances(e, s, t)
  {
    var penalty := if a.service.ip == source then 0 else timePenalty;
    FindFinds(e, s, a.service);
    if !IsRoutable(e, a.service) {
      Stays(e, s);
    } else if s.Find(a.service).Some? {
      AddAgainKeepsInv(e, s, s.Find(a.service).value, a, source, penalty, now, draw);
    } else {
      AddNewKeepsInv(e, s, a, source, penalty, now);
    }
  }

  lemma {:induction false} AddKeepsInv(e: Env, s: State, addrs: seq<Address>, source: NetAddr, timePenalty: int,
                                       now: int, draws: nat -> nat)
    requires Inv(e, s)
    ensures var t := Add(e, s, addrs, source, timePenalty, now, draws).0; Advances(e, s, t)
  {
    if |addrs| > 0 {
      var n := |addrs| - 1;
      AddKeepsInv(e, s, addrs[..n], source, timePenalty, now, draws);
      var t := Add(e, s, addrs[..n], source, timePenalty, now, draws).0;
      AddSingleKeepsInv(e, t, addrs[n], source, timePenalty, now, draws(n));
      LaterTransitive(s, t, AddSingle(e, t, addrs[n], source, timePenalty, now, draws(n)).0);
    }
  }

  // ----- Good and the resolution of collisions

  lemma MakeTriedKeepsInv(e: Env, s: State, id: int)
    requires Inv(e, s) && id in s.mapInfo && !s.mapInfo[id].inTried && s.mapInfo[id].refCount > 0
    requires s.mapInfo[id].lastSuccess > 0
    ensures var t := MakeTried(e, s, id); Advances(e, s, t) && t.collisions == s.collisions
  {
    MakeTriedKeepsCore(e, s, id);
    MakeTriedFrame(e, s, id);
    MakeTriedLater(e, s, id);
    LaterKeepsCollisions(e, s, MakeTried(e, s, id));
  }

  lemma PromoteKeepsInv(e: Env, s: State, id: int, testBeforeEvict: bool)
    requires Inv(e, s) && id in s.mapInfo && s.mapInfo[id].lastSuccess > 0
    ensures var t := Promote(e, s, id, testBeforeEvict).0;
            Advances(e, s, t) && (!testBeforeEvict ==> t.collisions == s.collisions)
  {
    var info, t := s.At(id), Promote(e, s, id, testBeforeEvict).0;
    if info.inTried || info.refCount <= 0 {
      Stays(e, s);
      assert Advances(e, s, t);
    } else if testBeforeEvict && TriedSlot(e, s.key, info.addr) in s.vvTried {
      if |s.collisions| < TRIED_COLLISION_SIZE {
        CollisionAdded(e, s, id);
        assert Advances(e, s, t);
      } else {
        Stays(e, s);
        assert Advances(e, s, t);
      }
    } else {
      MakeTriedKeepsInv(e, s, id);
      assert Advances(e, s, t);
    }
  }

  lemma CollisionAdded(e: Env, s: State, id: int)
    requires Inv(e, s) && id in s.mapInfo && TriedSlot(e, s.key, s.mapInfo[id].addr) in s.vvTried
    requires |s.collisions| < TRIED_COLLISION_SIZE
    ensures Advances(e, s, Collide(s, id))
  {
    SameTables(s, Collide(s, id));
    assert id in Addrs(s.mapInfo).Keys;
    CollisionsGrow(e, s, id);
  }

  lemma CollisionsGrow(e: Env, s: State, id: int)
    requires CollisionsHeld(e, s) && |s.collisions| < TRIED_COLLISION_SIZE
    requires id in s.mapInfo && 0 <= id < s.nIdCount && TriedSlot(e, s.key, s.mapInfo[id].addr) in s.vvTried
    ensures CollisionsHeld(e, Collide(s, id))
  {
  }

  lemma StampKeepsInv(e: Env, s: State, time: int)
    requires Inv(e, s)
    ensures Advances(e, s, Stamp(s, time))
  {
    SameTables(s, Stamp(s, time));
  }

  /** The entry that was reached, stamped and with its statistics updated. */
  function Reached(s: State, id: int, time: int): State {
    Stamp(s, time).With(id, Succeeded(Stamp(s, time).At(id), time))
  }

  lemma GoodIs(e: Env, s: State, a: Service, testBeforeEvict: bool, time: int)
    ensures Good(e, s, a, testBeforeEvict, time) ==
            var found := s.Find(a);
            if found.None? then (Stamp(s, time), false)
            else Promote(e, Reached(s, found.value, time), found.value, testBeforeEvict)
  {
  }

  lemma ReachedInv(e: Env, s: State, a: Service, time: int)
    requires Inv(e, s) && s.Find(a).Some? && time > 0
    ensures Inv(e, Reached(s, s.Find(a).value, time))
  {
    var id := s.Find(a).value;
    assert Inv(e, Stamp(s, time)) by { StampKeepsInv(e, s, time); }
    TouchKeepsInv(e, Stamp(s, time), id, Succeeded(Stamp(s, time).At(id), time));
  }

  lemma GoodKeepsInv(e: Env, s: State, a: Service, testBeforeEvict: bool, time: int)
    requires Inv(e, s) && time > 0
    ensures var t := Good(e, s, a, testBeforeEvict, time).0;
            Advances(e, s, t) && (!testBeforeEvict ==> t.collisions == s.collisions)
  {
    var t := Stamp(s, time);
    StampKeepsInv(e, s, time);
    FindFinds(e, t, a);
    if t.Find(a).Some? {
      GoodFound(e, t, t.Find(a).value, testBeforeEvict, time);
      LaterTransitive(s, t, Good(e, s, a, testBeforeEvict, time).0);
      assert Advances(e, s, Good(e, s, a, testBeforeEvict, time).0);
    } else {
      assert Advances(e, s, Good(e, s, a, testBeforeEvict, time).0);
    }
  }

  lemma GoodFound(e: Env, t: State, id: int, testBeforeEvict: bool, time: int)
    requires Inv(e, t) && id in t.mapInfo && time > 0
    ensures var r := Promote(e, t.With(id, Succeeded(t.At(id), time)), id, testBeforeEvict).0;
            Advances(e, t, r) && (!testBeforeEvict ==> r.collisions == t.collisions)
  {
    var u := t.With(id, Succeeded(t.At(id), time));
    TouchKeepsInv(e, t, id, Succeeded(t.At(id), time));
    PromoteKeepsInv(e, u, id, testBeforeEvict);
    LaterTransitive(t, u, Promote(e, u, id, testBeforeEvict).0);
  }

  /** The branch for a collision that no longer is one cannot be reached. */
  lemma CollisionStillCollides(e: Env, s: State, id: int, now: int)
    requires Inv(e, s) && id in s.collisions
    ensures Judge(e, s, id, now) != Vacant
  {
  }

  lemma ResolveOneKeepsInv(e: Env, s: State, id: int, now: int)
    requires Inv(e, s) && now > 0
    ensures var t := ResolveOne(e, s, id, now); Advances(e, s, t) && t.collisions <= s.collisions
  {
    var t := ResolveOne(e, s, id, now);
    match Judge(e, s, id, now)
    case Forget =>
      ForgetKeepsInv(e, s, id);
      assert Advances(e, s, t);
    case Wait =>
      Stays(e, s);
      assert Advances(e, s, t);
    case _ =>
      ReplaceKeepsInv(e, s, id, now);
      assert Advances(e, s, t);
  }

  lemma ReplaceKeepsInv(e: Env, s: State, id: int, now: int)
    requires Inv(e, s) && now > 0
    ensures var t := ForgetCollision(Good(e, s, s.At(id).addr, false, now).0, id);
            Advances(e, s, t) && t.collisions <= s.collisions
  {
    var g := Good(e, s, s.At(id).addr, false, now).0;
    GoodKeepsInv(e, s, s.At(id).addr, false, now);
    ForgetKeepsInv(e, g, id);
    LaterTransitive(s, g, ForgetCollision(g, id));
  }

  lemma ForgetKeepsInv(e: Env, s: State, id: int)
    requires Inv(e, s)
    ensures Advances(e, s, ForgetCollision(s, id))
  {
    SameTables(s, ForgetCollision(s, id));
    LaterKeepsCollisions(e, s, ForgetCollision(s, id));
  }

  lemma {:induction false} ResolveKeepsInv(e: Env, s: State, ids: seq<int>, clock: int -> int)
    requires Inv(e, s) && forall id :: clock(id) > 0
    ensures var t := Resolve(e, s, ids, clock);
            Advances(e, s, t) && t.collisions <= s.collisions
    decreases |ids|
  {
    if |ids| > 0 {
      var t := ResolveOne(e, s, ids[0], clock(ids[0]));
      ResolveOneKeepsInv(e, s, ids[0], clock(ids[0]));
      ResolveKeepsInv(e, t, ids[1..], clock);
      LaterTransitive(s, t, Resolve(e, t, ids[1..], clock));
    }
  }

  /** Selecting a collision always yields a live tried entry, unless the
      colliding entry is gone. */
  lemma SelectReadsTried(e: Env, s: State, id: int)
    requires Inv(e, s)
    ensures var (t, r) := SelectTriedCollision(e, s, id);
            && Advances(e, s, t)
            && (id in s.collisions && id in s.mapInfo ==>
                  r.Some? && r.value in t.mapInfo && t.mapInfo[r.value].inTried)
  {
    ForgetKeepsInv(e, s, id);
    Stays(e, s);
    if id in s.collisions && id in s.mapInfo {
      TriedTarget(e, s, TriedSlot(e, s.key, s.mapInfo[id].addr), {}, {});
    }
  }

  // ----- the other calls

  /** A call that finds one entry and rewrites its statistics. */
  lemma UpdateKeepsInv(e: Env, s: State, a: Service, info: Info, t: State)
    requires Inv(e, s)
    requires s.Find(a).None? ==> t == s
    requires s.Find(a).Some? ==> t == s.With(s.Find(a).value, info)
    requires s.Find(a).Some? ==> SameIndexing(info, s.At(s.Find(a).value)) && SaneTimes(info)
    ensures Advances(e, s, t)
  {
    FindFinds(e, s, a);
    if s.Find(a).Some? {
      TouchKeepsInv(e, s, s.Find(a).value, info);
    } else {
      Stays(e, s);
    }
  }

  lemma FoundSane(e: Env, s: State, a: Service)
    requires EntriesSane(e, s.mapInfo)
    ensures s.Find(a).Some? ==> SaneTimes(s.At(s.Find(a).value))
  {
  }

  lemma AttemptKeepsInv(e: Env, s: State, a: Service, countFailure: bool, time: int)
    requires Inv(e, s) && time >= 0
    ensures Advances(e, s, Attempt(s, a, countFailure, time))
  {
    FoundSane(e, s, a);
    var info := if s.Find(a).Some? then Attempted(s.At(s.Find(a).value), s.lastGood, countFailure, time) else BLANK;
    UpdateKeepsInv(e, s, a, info, Attempt(s, a, countFailure, time));
  }

  lemma ConnectedKeepsInv(e: Env, s: State, a: Service, time: int)
    requires Inv(e, s)
    ensures Advances(e, s, Connected(s, a, time))
  {
    FoundSane(e, s, a);
    var info := if s.Find(a).Some? then Seen(s.At(s.Find(a).value), time) else BLANK;
    UpdateKeepsInv(e, s, a, info, Connected(s, a, time));
  }

  lemma SetServicesKeepsInv(e: Env, s: State, a: Service, services: set<nat>)
    requires Inv(e, s)
    ensures Advances(e, s, SetServices(s, a, services))
  {
    FoundSane(e, s, a);
    var info := if s.Find(a).Some? then s.At(s.Find(a).value).(services := services) else BLANK;
    UpdateKeepsInv(e, s, a, info, SetServices(s, a, services));
  }

  /** What GetAddr_ has collected after `n` places: distinct live entries that
      pass the filter, all of them from the shuffled part of vRandom. */
  ghost predicate Collected(e: Env, s: State, n: nat, network: Option<Network>, filtered: bool, now: int,
                          picked: seq<int>) {
    && (forall i :: 0 <= i < |picked| ==> Picked(e, s, n, network, filtered, now, picked[i]))
    && (forall i, j :: 0 <= i < j < |picked| ==> picked[i] != picked[j])
  }

  predicate Picked(e: Env, s: State, n: nat, network: Option<Network>, filtered: bool, now: int, id: int) {
    id in s.mapInfo && 0 <= s.mapInfo[id].randomPos < n && Wanted(e, s.mapInfo[id], network, filtered, now)
  }

  /** All that pass the filter among the first `n` places are collected. */
  ghost predicate MissesNone(e: Env, s: State, n: nat, network: Option<Network>, filtered: bool, now: int,
                             picked: seq<int>)
  {
    forall id :: Picked(e, s, n, network, filtered, now, id) ==> id in picked
  }

  lemma SwapKeepsInv(e: Env, s: State, i: nat, j: nat)
    requires Inv(e, s) && i < |s.vRandom| && j < |s.vRandom|
    ensures Advances(e, s, SwapRandom(s, i, j))
  {
    var t := SwapRandom(s, i, j);
    SwapKeepsCore(e, s, i, j, {}, {});
    SwapOrigin(s, i, j);
    SwapTables(s, i, j);
    SameTables(s, t);
    LaterKeepsCollisions(e, s, t);
  }

  lemma SwapTables(s: State, i: int, j: int)
    ensures var t := SwapRandom(s, i, j);
            && t.vvTried == s.vvTried && t.nTried == s.nTried && t.key == s.key && t.nIdCount == s.nIdCount
            && t.collisions == s.collisions
  {
  }

  lemma SwapOrigin(s: State, i: nat, j: nat)
    requires RandomIndexed(Places(s.mapInfo), s.vRandom) && i < |s.vRandom| && j < |s.vRandom|
    ensures var t := SwapRandom(s, i, j); forall id :: id in t.mapInfo ==> Origin(s, t, id) && SameName(s, t, id)
  {
    var t := SwapRandom(s, i, j);
    forall id | id in t.mapInfo ensures Origin(s, t, id) {
      SwapFrame(s, i, j, id);
    }
  }

  lemma CollectNext(e: Env, s: State, n: nat, j: nat, network: Option<Network>, filtered: bool, now: int,
                    picked: seq<int>)
    requires RandomIndexed(Places(s.mapInfo), s.vRandom)
    requires Collected(e, s, n, network, filtered, now, picked) && n <= j < |s.vRandom|
    ensures var t := SwapRandom(s, n, j);
            && n < |t.vRandom| == |s.vRandom| && t.vRandom[n] in t.mapInfo
            && Collected(e, t, n + 1, network, filtered, now, PickNext(e, t, n, network, filtered, now, picked))
  {
    var t := SwapRandom(s, n, j);
    var id := s.vRandom[j];
    assert id in Places(s.mapInfo) && s.vRandom[n] in Places(s.mapInfo);
    assert t.vRandom[n] == id && t.mapInfo[id].randomPos == n;
    forall i | 0 <= i < |picked| ensures picked[i] != id && Picked(e, t, n + 1, network, filtered, now, picked[i]) {
      assert Picked(e, s, n, network, filtered, now, picked[i]);
    }
  }

  lemma SwapLength(s: State, i: int, j: int)
    ensures |SwapRandom(s, i, j).vRandom| == |s.vRandom|
  {
  }

  /** Swaps, one after the other. */
  function Swapped(s: State, swaps: seq<(nat, nat)>): State
    decreases |swaps|
  {
    if |swaps| == 0 then s else Swapped(SwapRandom(s, swaps[0].0, swaps[0].1), swaps[1..])
  }

  ghost predicate InRange(swaps: seq<(nat, nat)>, size: nat) {
    forall i :: 0 <= i < |swaps| ==> swaps[i].0 < size && swaps[i].1 < size
  }

  /** All that GetAddr_ does to the manager is to swap places. */
  lemma {:induction false} GetAddrSwaps(e: Env, t: State, n: nat, limit: nat, network: Option<Network>, filtered: bool,
                                        now: int, draws: nat -> nat, picked: seq<int>) returns (swaps: seq<(nat, nat)>)
    ensures GetAddrFrom(e, t, n, limit, network, filtered, now, draws, picked).0 == Swapped(t, swaps)
    ensures InRange(swaps, |t.vRandom|)
    decreases |t.vRandom| - n
  {
    swaps := [];
    if n < |t.vRandom| && |picked| < limit {
      var j := Draw(t, n, draws);
      var u := SwapRandom(t, n, j);
      assert |u.vRandom| == |t.vRandom| by { SwapLength(t, n, j); }
      var next, more := n + 1, PickNext(e, u, n, network, filtered, now, picked);
      var rest := GetAddrSwaps(e, u, next, limit, network, filtered, now, draws, more);
      GetAddrNext(e, t, n, limit, network, filtered, now, draws, picked, u, next, more);
      swaps := [(n, j)] + rest;
      assert swaps[1..] == rest;
    }
  }

  lemma {:induction false} SwapsAdvance(e: Env, s: State, t: State, swaps: seq<(nat, nat)>, r: State)
    requires Advances(e, s, t) && InRange(swaps, |t.vRandom|) && r == Swapped(t, swaps)
    ensures Advances(e, s, r)
    decreases |swaps|
  {
    if |swaps| > 0 {
      var i, j, rest := swaps[0].0, swaps[0].1, swaps[1..];
      var u := SwapRandom(t, i, j);
      SwapLength(t, i, j);
      assert Advances(e, s, u) by {
        SwapKeepsInv(e, t, i, j);
        AdvancesTransitive(e, s, t, u);
      }
      SwapsAdvance(e, s, u, rest, r);
    }
  }

  lemma GetAddrKeepsInv(e: Env, s: State, t: State, n: nat, limit: nat, network: Option<Network>,
                        filtered: bool, now: int, draws: nat -> nat, picked: seq<int>)
    requires Advances(e, s, t)
    ensures Advances(e, s, GetAddrFrom(e, t, n, limit, network, filtered, now, draws, picked).0)
  {
    var swaps := GetAddrSwaps(e, t, n, limit, network, filtered, now, draws, picked);
    SwapsAdvance(e, s, t, swaps, Swapped(t, swaps));
  }

  lemma AdvancesTransitive(e: Env, s: State, t: State, u: State)
    requires Later(s, t) && Advances(e, t, u)
    ensures Advances(e, s, u)
  {
    LaterTransitive(s, t, u);
  }

  lemma GetAddrNext(e: Env, s: State, n: nat, limit: nat, network: Option<Network>, filtered: bool, now: int,
                    draws: nat -> nat, picked: seq<int>, t: State, next: nat, more: seq<int>)
    requires n < |s.vRandom| && |picked| < limit && t == SwapRandom(s, n, Draw(s, n, draws)) && next == n + 1
    requires more == PickNext(e, t, n, network, filtered, now, picked) && |t.vRandom| == |s.vRandom|
    ensures GetAddrFrom(e, s, n, limit, network, filtered, now, draws, picked) ==
            GetAddrFrom(e, t, next, limit, network, filtered, now, draws, more)
  {
  }

  /** GetAddr_ returns distinct live entries that pass the filter, never more than allowed;
      if there is room left, it misses none. */
  lemma {:induction false} GetAddrCollects(e: Env, s: State, n: nat, limit: nat, network: Option<Network>,
                                           filtered: bool, now: int, draws: nat -> nat, picked: seq<int>)
    requires RandomIndexed(Places(s.mapInfo), s.vRandom) && n <= |s.vRandom| && |picked| <= limit
    requires Collected(e, s, n, network, filtered, now, picked)
    ensures var (t, r) := GetAddrFrom(e, s, n, limit, network, filtered, now, draws, picked);
            && GotAddrs(e, t, |s.vRandom|, limit, network, filtered, now, r, |picked| == n)
            && (MissesNone(e, s, n, network, filtered, now, picked) && |r| < limit ==>
                  MissesNone(e, t, |s.vRandom|, network, filtered, now, r))
    decreases |s.vRandom| - n
  {
    if n < |s.vRandom| && |picked| < limit {
      var j := Draw(s, n, draws);
      var t := SwapRandom(s, n, j);
      var next, more := n + 1, PickNext(e, t, n, network, filtered, now, picked);
      assert |t.vRandom| == |s.vRandom| by { SwapLength(s, n, j); }
      assert Collected(e, t, next, network, filtered, now, more) by {
        CollectNext(e, s, n, j, network, filtered, now, picked);
      }
      if MissesNone(e, s, n, network, filtered, now, picked) {
        MissesNoneNext(e, s, n, j, network, filtered, now, picked, t, next, more);
      }
      assert RandomIndexed(Places(t.mapInfo), t.vRandom) by { RandomSwapped(s, n, j); }
      GetAddrCollects(e, t, next, limit, network, filtered, now, draws, more);
      assert network.None? && !filtered ==> |more| == |picked| + 1;
      GetAddrNext(e, s, n, limit, network, filtered, now, draws, picked, t, next, more);
    } else {
      CollectedAll(e, s, n, network, filtered, now, picked);
    }
  }

  lemma MissesNoneNext(e: Env, s: State, n: nat, j: nat, network: Option<Network>, filtered: bool, now: int,
                       picked: seq<int>, t: State, next: nat, more: seq<int>)
    requires RandomIndexed(Places(s.mapInfo), s.vRandom) && MissesNone(e, s, n, network, filtered, now, picked)
    requires n <= j < |s.vRandom| && t == SwapRandom(s, n, j) && next == n + 1 && n < |t.vRandom|
    requires more == PickNext(e, t, n, network, filtered, now, picked)
    ensures MissesNone(e, t, next, network, filtered, now, more)
  {
    forall id | Picked(e, t, next, network, filtered, now, id) ensures id in more {
      assert id in t.mapInfo;
      PlaceAfterSwap(s, n, j, id);
      assert Picked(e, s, n, network, filtered, now, id) || id == t.vRandom[n];
    }
  }

  /** What is before the two places swapped keeps its place. */
  lemma PlaceAfterSwap(s: State, n: nat, j: nat, id: int)
    requires RandomIndexed(Places(s.mapInfo), s.vRandom) && n <= j < |s.vRandom|
    ensures var t := SwapRandom(s, n, j);
            id in t.mapInfo && 0 <= t.mapInfo[id].randomPos <= n ==>
              && n < |t.vRandom| && id in s.mapInfo
              && (id == t.vRandom[n] || (t.mapInfo[id] == s.mapInfo[id] && t.mapInfo[id].randomPos < n))
  {
    assert s.vRandom[n] in Places(s.mapInfo) && s.vRandom[j] in Places(s.mapInfo);
    if id in s.mapInfo { assert id in Places(s.mapInfo); }
  }

  lemma CollectedAll(e: Env, s: State, n: nat, network: Option<Network>, filtered: bool, now: int, picked: seq<int>)
    requires Collected(e, s, n, network, filtered, now, picked) && n <= |s.vRandom|
    ensures Collected(e, s, |s.vRandom|, network, filtered, now, picked)
  {
    assert forall i :: 0 <= i < |picked| ==> Picked(e, s, n, network, filtered, now, picked[i]);
  }

  ghost predicate GotAddrs(e: Env, t: State, size: nat, limit: nat, network: Option<Network>, filtered: bool,
                           now: int, r: seq<int>, all: bool)
  {
    && |t.vRandom| == size
    && Collected(e, t, size, network, filtered, now, r)
    && |r| <= limit
    && (all && network.None? && !filtered ==> |r| == if size < limit then size else limit)
  }

  lemma RandomSwapped(s: State, i: nat, j: nat)
    requires RandomIndexed(Places(s.mapInfo), s.vRandom) && i < |s.vRandom| && j < |s.vRandom|
    ensures var t := SwapRandom(s, i, j); RandomIndexed(Places(t.mapInfo), t.vRandom)
  {
    if i != j {
      var m := s.mapInfo;
      var id1, id2 := s.vRandom[i], s.vRandom[j];
      assert id1 in Places(m) && id2 in Places(m);
      FieldsOfUpdate(m, id1, s.At(id1).(randomPos := j));
      FieldsOfUpdate(m[id1 := s.At(id1).(randomPos := j)], id2, s.At(id2).(randomPos := i));
      RandomSwap(Places(m), s.vRandom, i, j);
    }
  }

  // ----- whole runs

  lemma InitialInv(e: Env, key: nat)
    requires key != 0
    ensures var s := Initial(key);
            && Inv(e, s) && s.key == key && s.mapInfo == map[] && s.vvNew == map[] && s.vvTried == map[]
            && s.collisions == {} && s.lastGood == 1
  {
    assert forall net :: InNet(e, map[], {}, net) == {};
  }

  lemma StepAdvances(e: Env, s: State, c: Call)
    requires Inv(e, s) && SaneCall(c)
    ensures Advances(e, s, Step(e, s, c))
  {
    match c
    case CallAdd(addrs, source, penalty, now, draws) => AddKeepsInv(e, s, addrs, source, penalty, now, draws);
    case CallGood(a, time) => GoodKeepsInv(e, s, a, true, time);
    case CallAttempt(a, countFailure, time) => AttemptKeepsInv(e, s, a, countFailure, time);
    case CallConnected(a, time) => ConnectedKeepsInv(e, s, a, time);
    case CallSetServices(a, services) => SetServicesKeepsInv(e, s, a, services);
    case CallResolve(clock) => ResolveKeepsInv(e, s, Ascending(s.collisions), clock);
    case CallSelect(choice) => SelectReadsTried(e, s, choice);
    case CallGetAddr(maxAddresses, maxPct, network, filtered, now, draws) =>
      Stays(e, s);
      GetAddrKeepsInv(e, s, s, 0, AddrLimit(|s.vRandom|, maxAddresses, maxPct), network, filtered, now, draws, []);
  }

  /** Over every run the indexes agree, no occupied tried slot becomes vacant,
      the number of tried entries never falls and no id is given out twice. */
  lemma {:induction false} RunAdvances(e: Env, s: State, calls: seq<Call>)
    requires Inv(e, s) && forall i :: 0 <= i < |calls| ==> SaneCall(calls[i])
    ensures Advances(e, s, Run(e, s, calls))
    decreases |calls|
  {
    if |calls| == 0 {
      Stays(e, s);
      assert Advances(e, s, Run(e, s, calls));
    } else {
      var t := Step(e, s, calls[0]);
      StepAdvances(e, s, calls[0]);
      RunAdvances(e, t, calls[1..]);
      LaterTransitive(s, t, Run(e, t, calls[1..]));
      assert Advances(e, s, Run(e, s, calls));
    }
  }

  lemma {:induction false} AscendingVisits(c: set<int>)
    ensures forall x :: x in Ascending(c) <==> x in c
    ensures forall i, j :: 0 <= i < j < |Ascending(c)| ==> Ascending(c)[i] < Ascending(c)[j]
  {
    if |c| != 0 {
      var m := MinOf(c);
      var rest := Ascending(c - {m});
      AscendingVisits(c - {m});
      assert Ascending(c) == [m] + rest;
      forall i | 0 <= i < |rest| ensures m < rest[i] {
        assert rest[i] in c - {m};
      }
    }
  }

  lemma ResolveOneLeaves(e: Env, s: State, id: int, now: int, x: int)
    requires Inv(e, s) && now > 0 && x in s.collisions && x != id
    ensures x in ResolveOne(e, s, id, now).collisions
  {
    GoodKeepsInv(e, s, s.At(id).addr, false, now);
  }

  lemma {:induction false} ResolveLeaves(e: Env, s: State, ids: seq<int>, clock: int -> int, x: int)
    requires Inv(e, s) && (forall id :: clock(id) > 0) && x in s.collisions && x !in ids
    ensures x in Resolve(e, s, ids, clock).collisions
    decreases |ids|
  {
    if |ids| > 0 {
      ResolveOneLeaves(e, s, ids[0], clock(ids[0]), x);
      ResolveOneKeepsInv(e, s, ids[0], clock(ids[0]));
      ResolveLeaves(e, ResolveOne(e, s, ids[0], clock(ids[0])), ids[1..], clock, x);
    }
  }

  /** While the collisions are resolved one after the other, none of them ever
      finds its tried slot vacant. */
  lemma ResolveNeverVacant(e: Env, s: State, clock: int -> int, i: nat)
    requires Inv(e, s) && (forall id :: clock(id) > 0) && i < |Ascending(s.collisions)|
    ensures var ids := Ascending(s.collisions);
            Judge(e, Resolve(e, s, ids[..i], clock), ids[i], clock(ids[i])) != Vacant
  {
    var ids := Ascending(s.collisions);
    AscendingVisits(s.collisions);
    ResolveKeepsInv(e, s, ids[..i], clock);
    assert ids[i] in s.collisions && ids[i] !in ids[..i];
    ResolveLeaves(e, s, ids[..i], clock, ids[i]);
    CollisionStillCollides(e, Resolve(e, s, ids[..i], clock), ids[i], clock(ids[i]));
  }
}
