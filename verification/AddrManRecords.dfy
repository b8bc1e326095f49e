/**
 What the address manager records about an address: when it was seen, tried and reached,
 and what follows from it.
 */
module AddrManRecords {
  import opened AddrManInvariant
  import opened AddrManOperations
  import opened AddrManRuns
  import opened AddrManState
  import opened Helpers

  /** Only the record of `id` may differ, not its standing in the indexes. */
  ghost predicate OnlyRecord(s: State, t: State, id: int) {
    && id in s.mapInfo && t == s.(mapInfo := t.mapInfo) && t.mapInfo.Keys == s.mapInfo.Keys
    && SameIndexing(s.mapInfo[id], t.mapInfo[id]) && t.mapInfo[id].source == s.mapInfo[id].source
    && forall j :: j in s.mapInfo && j != id ==> t.mapInfo[j] == s.mapInfo[j]
  }

  // ----- attempts

  /** An attempt is recorded; it counts as a failure if it is to be counted and none was
      since an address was last reached. */
  lemma AttemptEffect(e: Env, s: State, a: Service, countFailure: bool, time: int)
    requires Inv(e, s)
    ensures var t := Attempt(s, a, countFailure, time);
            if a !in s.mapAddr then t == s else
              var id := s.mapAddr[a];
              && OnlyRecord(s, t, id) && id in t.mapInfo
              && var counts := countFailure && s.mapInfo[id].lastCountAttempt < s.lastGood;
                 && t.mapInfo[id].attempts == s.mapInfo[id].attempts + (if counts then 1 else 0)
                 && t.mapInfo[id].lastCountAttempt == (if counts then time else s.mapInfo[id].lastCountAttempt)
                 && t.mapInfo[id].lastTry == time && t.mapInfo[id].lastSuccess == s.mapInfo[id].lastSuccess
                 && t.mapInfo[id].time == s.mapInfo[id].time && t.mapInfo[id].services == s.mapInfo[id].services
  {
    FindFinds(e, s, a);
  }

  /** However often an address is tried in vain, it counts once, until some address is
      reached again. */
  lemma FailuresCountOnce(e: Env, s: State, a: Service, time: int, more: seq<(bool, int)>)
    requires Inv(e, s) && a in s.mapAddr && s.mapAddr[a] in s.mapInfo && time >= s.lastGood
    ensures var id, t := s.mapAddr[a], Attempts(Attempt(s, a, true, time), a, more);
            && id in t.mapInfo && t.lastGood == s.lastGood
            && t.mapInfo[id].attempts ==
               s.mapInfo[id].attempts + if s.mapInfo[id].lastCountAttempt < s.lastGood then 1 else 0
  {
    FindFinds(e, s, a);
    AttemptsNoMore(Attempt(s, a, true, time), a, more, s.mapAddr[a]);
  }

  function Attempts(s: State, a: Service, calls: seq<(bool, int)>): State
    decreases |calls|
  {
    if |calls| == 0 then s else Attempts(Attempt(s, a, calls[0].0, calls[0].1), a, calls[1..])
  }

  lemma {:induction false} AttemptsNoMore(s: State, a: Service, calls: seq<(bool, int)>, id: int)
    requires s.Find(a) == Some(id) && s.mapInfo[id].lastCountAttempt >= s.lastGood
    ensures var t := Attempts(s, a, calls);
            id in t.mapInfo && t.lastGood == s.lastGood && t.mapInfo[id].attempts == s.mapInfo[id].attempts
    decreases |calls|
  {
    if |calls| > 0 { AttemptsNoMore(Attempt(s, a, calls[0].0, calls[0].1), a, calls[1..], id); }
  }

  // ----- being reached

  lemma PromoteOrigin(e: Env, s: State, id: int, testBeforeEvict: bool, j: int)
    requires Inv(e, s) && id in s.mapInfo
    ensures Origin(s, Promote(e, s, id, testBeforeEvict).0, j)
  {
    if !s.mapInfo[id].inTried && s.mapInfo[id].refCount > 0 { MakeTriedOrigin(e, s, id, j); }
  }

  lemma ReachedOrigin(s: State, id: int, now: int, j: int)
    requires id in s.mapInfo
    ensures var r := Reached(s, id, now); id in r.mapInfo && (j != id ==> Origin(s, r, j))
  {
  }

  lemma GoodOrigin(e: Env, s: State, id: int, a: Service, testBeforeEvict: bool, now: int, j: int)
    requires Inv(e, s) && now > 0 && s.Find(a) == Some(id) && j != id
    ensures Origin(s, Good(e, s, a, testBeforeEvict, now).0, j)
  {
    GoodIs(e, s, a, testBeforeEvict, now);
    var r := Reached(s, id, now);
    assert Inv(e, r) by { ReachedInv(e, s, a, now); }
    ReachedOrigin(s, id, now, j);
    PromoteOrigin(e, r, id, testBeforeEvict, j);
  }

  /** An address that was reached: the failures are forgotten, and nothing new is known of
      any other. */
  lemma GoodRecords(e: Env, s: State, a: Service, testBeforeEvict: bool, time: int, id: int, t: State)
    requires Inv(e, s) && time > 0 && t == Good(e, s, a, testBeforeEvict, time).0 && id in t.mapInfo
    ensures id in s.mapInfo
    ensures if s.mapInfo[id].addr != a then Origin(s, t, id)
            else Profile(t.mapInfo[id]) == Profile(s.mapInfo[id].(lastSuccess := time, lastTry := time, attempts := 0))
  {
    FindFinds(e, s, a);
    GoodIs(e, s, a, testBeforeEvict, time);
    if a in s.mapAddr {
      var known := s.mapAddr[a];
      if id != known { GoodOrigin(e, s, known, a, testBeforeEvict, time, id); }
          else { GoodSelf(e, s, known, a, testBeforeEvict, time); }
      if id in s.mapInfo && s.mapInfo[id].addr == a { OneEntry(e, s, id, known); }
    } else if id in s.mapInfo {
      NotNew(e, s, a, id);
    }
  }

  lemma GoodSelf(e: Env, s: State, id: int, a: Service, testBeforeEvict: bool, now: int)
    requires Inv(e, s) && now > 0 && s.Find(a) == Some(id)
    ensures Origin(Reached(s, id, now), Good(e, s, a, testBeforeEvict, now).0, id)
  {
    GoodIs(e, s, a, testBeforeEvict, now);
    var r := Reached(s, id, now);
    assert Inv(e, r) by { ReachedInv(e, s, a, now); }
    ReachedOrigin(s, id, now, id);
    PromoteOrigin(e, r, id, testBeforeEvict, id);
  }

  // ----- being seen

  /** A connection moves the time on if it is more than 20 minutes behind, so that it never
      is afterwards. */
  lemma ConnectedEffect(e: Env, s: State, a: Service, time: int)
    requires Inv(e, s)
    ensures var t := Connected(s, a, time);
            if a !in s.mapAddr then t == s else
              var id := s.mapAddr[a];
              && OnlyRecord(s, t, id) && id in t.mapInfo && Profile(t.mapInfo[id]) ==
                 Profile(s.mapInfo[id].(time := t.mapInfo[id].time))
              && (t.mapInfo[id].time != s.mapInfo[id].time ==>
                    t.mapInfo[id].time == time > s.mapInfo[id].time + 1200)
              && t.mapInfo[id].time >= time - 1200
  {
    FindFinds(e, s, a);
  }

  lemma SetServicesEffect(e: Env, s: State, a: Service, services: set<nat>)
    requires Inv(e, s)
    ensures var t := SetServices(s, a, services);
            if a !in s.mapAddr then t == s else
              var id := s.mapAddr[a];
              OnlyRecord(s, t, id) && id in t.mapInfo && t.mapInfo[id] == s.mapInfo[id].(services := services)
  {
    FindFinds(e, s, a);
  }

  // ----- being told about an address

  /** The time of a known address after it was announced again: moved on if it is an hour
      behind, or a day if the announced time is a day old, the penalty taken off; never back,
      and not below 0. */
  ghost predicate TimeAfter(was: int, told: int, penalty: int, now: int, after: int) {
    var behind := if now - told < 86400 then 3600 else 86400;
    if was + behind < told - penalty then after >= 0 && after >= told - penalty &&
        (after == 0 || after == told - penalty)
    else after == was
  }

  lemma RefreshedTime(info: Info, a: Address, penalty: int, now: int)
    ensures var r := Refreshed(info, a, penalty, now);
            && TimeAfter(info.time, a.time, penalty, now, r.time) && r.services == info.services + a.services
            && r == info.(time := r.time, services := r.services)
            && r.time >= info.time
  {
  }

  /** The record of an address that is taken in: nothing is known but what was announced,
      less the penalty. */
  ghost predicate FirstRecord(info: Info, a: Address, source: NetAddr, penalty: int) {
    && info.addr == a.service && info.services == a.services && info.source == source
    && info.time >= 0 && info.time >= a.time - penalty && (info.time == 0 || info.time == a.time - penalty)
    && info.lastTry == 0 && info.lastCountAttempt == 0 && info.lastSuccess == 0 && info.attempts == 0
  }

  ghost predicate AgainRecord(was: Info, after: Info, a: Address, penalty: int, now: int) {
    && TimeAfter(was.time, a.time, penalty, now, after.time) && after.services == was.services + a.services
    && Profile(after) == Profile(was.(time := after.time, services := after.services))
  }

  /** What AddSingle records: of the address announced as above, without a penalty if it
      announces itself; of any other address nothing new. */
  lemma AddSingleRecords(e: Env, s: State, a: Address, source: NetAddr, timePenalty: int, now: int, draw: nat, id: int)
    requires Inv(e, s) && IsRoutable(e, a.service)
    ensures var t := AddSingle(e, s, a, source, timePenalty, now, draw).0;
            var penalty := if a.service.ip == source then 0 else timePenalty;
            id in t.mapInfo ==>
              if t.mapInfo[id].addr != a.service then Origin(s, t, id)
              else if a.service in s.mapAddr then
                id in s.mapInfo && AgainRecord(s.mapInfo[id], t.mapInfo[id], a, penalty, now)
              else FirstRecord(t.mapInfo[id], a, source, penalty)
  {
    var t := AddSingle(e, s, a, source, timePenalty, now, draw).0;
    var penalty := if a.service.ip == source then 0 else timePenalty;
    FindFinds(e, s, a.service);
    if id in t.mapInfo {
      if a.service in s.mapAddr {
        AgainRecords(e, s, s.mapAddr[a.service], a, source, penalty, now, draw, id, t);
      } else {
        NewRecords(e, s, a, source, penalty, now, id, t);
      }
    }
  }

  lemma AgainOrigin(e: Env, s: State, known: int, a: Address, source: NetAddr, penalty: int, now: int, draw: nat,
                    info: Info, id: int)
    requires Inv(e, s) && known in s.mapInfo && info == Refreshed(s.mapInfo[known], a, penalty, now)
    ensures Origin(s.With(known, info), AddAgain(e, s, known, a, source, penalty, now, draw).0, id)
  {
    var t := s.With(known, info);
    RefreshedCore(e, s, known, info, t);
    PlaceOrigin(e, t, known, source, now, id);
  }

  lemma RefreshedCore(e: Env, s: State, known: int, info: Info, t: State)
    requires Inv(e, s) && known in s.mapInfo && t == s.With(known, info) && SameIndexing(s.mapInfo[known], info)
    requires info.lastTry == s.mapInfo[known].lastTry && info.lastSuccess == s.mapInfo[known].lastSuccess
    ensures Core(e, t, {}, {known})
  {
    SaneEntry(e, s, known);
    TouchKeepsInv(e, s, known, info);
    PendingMore(e, t, {}, {}, {known});
  }

  /** No two entries have one address. */
  lemma OneEntry(e: Env, s: State, i: int, j: int)
    requires Inv(e, s) && i in s.mapInfo && j in s.mapInfo && s.mapInfo[i].addr == s.mapInfo[j].addr
    ensures i == j
  {
    assert i in Addrs(s.mapInfo) && j in Addrs(s.mapInfo);
  }

  lemma AgainRecords(e: Env, s: State, known: int, a: Address, source: NetAddr, penalty: int, now: int, draw: nat,
                     id: int, t: State)
    requires Inv(e, s) && known in s.mapInfo && s.mapInfo[known].addr == a.service
    requires t == AddAgain(e, s, known, a, source, penalty, now, draw).0 && id in t.mapInfo
    ensures id in s.mapInfo && (t.mapInfo[id].addr == a.service <==> id == known)
    ensures if id == known then AgainRecord(s.mapInfo[id], t.mapInfo[id], a, penalty, now) else Origin(s, t, id)
  {
    var info := Refreshed(s.mapInfo[known], a, penalty, now);
    AgainOrigin(e, s, known, a, source, penalty, now, draw, info, id);
    RefreshedTime(s.mapInfo[known], a, penalty, now);
    if t.mapInfo[id].addr == a.service { OneEntry(e, s, id, known); }
  }

  lemma NewOrigin(e: Env, s: State, a: Address, source: NetAddr, penalty: int, now: int, u: State, id: int)
    requires Inv(e, s) && a.service !in s.mapAddr && IsValidAddr(e, a.service)
    requires var c := Create(e, s, a, source); u == c.With(s.nIdCount, Penalized(c.At(s.nIdCount), penalty))
    ensures Origin(u, AddNew(e, s, a, source, penalty, now).0, id)
  {
    assert Core(e, u, {}, {s.nIdCount}) by { CreatePendingKeepsCore(e, s, a, source, penalty); }
    PlaceOrigin(e, u, s.nIdCount, source, now, id);
  }

  lemma NotNew(e: Env, s: State, a: Service, id: int)
    requires Inv(e, s) && a !in s.mapAddr && id in s.mapInfo
    ensures s.mapInfo[id].addr != a && id != s.nIdCount
  {
    assert id in Addrs(s.mapInfo);
  }

  lemma NewRecords(e: Env, s: State, a: Address, source: NetAddr, penalty: int, now: int, id: int, t: State)
    requires Inv(e, s) && a.service !in s.mapAddr && IsValidAddr(e, a.service)
    requires t == AddNew(e, s, a, source, penalty, now).0 && id in t.mapInfo
    ensures if t.mapInfo[id].addr != a.service then Origin(s, t, id) else FirstRecord(t.mapInfo[id], a, source, penalty)
  {
    var c := Create(e, s, a, source);
    var u := c.With(s.nIdCount, Penalized(c.At(s.nIdCount), penalty));
    NewOrigin(e, s, a, source, penalty, now, u, id);
    if id in s.mapInfo { NotNew(e, s, a.service, id); }
  }

  // ----- where an address stands

  /** The slots come from the keyed hashes: the bucket, then the place in the bucket. */
  lemma SlotsExactly(e: Env, key: nat, a: Service, source: NetAddr)
    ensures var b, t := e.newBucket(key, a, source), e.triedBucket(key, a);
            && NewSlot(e, key, a, source) == Slot(b, e.position(key, true, b, a))
            && TriedSlot(e, key, a) == Slot(t, e.position(key, false, t, a))
  {
  }

  // ----- what follows

  /** Which entries are worth nothing: not tried within the last minute, and from the future,
      not seen for 30 days, tried three times and never reached, or tried ten times since it
      was last reached more than a week ago. */
  lemma TerribleExactly(info: Info, now: int)
    ensures info.IsTerrible(now) <==>
            && now - info.lastTry > 60
            && (info.time > now + 600 || now - info.time > 2592000 || (info.lastSuccess == 0 && info.attempts >= 3) ||
                (now - info.lastSuccess > 604800 && info.attempts >= 10))
  {
  }

  /** What GetAddr gives out: entries of the network asked for, if one is, and none that is
      worth nothing, if these are to be left out. */
  lemma WantedExactly(e: Env, info: Info, network: Option<Network>, filtered: bool, now: int)
    ensures Wanted(e, info, network, filtered, now) <==>
            && (network.None? || network == Some(e.netClassOf(info.addr.ip)))
            && (filtered && now - info.lastTry > 60 ==>
                  && now - 2592000 <= info.time <= now + 600
                  && (info.lastSuccess == 0 ==> info.attempts < 3)
                  && (now - info.lastSuccess > 604800 ==> info.attempts < 10))
  {
    TerribleExactly(info, now);
  }

  /** An entry reached within a week that was seen within 30 days is kept whatever fails. */
  lemma ReachedNotTerrible(info: Info, now: int)
    requires now - 604800 <= info.lastSuccess && info.lastSuccess != 0 && now - 2592000 <= info.time <= now + 600
    ensures !info.IsTerrible(now)
  {
  }

  /** The number of addresses given out: the most that is within the percentage, if one is
      given, and within the maximum, if one is given. */
  lemma LimitExact(size: nat, maxAddresses: nat, maxPct: nat, n: nat)
    ensures n <= AddrLimit(size, maxAddresses, maxPct) <==>
            && n <= size
            && (maxPct != 0 ==> 100 * n <= maxPct * size)
            && (maxAddresses != 0 ==> n <= maxAddresses)
  {
    if maxPct != 0 {
      var pct := if maxPct > 100 then 100 else maxPct;
      Hundredths(pct * size, n);
      if maxPct > 100 {
        assert pct * size / 100 == size;
        assert maxPct * size >= 100 * size;
      } else {
        assert pct * size <= 100 * size;
      }
    }
  }

  lemma Hundredths(x: nat, n: nat)
    ensures n <= x / 100 <==> 100 * n <= x
  {
  }

  // ----- what may come out of GetAddr

  lemma {:induction false} DrawsAgree(e: Env, s: State, n: nat, limit: nat, network: Option<Network>, filtered: bool,
                                      now: int, a: nat -> nat, b: nat -> nat, picked: seq<int>)
    requires forall i :: n <= i ==> a(i) == b(i)
    ensures GetAddrFrom(e, s, n, limit, network, filtered, now, a, picked) ==
            GetAddrFrom(e, s, n, limit, network, filtered, now, b, picked)
    decreases |s.vRandom| - n
  {
    if n < |s.vRandom| && |picked| < limit {
      var j, next := Draw(s, n, a), n + 1;
      assert Draw(s, n, b) == j by { assert a(n) == b(n); }
      var t := SwapRandom(s, n, j);
      var more := PickAt(e, s, n, j, network, filtered, now, picked, t);
      GetAddrNext(e, s, n, limit, network, filtered, now, a, picked, t, next, more);
      GetAddrNext(e, s, n, limit, network, filtered, now, b, picked, t, next, more);
      DrawsAgree(e, t, next, limit, network, filtered, now, a, b, more);
    }
  }

  lemma PickAt(e: Env, s: State, n: nat, j: nat, network: Option<Network>, filtered: bool, now: int, picked: seq<int>,
               t: State) returns (more: seq<int>)
    requires n <= j < |s.vRandom| && t == SwapRandom(s, n, j)
    ensures |t.vRandom| == |s.vRandom| && more == PickNext(e, t, n, network, filtered, now, picked)
  {
    SwapLength(s, n, j);
    more := PickNext(e, t, n, network, filtered, now, picked);
  }

  /** Entries that the loop has not come to, that pass the filter, in any order. */
  ghost predicate Selectable(e: Env, s: State, n: nat, network: Option<Network>, filtered: bool, now: int,
                             order: seq<int>) {
    && (forall i, j :: 0 <= i < j < |order| ==> order[i] != order[j])
    && forall id :: id in order ==>
         id in s.mapInfo && s.mapInfo[id].randomPos >= n && Wanted(e, s.mapInfo[id], network, filtered, now)
  }

  lemma SelectNext(e: Env, s: State, n: nat, j: int, network: Option<Network>, filtered: bool, now: int,
                   order: seq<int>, t: State)
    requires RandomIndexed(Places(s.mapInfo), s.vRandom) && |order| > 0 && j == s.At(order[0]).randomPos
    requires Selectable(e, s, n, network, filtered, now, order) && t == SwapRandom(s, n, j)
    ensures n <= j < |s.vRandom| == |t.vRandom| && t.vRandom[n] == order[0]
    ensures order[0] in t.mapInfo && Wanted(e, t.mapInfo[order[0]], network, filtered, now)
    ensures Selectable(e, t, n + 1, network, filtered, now, order[1..])
  {
    var id := order[0];
    assert id in order && id in Places(s.mapInfo);
    assert s.vRandom[n] in Places(s.mapInfo) && s.vRandom[j] == id;
    forall x | x in order[1..]
      ensures x in t.mapInfo && t.mapInfo[x].randomPos >= n + 1 && Wanted(e, t.mapInfo[x], network, filtered, now)
    {
      assert x in order && x in Places(s.mapInfo) && x != id;
    }
  }

  lemma SelectFirst(e: Env, s: State, n: nat, j: int, network: Option<Network>, filtered: bool, now: int,
                    order: seq<int>, t: State, picked: seq<int>, more: seq<int>)
    requires RandomIndexed(Places(s.mapInfo), s.vRandom) && |order| > 0 && j == s.At(order[0]).randomPos
    requires Selectable(e, s, n, network, filtered, now, order) && t == SwapRandom(s, n, j)
    requires more == picked + [order[0]]
    ensures n <= j < |s.vRandom| == |t.vRandom| && RandomIndexed(Places(t.mapInfo), t.vRandom)
    ensures PickNext(e, t, n, network, filtered, now, picked) == more
    ensures Selectable(e, t, n + 1, network, filtered, now, order[1..])
  {
    SelectNext(e, s, n, j, network, filtered, now, order, t);
    RandomSwapped(s, n, j);
  }

  /** Every selection of entries that pass the filter can come out, in every order, if the
      random numbers are right. */
  lemma {:induction false} AnySelection(e: Env, s: State, n: nat, limit: nat, network: Option<Network>, filtered: bool,
                                        now: int, picked: seq<int>, order: seq<int>) returns (draws: nat -> nat)
    requires RandomIndexed(Places(s.mapInfo), s.vRandom) && n <= |s.vRandom| && |picked| + |order| == limit
    requires Selectable(e, s, n, network, filtered, now, order)
    ensures Selected(e, s, n, limit, network, filtered, now, draws, picked, order)
    decreases |order|
  {
    if |order| == 0 {
      draws := (i: nat) => 0;
      NoneSelected(e, s, n, limit, network, filtered, now, draws, picked);
    } else {
      var j, more, next := s.At(order[0]).randomPos, picked + [order[0]], n + 1;
      var t := SwapRandom(s, n, j);
      SelectFirst(e, s, n, j, network, filtered, now, order, t, picked, more);
      var rest := AnySelection(e, t, next, limit, network, filtered, now, more, order[1..]);
      draws := FirstDraw(n, j - n, rest);
      SelectStep(e, s, n, limit, network, filtered, now, picked, order, t, next, more, rest, draws, j);
    }
  }

  /** What GetAddr picks from place `n` on. */
  ghost predicate Selected(e: Env, s: State, n: nat, limit: nat, network: Option<Network>, filtered: bool, now: int,
                           draws: nat -> nat, picked: seq<int>, order: seq<int>) {
    GetAddrFrom(e, s, n, limit, network, filtered, now, draws, picked).1 == picked + order
  }

  lemma NoneSelected(e: Env, s: State, n: nat, limit: nat, network: Option<Network>, filtered: bool, now: int,
                     draws: nat -> nat, picked: seq<int>)
    requires |picked| == limit
    ensures Selected(e, s, n, limit, network, filtered, now, draws, picked, [])
  {
    assert picked + [] == picked;
  }

  function FirstDraw(n: nat, first: nat, rest: nat -> nat): (draws: nat -> nat)
    ensures draws(n) == first && forall i :: n < i ==> draws(i) == rest(i)
  {
    (i: nat) => if i == n then first else rest(i)
  }

  lemma DrawThat(s: State, n: nat, draws: nat -> nat, j: int)
    requires n <= j < |s.vRandom| && draws(n) == j - n
    ensures Draw(s, n, draws) == j
  {
  }

  lemma SelectStep(e: Env, s: State, n: nat, limit: nat, network: Option<Network>, filtered: bool, now: int,
                   picked: seq<int>, order: seq<int>, t: State, next: nat, more: seq<int>, rest: nat -> nat,
                   draws: nat -> nat, j: int)
    requires n <= j < |s.vRandom| == |t.vRandom| && |picked| < limit && next == n + 1 && draws(n) == j - n
    requires t == SwapRandom(s, n, j) && more == PickNext(e, t, n, network, filtered, now, picked)
    requires (forall i :: next <= i ==> draws(i) == rest(i)) && |order| > 0 && more == picked + [order[0]]
    requires Selected(e, t, next, limit, network, filtered, now, rest, more, order[1..])
    ensures Selected(e, s, n, limit, network, filtered, now, draws, picked, order)
  {
    DrawThat(s, n, draws, j);
    var a := GetAddrFrom(e, s, n, limit, network, filtered, now, draws, picked);
    var b := GetAddrFrom(e, t, next, limit, network, filtered, now, rest, more);
    assert a == b by { SelectSame(e, s, n, limit, network, filtered, now, picked, t, next, more, rest, draws, j); }
    assert more + order[1..] == picked + order;
  }

  lemma SelectSame(e: Env, s: State, n: nat, limit: nat, network: Option<Network>, filtered: bool, now: int,
                   picked: seq<int>, t: State, next: nat, more: seq<int>, rest: nat -> nat, draws: nat -> nat, j: int)
    requires n < |s.vRandom| == |t.vRandom| && |picked| < limit && next == n + 1 && Draw(s, n, draws) == j
    requires t == SwapRandom(s, n, j) && more == PickNext(e, t, n, network, filtered, now, picked)
    requires forall i :: next <= i ==> draws(i) == rest(i)
    ensures GetAddrFrom(e, s, n, limit, network, filtered, now, draws, picked) ==
            GetAddrFrom(e, t, next, limit, network, filtered, now, rest, more)
  {
    DrawsAgree(e, t, next, limit, network, filtered, now, draws, rest, more);
    GetAddrNext(e, s, n, limit, network, filtered, now, draws, picked, t, next, more);
  }
}
