/**
 The state of the address manager and the elementary steps that update it.

 The hash functions behind the bucket choice are left uninterpreted: an `Env`
 holds one total function per hash, into the range of its table.
 */
module AddrManState {
  import opened Helpers

  /** Table geometry and limits of src/addrman_impl.h and src/addrman.cpp. */
  const TRIED_BUCKET_COUNT: nat := 256
  const NEW_BUCKET_COUNT: nat := 1024
  const BUCKET_SIZE: nat := 64
  const NEW_BUCKETS_PER_ADDRESS: nat := 8
  const TRIED_COLLISION_SIZE: nat := 10

  /** Durations, in seconds. */
  const MINUTE: int := 60
  const HOUR: int := 3600
  const DAY: int := 86400
  const HORIZON: int := 30 * DAY
  const RETRIES: int := 3
  const MAX_FAILURES: int := 10
  const MIN_FAIL: int := 7 * DAY
  const REPLACEMENT: int := 4 * HOUR
  const TEST_WINDOW: int := 40 * MINUTE

  datatype Network = Unroutable | IPv4 | IPv6 | Onion | I2P | Cjdns | Internal

  datatype NetAddr = NetAddr(net: Network, bytes: seq<nat>)
  datatype Service = Service(ip: NetAddr, port: nat)
  datatype Address = Address(service: Service, services: set<nat>, time: int)

  type TriedIndex = b: nat | b < TRIED_BUCKET_COUNT
  type NewIndex = b: nat | b < NEW_BUCKET_COUNT
  type Position = p: nat | p < BUCKET_SIZE

  /** What the manager asks of code outside it: the three keyed bucket hashes
      (already reduced to their range), the classification of an address, and
      the checksum of the AS map. */
  datatype Env = Env(
    triedBucket: (nat, Service) -> TriedIndex,
    newBucket: (nat, Service, NetAddr) -> NewIndex,
    position: (nat, bool, nat, Service) -> Position,
    validIp: NetAddr -> bool,
    globalIp: NetAddr -> bool,
    networkOf: NetAddr -> Network,
    netClassOf: NetAddr -> Network,
    asmapChecksum: nat)

  datatype Slot = Slot(bucket: nat, pos: nat)

  function TriedSlot(e: Env, key: nat, a: Service): Slot {
    var bucket := e.triedBucket(key, a);
    Slot(bucket, e.position(key, false, bucket, a))
  }

  function NewBucket(e: Env, key: nat, a: Service, source: NetAddr): nat {
    e.newBucket(key, a, source)
  }

  function NewSlotIn(e: Env, key: nat, a: Service, bucket: nat): Slot {
    Slot(bucket, e.position(key, true, bucket, a))
  }

  function NewSlot(e: Env, key: nat, a: Service, source: NetAddr): Slot {
    NewSlotIn(e, key, a, NewBucket(e, key, a, source))
  }

  predicate IsValidAddr(e: Env, a: Service) { e.validIp(a.ip) }

  predicate IsRoutable(e: Env, a: Service) { IsValidAddr(e, a) && e.globalIp(a.ip) }

  function NetOf(e: Env, a: Service): Network { e.networkOf(a.ip) }

  /** AddrInfo. */
  datatype Info = Info(
    addr: Service,
    services: set<nat>,
    time: int,
    source: NetAddr,
    lastTry: int,
    lastCountAttempt: int,
    lastSuccess: int,
    attempts: int,
    refCount: int,
    inTried: bool,
    randomPos: int)
  {
    predicate IsTerrible(now: int) {
      if now - lastTry <= MINUTE then false
      else if time > now + 10 * MINUTE then true
      else if now - time > HORIZON then true
      else if lastSuccess == 0 && attempts >= RETRIES then true
      else now - lastSuccess > MIN_FAIL && attempts >= MAX_FAILURES
    }

    function OneRefLess(): Info { this.(refCount := refCount - 1) }

    function OneRefMore(): Info { this.(refCount := refCount + 1) }
  }

  const NO_ADDR := Service(NetAddr(Unroutable, []), 0)
  const BLANK := Info(NO_ADDR, {}, 0, NetAddr(Unroutable, []), 0, 0, 0, 0, 0, false, -1)

  function FreshInfo(a: Address, source: NetAddr): Info {
    Info(a.service, a.services, a.time, source, 0, 0, 0, 0, 0, false, -1)
  }

  datatype Counts = Counts(nNew: int, nTried: int)

  /** The indexes of AddrManImpl. A table is a map from its occupied slots. */
  datatype State = State(
    key: nat,
    nIdCount: int,
    mapInfo: map<int, Info>,
    mapAddr: map<Service, int>,
    vRandom: seq<int>,
    nTried: int,
    vvTried: map<Slot, int>,
    nNew: int,
    vvNew: map<Slot, int>,
    lastGood: int,
    collisions: set<int>,
    counts: map<Network, Counts>)
  {
    function At(id: int): Info { if id in mapInfo then mapInfo[id] else BLANK }

    function LastPlace(): int { |vRandom| - 1 }

    function With(id: int, info: Info): State { this.(mapInfo := mapInfo[id := info]) }

    function Find(a: Service): Option<int> {
      if a in mapAddr && mapAddr[a] in mapInfo then Some(mapAddr[a]) else None
    }
  }

  function CountOf(counts: map<Network, Counts>, net: Network): Counts {
    if net in counts then counts[net] else Counts(0, 0)
  }

  function Bump(counts: map<Network, Counts>, net: Network, dNew: int, dTried: int): map<Network, Counts> {
    var c := CountOf(counts, net);
    counts[net := Counts(c.nNew + dNew, c.nTried + dTried)]
  }

  /** The manager as constructed: every slot vacant. */
  function Initial(key: nat): State {
    State(key, 0, map[], map[], [], 0, map[], 0, map[], 1, {}, map[])
  }

  // ----- elementary steps

  function Create(e: Env, s: State, a: Address, source: NetAddr): State {
    var id := s.nIdCount;
    s.(nIdCount := id + 1,
       mapInfo := s.mapInfo[id := FreshInfo(a, source).(randomPos := |s.vRandom|)],
       mapAddr := s.mapAddr[a.service := id],
       vRandom := s.vRandom + [id],
       nNew := s.nNew + 1,
       counts := Bump(s.counts, NetOf(e, a.service), 1, 0))
  }

  function SwapRandom(s: State, i: int, j: int): State {
    if i == j || !(0 <= i < |s.vRandom|) || !(0 <= j < |s.vRandom|) then s else
      var id1, id2 := s.vRandom[i], s.vRandom[j];
      s.(mapInfo := s.mapInfo[id1 := s.At(id1).(randomPos := j)][id2 := s.At(id2).(randomPos := i)],
         vRandom := s.vRandom[i := id2][j := id1])
  }

  /** Remove an entry that stands last in vRandom from every index. */
  function Unlink(e: Env, s: State, id: int): State {
    var a := s.At(id).addr;
    s.(vRandom := if |s.vRandom| == 0 then [] else s.vRandom[..|s.vRandom| - 1],
       mapAddr := s.mapAddr - {a},
       mapInfo := s.mapInfo - {id},
       nNew := s.nNew - 1,
       counts := Bump(s.counts, NetOf(e, a), -1, 0))
  }

  function Delete(e: Env, s: State, id: int): State {
    Unlink(e, SwapRandom(s, s.At(id).randomPos, s.LastPlace()), id)
  }

  /** Take the reference at an occupied slot of the new table away. */
  function DropRef(s: State, slot: Slot): State {
    if slot !in s.vvNew then s else
      var id := s.vvNew[slot];
      s.With(id, s.At(id).OneRefLess()).(vvNew := s.vvNew - {slot})
  }

  /** Give an entry a reference at a vacant slot of the new table. */
  function AddRef(s: State, slot: Slot, id: int): State {
    s.With(id, s.At(id).OneRefMore()).(vvNew := s.vvNew[slot := id])
  }

  function ClearNew(e: Env, s: State, slot: Slot): State {
    if slot !in s.vvNew then s else
      var id := s.vvNew[slot];
      var t := DropRef(s, slot);
      if t.At(id).refCount == 0 then Delete(e, t, id) else t
  }

  function Wrap(start: nat, n: nat): (b: nat)
    ensures b < NEW_BUCKET_COUNT
  {
    (start + n) % NEW_BUCKET_COUNT
  }

  /** The scan of MakeTried: from bucket `start`, wrapping around, with `n`
      buckets already visited, stopping when the last reference is gone. */
  function ScanNew(e: Env, s: State, id: int, start: nat, n: nat): State
    decreases NEW_BUCKET_COUNT - n, start
  {
    if n >= NEW_BUCKET_COUNT then s else
      var slot := NewSlotIn(e, s.key, s.At(id).addr, Wrap(start, n));
      if slot in s.vvNew && s.vvNew[slot] == id then
        var t := DropRef(s, slot);
        if t.At(id).refCount == 0 then t else ScanNew(e, t, id, start, n + 1)
      else ScanNew(e, s, id, start, n + 1)
  }

  /** An entry leaves the set of counted new entries without leaving the manager. */
  function Uncount(e: Env, s: State, id: int): State {
    s.(nNew := s.nNew - 1, counts := Bump(s.counts, NetOf(e, s.At(id).addr), -1, 0))
  }

  /** An uncounted entry joins the new entries with one reference. */
  function Recount(e: Env, s: State, slot: Slot, id: int): State {
    s.With(id, s.At(id).(refCount := 1))
    .(vvNew := s.vvNew[slot := id], nNew := s.nNew + 1,
      counts := Bump(s.counts, NetOf(e, s.At(id).addr), 1, 0))
  }

  /** The tried entry at `slot` leaves the tried table. */
  function VacateTried(e: Env, s: State, slot: Slot): State {
    if slot !in s.vvTried then s else
      var id := s.vvTried[slot];
      s.With(id, s.At(id).(inTried := false))
      .(vvTried := s.vvTried - {slot}, nTried := s.nTried - 1,
        counts := Bump(s.counts, NetOf(e, s.At(id).addr), 0, -1))
  }

  /** An uncounted entry enters the tried table at a vacant slot. */
  function OccupyTried(e: Env, s: State, slot: Slot, id: int): State {
    s.With(id, s.At(id).(inTried := true))
    .(vvTried := s.vvTried[slot := id], nTried := s.nTried + 1,
      counts := Bump(s.counts, NetOf(e, s.At(id).addr), 0, 1))
  }

  /** Move the tried entry at `slot`, if any, back to the new table. */
  function EvictTried(e: Env, s: State, slot: Slot): State {
    if slot !in s.vvTried then s else
      var evictee := s.vvTried[slot];
      var t := VacateTried(e, s, slot);
      var home := NewSlot(e, t.key, t.At(evictee).addr, t.At(evictee).source);
      Recount(e, ClearNew(e, t, home), home, evictee)
  }

  function MakeTried(e: Env, s: State, id: int): State {
    var info := s.At(id);
    var scanned := ScanNew(e, s, id, NewBucket(e, s.key, info.addr, info.source), 0);
    var slot := TriedSlot(e, s.key, info.addr);
    OccupyTried(e, EvictTried(e, Uncount(e, scanned, id), slot), slot, id)
  }

  // ----- operations

  /** The refresh of an entry that AddSingle was told about again. */
  function Refreshed(info: Info, a: Address, penalty: int, now: int): Info {
    var interval := if now - a.time < DAY then HOUR else DAY;
    var time := if info.time < a.time - interval - penalty then Max(0, a.time - penalty) else info.time;
    info.(time := time, services := info.services + a.services)
  }

  /** What an existing entry must meet before it may get another reference;
      `draw` stands for the random number, reduced to 0..2^refCount. */
  predicate MayGainRef(info: Info, a: Address, draw: nat) {
    && a.time > info.time
    && !info.inTried
    && info.refCount != NEW_BUCKETS_PER_ADDRESS
    && (info.refCount > 0 ==> draw % Pow2(info.refCount) == 0)
  }

  /** The second half of AddSingle: give `id` the slot its source selects. */
  function Place(e: Env, s: State, id: int, source: NetAddr, now: int): (State, bool) {
    var slot := NewSlot(e, s.key, s.At(id).addr, source);
    if slot !in s.vvNew then (AddRef(s, slot, id), true)
    else if s.vvNew[slot] == id then (s, false)
    else
      var other := s.At(s.vvNew[slot]);
      if other.IsTerrible(now) || (other.refCount > 1 && s.At(id).refCount == 0) then
        (AddRef(ClearNew(e, s, slot), slot, id), true)
      else if s.At(id).refCount == 0 then (Delete(e, s, id), false)
      else (s, false)
  }

  /** AddSingle for an address that has an entry already. */
  function AddAgain(e: Env, s: State, id: int, a: Address, source: NetAddr, penalty: int, now: int, draw: nat)
    : (State, bool)
  {
    var info := Refreshed(s.At(id), a, penalty, now);
    var t := s.With(id, info);
    if MayGainRef(info, a, draw) then Place(e, t, id, source, now) else (t, false)
  }

  function Penalized(info: Info, penalty: int): Info { info.(time := Max(0, info.time - penalty)) }

  /** AddSingle for an address seen for the first time. */
  function AddNew(e: Env, s: State, a: Address, source: NetAddr, penalty: int, now: int): (State, bool) {
    var id := s.nIdCount;
    var t := Create(e, s, a, source);
    Place(e, t.With(id, Penalized(t.At(id), penalty)), id, source, now)
  }

  function AddSingle(e: Env, s: State, a: Address, source: NetAddr, timePenalty: int, now: int, draw: nat)
    : (State, bool)
  {
    if !IsRoutable(e, a.service) then (s, false) else
      var penalty := if a.service.ip == source then 0 else timePenalty;
      var found := s.Find(a.service);
      if found.Some? then AddAgain(e, s, found.value, a, source, penalty, now, draw)
      else AddNew(e, s, a, source, penalty, now)
  }

  function Add(e: Env, s: State, addrs: seq<Address>, source: NetAddr, timePenalty: int,
               now: int, draws: nat -> nat): (State, int)
  {
    if |addrs| == 0 then (s, 0) else
      var n := |addrs| - 1;
      var (t, added) := Add(e, s, addrs[..n], source, timePenalty, now, draws);
      var (u, ok) := AddSingle(e, t, addrs[n], source, timePenalty, now, draws(n));
      (u, if ok then added + 1 else added)
  }

  function Succeeded(info: Info, time: int): Info {
    info.(lastSuccess := time, lastTry := time, attempts := 0)
  }

  function Stamp(s: State, time: int): State { s.(lastGood := time) }

  function Collide(s: State, id: int): State { s.(collisions := s.collisions + {id}) }

  function ForgetCollision(s: State, id: int): State { s.(collisions := s.collisions - {id}) }

  /** Good_, once the entry is found and its statistics are updated. */
  function Promote(e: Env, s: State, id: int, testBeforeEvict: bool): (State, bool) {
    var info := s.At(id);
    if info.inTried || info.refCount <= 0 then (s, false)
    else if testBeforeEvict && TriedSlot(e, s.key, info.addr) in s.vvTried then
      if |s.collisions| < TRIED_COLLISION_SIZE then (Collide(s, id), false)
      else (s, false)
    else (MakeTried(e, s, id), true)
  }

  function Good(e: Env, s: State, a: Service, testBeforeEvict: bool, time: int): (State, bool) {
    var t := Stamp(s, time);
    var found := t.Find(a);
    if found.None? then (t, false) else
      Promote(e, t.With(found.value, Succeeded(t.At(found.value), time)), found.value, testBeforeEvict)
  }

  /** Two descriptions of an entry that agree on all that the indexes use. */
  predicate SameIndexing(a: Info, b: Info) {
    a.addr == b.addr && a.refCount == b.refCount && a.inTried == b.inTried && a.randomPos == b.randomPos
  }

  function Attempted(info: Info, lastGood: int, countFailure: bool, time: int): Info {
    if countFailure && info.lastCountAttempt < lastGood
    then info.(lastTry := time, lastCountAttempt := time, attempts := info.attempts + 1)
    else info.(lastTry := time)
  }

  function Attempt(s: State, a: Service, countFailure: bool, time: int): State {
    var found := s.Find(a);
    if found.None? then s else
      s.With(found.value, Attempted(s.At(found.value), s.lastGood, countFailure, time))
  }

  function Seen(info: Info, time: int): Info {
    if time - info.time > 20 * MINUTE then info.(time := time) else info
  }

  function Connected(s: State, a: Service, time: int): State {
    var found := s.Find(a);
    if found.None? then s else s.With(found.value, Seen(s.At(found.value), time))
  }

  function SetServices(s: State, a: Service, services: set<nat>): State {
    var found := s.Find(a);
    if found.None? then s else s.With(found.value, s.At(found.value).(services := services))
  }

  /** What ResolveCollisions_ decides about one collision. */
  datatype Verdict = Forget | Replace | Wait | Vacant

  function Judge(e: Env, s: State, id: int, now: int): Verdict {
    if id !in s.mapInfo then Forget else
      var info := s.mapInfo[id];
      var slot := TriedSlot(e, s.key, info.addr);
      if !IsValidAddr(e, info.addr) then Forget
      else if slot in s.vvTried then
        var evictee := s.At(s.vvTried[slot]);
        if now - evictee.lastSuccess < REPLACEMENT then Forget
        else if now - evictee.lastTry < REPLACEMENT then
          if now - evictee.lastTry > 60 then Replace else Wait
        else if now - info.lastSuccess > TEST_WINDOW then Replace
        else Wait
      else Vacant
  }

  function ResolveOne(e: Env, s: State, id: int, now: int): State {
    match Judge(e, s, id, now)
    case Forget => ForgetCollision(s, id)
    case Wait => s
    case _ =>
      ForgetCollision(Good(e, s, s.At(id).addr, false, now).0, id)
  }

  /** The collisions are visited in ascending order of id; `clock` gives the
      time read while one of them is looked at. */
  function Resolve(e: Env, s: State, ids: seq<int>, clock: int -> int): State
    decreases |ids|
  {
    if |ids| == 0 then s else
      Resolve(e, ResolveOne(e, s, ids[0], clock(ids[0])), ids[1..], clock)
  }

  /** The entry that a randomly chosen collision would evict. A dead collision
      is dropped instead. */
  function SelectTriedCollision(e: Env, s: State, id: int): (State, Option<int>) {
    if id !in s.collisions then (s, None)
    else if id !in s.mapInfo then (ForgetCollision(s, id), None)
    else
      var slot := TriedSlot(e, s.key, s.mapInfo[id].addr);
      (s, if slot in s.vvTried then Some(s.vvTried[slot]) else None)
  }

  /** How many entries GetAddr_ may return. */
  function AddrLimit(size: nat, maxAddresses: nat, maxPct: nat): nat {
    var pct := if maxPct > 100 then 100 else maxPct;
    var n := if maxPct != 0 then pct * size / 100 else size;
    if maxAddresses != 0 && maxAddresses < n then maxAddresses else n
  }

  predicate Wanted(e: Env, info: Info, network: Option<Network>, filtered: bool, now: int) {
    && (network.Some? ==> e.netClassOf(info.addr.ip) == network.value)
    && !(info.IsTerrible(now) && filtered)
  }

  /** A random place from `n` on. */
  function DrawFrom(size: nat, n: nat, draws: nat -> nat): (j: nat)
    requires n < size
    ensures n <= j < size
  {
    draws(n) % (size - n) + n
  }

  function Draw(s: State, n: nat, draws: nat -> nat): (j: nat)
    requires n < |s.vRandom|
    ensures n <= j < |s.vRandom|
  {
    DrawFrom(|s.vRandom|, n, draws)
  }

  function PickNext(e: Env, s: State, n: nat, network: Option<Network>, filtered: bool, now: int, picked: seq<int>)
    : seq<int>
    requires n < |s.vRandom|
  {
    if Wanted(e, s.At(s.vRandom[n]), network, filtered, now) then picked + [s.vRandom[n]] else picked
  }

  /** The loop of GetAddr_ from place `n` on: a partial shuffle of vRandom that
      collects ids; `draws` stands for the random numbers. */
  function GetAddrFrom(e: Env, s: State, n: nat, limit: nat, network: Option<Network>, filtered: bool,
                       now: int, draws: nat -> nat, picked: seq<int>): (State, seq<int>)
    decreases |s.vRandom| - n
  {
    if n >= |s.vRandom| || |picked| >= limit then (s, picked) else
      var t := SwapRandom(s, n, Draw(s, n, draws));
      GetAddrFrom(e, t, n + 1, limit, network, filtered, now, draws,
                  PickNext(e, t, n, network, filtered, now, picked))
  }

  lemma HasElement(c: set<int>)
    requires |c| != 0
    ensures exists x :: x in c
  {
    var x := Pick(c);
  }

  ghost function MinOf(c: set<int>): (m: int)
    requires |c| != 0
    ensures m in c && forall x :: x in c ==> m <= x
  {
    HasElement(c);
    var x :| x in c;
    if |c - {x}| == 0 then assert c == (c - {x}) + {x}; x else
      var m := MinOf(c - {x});
      assert c == (c - {x}) + {x};
      if x < m then x else m
  }

  /** The order in which a std::set is walked. */
  ghost function Ascending(c: set<int>): seq<int> {
    if |c| == 0 then [] else [MinOf(c)] + Ascending(c - {MinOf(c)})
  }

  /** One call of the public interface, with everything it draws from outside. */
  datatype Call =
    | CallAdd(addrs: seq<Address>, source: NetAddr, penalty: int, now: int, draws: nat -> nat)
    | CallGood(addr: Service, time: int)
    | CallAttempt(addr: Service, countFailure: bool, time: int)
    | CallConnected(addr: Service, time: int)
    | CallSetServices(addr: Service, services: set<nat>)
    | CallResolve(clock: int -> int)
    | CallSelect(choice: int)
    | CallGetAddr(maxAddresses: nat, maxPct: nat, network: Option<Network>, filtered: bool, now: int, draws: nat -> nat)

  /** Callers pass times after the epoch. */
  ghost predicate SaneCall(c: Call) {
    match c
    case CallGood(_, time) => time > 0
    case CallAttempt(_, _, time) => time >= 0
    case CallResolve(clock) => forall id :: clock(id) > 0
    case _ => true
  }

  ghost function Step(e: Env, s: State, c: Call): State {
    match c
    case CallAdd(addrs, source, penalty, now, draws) => Add(e, s, addrs, source, penalty, now, draws).0
    case CallGood(a, time) => Good(e, s, a, true, time).0
    case CallAttempt(a, countFailure, time) => Attempt(s, a, countFailure, time)
    case CallConnected(a, time) => Connected(s, a, time)
    case CallSetServices(a, services) => SetServices(s, a, services)
    case CallResolve(clock) => Resolve(e, s, Ascending(s.collisions), clock)
    case CallSelect(choice) => SelectTriedCollision(e, s, choice).0
    case CallGetAddr(maxAddresses, maxPct, network, filtered, now, draws) =>
      GetAddrFrom(e, s, 0, AddrLimit(|s.vRandom|, maxAddresses, maxPct), network, filtered, now, draws, []).0
  }

  ghost function Run(e: Env, s: State, calls: seq<Call>): State
    decreases |calls|
  {
    if |calls| == 0 then s else Run(e, Step(e, s, calls[0]), calls[1..])
  }
}
