/**
 What becomes of the entries that wait for an occupied slot of the tried table.
 */
module AddrManCollisions {
  import opened AddrManEffects
  import opened AddrManInvariant
  import opened AddrManOperations
  import opened AddrManRecords
  import opened AddrManRuns
  import opened AddrManState
  import opened AddrManSteps
  import opened Helpers

  /** The holder was reached within the last four hours. */
  predicate Trusted(holder: Info, now: int) { now - holder.lastSuccess < 14400 }

  /** The holder was not reached for four hours, and either it was tried in vain, more than
      a minute ago, or nobody tried it and the newcomer has waited for 40 minutes. */
  predicate Yields(holder: Info, newcomer: Info, now: int) {
    && now - holder.lastSuccess >= 14400
    && (60 < now - holder.lastTry < 14400 || (now - holder.lastTry >= 14400 && now - newcomer.lastSuccess > 2400))
  }

  /** The newcomer has the slot; the holder is back in the new table, and nothing else is
      known about anyone. */
  ghost predicate Replaced(s: State, t: State, id: int, k: Slot, now: int) {
    && t.key == s.key && t.nIdCount == s.nIdCount
    && t.vvTried == s.vvTried[k := id] && t.collisions == s.collisions - {id}
    && id in t.mapInfo && t.mapInfo[id].inTried && t.mapInfo[id].lastSuccess == now
    && (k in s.vvTried && s.vvTried[k] != id ==> s.vvTried[k] in t.mapInfo && !t.mapInfo[s.vvTried[k]].inTried)
    && forall j :: j in t.mapInfo && j != id ==> Origin(s, t, j)
  }

  /** One collision is decided. */
  ghost predicate Settled(e: Env, s: State, t: State, id: int, now: int) {
    if id !in s.mapInfo then t == s.(collisions := s.collisions - {id})
    else
      var k := TriedSlot(e, s.key, s.mapInfo[id].addr);
      && k in s.vvTried && s.vvTried[k] in s.mapInfo
      && var holder := s.mapInfo[s.vvTried[k]];
         if Yields(holder, s.mapInfo[id], now) then Replaced(s, t, id, k, now)
         else if Trusted(holder, now) then t == s.(collisions := s.collisions - {id})
         else t == s
  }

  lemma EvictedBack(e: Env, s: State, id: int, a: Service, now: int, k: Slot)
    requires Inv(e, s) && now > 0 && s.Find(a) == Some(id) && k == TriedSlot(e, s.key, s.mapInfo[id].addr)
    requires k in s.vvTried && s.vvTried[k] != id
    ensures var t := Good(e, s, a, false, now).0; s.vvTried[k] in t.mapInfo && !t.mapInfo[s.vvTried[k]].inTried
  {
    GoodIs(e, s, a, false, now);
    ReachedInv(e, s, a, now);
    var r := Reached(s, id, now);
    HasRefs(e, r, id);
    assert r.mapInfo[id].inTried <==> id in TriedIds(r.mapInfo);
    MakeTriedEffect(e, r, id);
  }

  lemma GoodKeepsNumbers(e: Env, s: State, a: Service, now: int)
    requires Inv(e, s)
    ensures var t := Good(e, s, a, false, now).0; t.key == s.key && t.nIdCount == s.nIdCount
  {
    GoodIs(e, s, a, false, now);
    if s.Find(a).Some? { MakeTriedFrame(e, Reached(s, s.Find(a).value, now), s.Find(a).value); }
  }

  lemma GoodReplaces(e: Env, s: State, id: int, now: int, k: Slot)
    requires Inv(e, s) && now > 0 && id in s.collisions && id in s.mapInfo
    requires k == TriedSlot(e, s.key, s.mapInfo[id].addr) && k in s.vvTried
    ensures Replaced(s, ForgetCollision(Good(e, s, s.mapInfo[id].addr, false, now).0, id), id, k, now)
  {
    var a := s.mapInfo[id].addr;
    var t := Good(e, s, a, false, now).0;
    assert id in Addrs(s.mapInfo);
    assert s.mapAddr[a] == id && s.Find(a) == Some(id);
    GoodEffect(e, s, a, false, now);
    GoodKeepsNumbers(e, s, a, now);
    if s.mapInfo[id].inTried { assert id in TriedIds(s.mapInfo); }
    if s.vvTried[k] != id { EvictedBack(e, s, id, a, now, k); }
    forall j | j in t.mapInfo && j != id ensures Origin(s, t, j) { GoodOrigin(e, s, id, a, false, now, j); }
  }

  lemma JudgedSettles(e: Env, s: State, id: int, now: int, k: Slot)
    requires id in s.mapInfo && k == TriedSlot(e, s.key, s.mapInfo[id].addr) && IsValidAddr(e, s.mapInfo[id].addr)
    requires k in s.vvTried && s.vvTried[k] in s.mapInfo
    requires Replaced(s, ForgetCollision(Good(e, s, s.mapInfo[id].addr, false, now).0, id), id, k, now)
    ensures Settled(e, s, ResolveOne(e, s, id, now), id, now)
  {
  }

  lemma CollisionMet(e: Env, s: State, id: int, k: Slot)
    requires Inv(e, s) && id in s.collisions && id in s.mapInfo && k == TriedSlot(e, s.key, s.mapInfo[id].addr)
    ensures IsValidAddr(e, s.mapInfo[id].addr) && k in s.vvTried && s.vvTried[k] in s.mapInfo
  {
    SaneEntry(e, s, id);
    TriedTarget(e, s, k, {}, {});
  }

  /** A collision is decided for the newcomer exactly if the holder yields; a trusted holder
      stays and the collision is forgotten, and so is one without an entry. Otherwise nothing
      happens. */
  lemma ResolveOneEffect(e: Env, s: State, id: int, now: int)
    requires Inv(e, s) && now > 0 && id in s.collisions
    ensures Settled(e, s, ResolveOne(e, s, id, now), id, now)
  {
    if id in s.mapInfo {
      var k := TriedSlot(e, s.key, s.mapInfo[id].addr);
      CollisionMet(e, s, id, k);
      GoodReplaces(e, s, id, now, k);
      JudgedSettles(e, s, id, now, k);
    }
  }

  /** So every round of the loop settles its collision. */
  lemma ResolveStepSettles(e: Env, s: State, clock: int -> int, i: nat)
    requires Inv(e, s) && (forall id :: clock(id) > 0) && i < |Ascending(s.collisions)|
    ensures var ids := Ascending(s.collisions);
            Settled(e, Resolve(e, s, ids[..i], clock), Resolve(e, s, ids[..i + 1], clock), ids[i], clock(ids[i]))
  {
    var ids := Ascending(s.collisions);
    var t, u := Resolve(e, s, ids[..i], clock), Resolve(e, s, ids[..i + 1], clock);
    ResolveStep(e, s, clock, ids, i, t, u);
    ResolveOneEffect(e, t, ids[i], clock(ids[i]));
  }

  lemma ResolveStep(e: Env, s: State, clock: int -> int, ids: seq<int>, i: nat, t: State, u: State)
    requires Inv(e, s) && (forall id :: clock(id) > 0) && ids == Ascending(s.collisions) && i < |ids|
    requires t == Resolve(e, s, ids[..i], clock) && u == Resolve(e, s, ids[..i + 1], clock)
    ensures Inv(e, t) && ids[i] in t.collisions && u == ResolveOne(e, t, ids[i], clock(ids[i]))
  {
    assert ids[i] in s.collisions && ids[i] !in ids[..i] by { AscendingVisits(s.collisions); }
    ResolveLeaves(e, s, ids[..i], clock, ids[i]);
    assert ids[..i + 1] == ids[..i] + [ids[i]];
    ResolveSnoc(e, s, ids[..i], ids[i], clock);
    ResolveKeepsInv(e, s, ids[..i], clock);
  }

  lemma {:induction false} ResolveSnoc(e: Env, s: State, ids: seq<int>, id: int, clock: int -> int)
    ensures Resolve(e, s, ids + [id], clock) == ResolveOne(e, Resolve(e, s, ids, clock), id, clock(id))
    decreases |ids|
  {
    if |ids| == 0 {
      assert ids + [id] == [id];
      assert Resolve(e, ResolveOne(e, s, id, clock(id)), [], clock) == ResolveOne(e, s, id, clock(id));
    } else {
      assert (ids + [id])[1..] == ids[1..] + [id];
      ResolveSnoc(e, ResolveOne(e, s, ids[0], clock(ids[0])), ids[1..], id, clock);
    }
  }

  // ----- a whole call

  /** A collision for slot `k` whose holder yields to it, as things stood in `s`. */
  ghost predicate Challenges(e: Env, s: State, clock: int -> int, id: int, k: Slot) {
    && id in s.mapInfo && TriedSlot(e, s.key, s.mapInfo[id].addr) == k
    && k in s.vvTried && s.vvTried[k] in s.mapInfo
    && Yields(s.mapInfo[s.vvTried[k]], s.mapInfo[id], clock(id))
  }

  /** The entry is as it was, as far as it matters here. */
  predicate SameTimes(s: State, t: State, id: int) {
    && id in s.mapInfo && id in t.mapInfo
    && t.mapInfo[id].lastSuccess == s.mapInfo[id].lastSuccess && t.mapInfo[id].lastTry == s.mapInfo[id].lastTry
  }

  /** `w` is the first of the collisions `done` that challenges slot `k` and is still there. */
  ghost predicate First(e: Env, s: State, t: State, clock: int -> int, done: set<int>, k: Slot, w: int) {
    && w in done && w in t.mapInfo && Challenges(e, s, clock, w, k)
    && forall j :: j in done && j in t.mapInfo && j < w ==> !Challenges(e, s, clock, j, k)
  }

  /** The slot has gone to the first challenger; without one its holder has it still. */
  ghost predicate SlotSettled(e: Env, s: State, t: State, clock: int -> int, done: set<int>, k: Slot)
    requires k in s.vvTried
  {
    && k in t.vvTried
    && if forall j :: j in done && j in t.mapInfo ==> !Challenges(e, s, clock, j, k)
       then t.vvTried[k] == s.vvTried[k] && SameTimes(s, t, s.vvTried[k])
       else First(e, s, t, clock, done, k, t.vvTried[k]) && t.mapInfo[t.vvTried[k]].lastSuccess == clock(t.vvTried[k])
  }

  /** A collision goes on waiting if nobody up to it challenged its slot and the holder is not trusted. */
  ghost predicate Waits(e: Env, s: State, t: State, clock: int -> int, done: set<int>, id: int)
    requires id in s.mapInfo
  {
    var k := TriedSlot(e, s.key, s.mapInfo[id].addr);
    && k in s.vvTried && s.vvTried[k] in s.mapInfo && !Trusted(s.mapInfo[s.vvTried[k]], clock(id))
    && forall j :: j in done && j in t.mapInfo && j <= id ==> !Challenges(e, s, clock, j, k)
  }

  ghost predicate EntriesAfter(s: State, t: State, done: set<int>) {
    forall j :: j in t.mapInfo ==> SameName(s, t, j) && (j !in done ==> SameTimes(s, t, j))
  }

  ghost predicate SlotsAfter(e: Env, s: State, t: State, clock: int -> int, done: set<int>) {
    forall k :: k in s.vvTried ==> SlotSettled(e, s, t, clock, done, k)
  }

  ghost predicate CollisionsAfter(e: Env, s: State, t: State, clock: int -> int, done: set<int>) {
    && t.collisions <= s.collisions
    && (forall j :: j in s.collisions && j !in done ==> j in t.collisions)
    && forall j :: j in done && j in t.mapInfo ==>
         j in s.mapInfo && (j in t.collisions <==> Waits(e, s, t, clock, done, j))
  }

  /** What a call that has looked at the collisions `done` has made of the state. */
  ghost predicate Outcome(e: Env, s: State, t: State, clock: int -> int, done: set<int>) {
    && t.key == s.key && t.vvTried.Keys == s.vvTried.Keys
    && EntriesAfter(s, t, done) && SlotsAfter(e, s, t, clock, done) && CollisionsAfter(e, s, t, clock, done)
  }

  /** Within one call the clock goes on by less than four hours. */
  ghost predicate Brief(clock: int -> int) { forall i, j :: clock(i) - clock(j) < 14400 }

  /** A collision that changes no entry. */
  lemma SlotStays(e: Env, s: State, t: State, u: State, clock: int -> int, done: set<int>, id: int, k: Slot)
    requires k in s.vvTried && SlotSettled(e, s, t, clock, done, k) && u.mapInfo == t.mapInfo && u.vvTried == t.vvTried
    requires forall j :: j in done ==> j < id
    requires id in t.mapInfo && Challenges(e, s, clock, id, k) ==>
             exists j :: j in done && j in t.mapInfo && Challenges(e, s, clock, j, k)
    ensures SlotSettled(e, s, u, clock, done + {id}, k)
  {
  }

  lemma WaitsStill(e: Env, s: State, t: State, u: State, clock: int -> int, done: set<int>, id: int, j: int)
    requires u.mapInfo == t.mapInfo && j in s.mapInfo && j < id
    ensures Waits(e, s, u, clock, done + {id}, j) <==> Waits(e, s, t, clock, done, j)
  {
  }

  /** The collision is over or waits, and no entry changes. */
  lemma Unmoved(e: Env, s: State, t: State, u: State, clock: int -> int, done: set<int>, id: int)
    requires Outcome(e, s, t, clock, done) && (forall j :: j in done ==> j < id) && id in s.collisions
    requires u == t || u == t.(collisions := t.collisions - {id})
    requires forall k :: id in t.mapInfo && Challenges(e, s, clock, id, k) ==>
             exists j :: j in done && j in t.mapInfo && Challenges(e, s, clock, j, k)
    requires id in t.mapInfo ==> id in s.mapInfo && (id in u.collisions <==> Waits(e, s, u, clock, done + {id}, id))
    ensures Outcome(e, s, u, clock, done + {id})
  {
    forall k | k in s.vvTried ensures SlotSettled(e, s, u, clock, done + {id}, k) {
      SlotStays(e, s, t, u, clock, done, id, k);
    }
    forall j | j in done && j in u.mapInfo ensures j in u.collisions <==> Waits(e, s, u, clock, done + {id}, j) {
      WaitsStill(e, s, t, u, clock, done, id, j);
    }
    forall j | j in u.mapInfo ensures SameName(s, u, j) && (j !in done + {id} ==> SameTimes(s, u, j)) {
      assert SameName(s, t, j) && (j !in done ==> SameTimes(s, t, j));
    }
  }

  /** The tried table holds entries at the slots they hash to. */
  ghost predicate Seated(e: Env, s: State) {
    forall k :: k in s.vvTried ==>
      s.vvTried[k] in s.mapInfo && k == TriedSlot(e, s.key, s.mapInfo[s.vvTried[k]].addr)
  }

  lemma SeatedAlways(e: Env, s: State)
    requires Inv(e, s)
    ensures Seated(e, s)
  {
    forall k | k in s.vvTried
      ensures s.vvTried[k] in s.mapInfo && k == TriedSlot(e, s.key, s.mapInfo[s.vvTried[k]].addr)
    {
      TriedTarget(e, s, k, {}, {});
    }
  }

  /** A holder at another slot than the one that changes hands. */
  lemma HolderStays(e: Env, s: State, t: State, u: State, id: int, k: Slot, now: int, other: Slot)
    requires Seated(e, u) && Replaced(t, u, id, k, now) && k == TriedSlot(e, t.key, u.mapInfo[id].addr)
    requires other in t.vvTried && other != k
    ensures other in u.vvTried && u.vvTried[other] == t.vvTried[other] != id && SameTimes(t, u, t.vvTried[other])
  {
    assert Origin(t, u, u.vvTried[other]);
  }

  lemma SlotElsewhere(e: Env, s: State, t: State, u: State, clock: int -> int, done: set<int>, id: int, k: Slot,
                      other: Slot)
    requires other in s.vvTried && SlotSettled(e, s, t, clock, done, other) && other != k
    requires other in u.vvTried && u.vvTried[other] == t.vvTried[other] && SameTimes(t, u, t.vvTried[other])
    requires !Challenges(e, s, clock, id, other) && forall j :: j in u.mapInfo && j != id ==> j in t.mapInfo
    ensures SlotSettled(e, s, u, clock, done + {id}, other)
  {
    var h := t.vvTried[other];
    if forall j :: j in done && j in t.mapInfo ==> !Challenges(e, s, clock, j, other) {
      assert forall j :: j in done + {id} && j in u.mapInfo ==> !Challenges(e, s, clock, j, other);
    } else {
      assert h in done + {id} && h in u.mapInfo && Challenges(e, s, clock, h, other);
      assert First(e, s, u, clock, done + {id}, other, h);
    }
  }

  lemma SlotTaken(e: Env, s: State, t: State, u: State, clock: int -> int, done: set<int>, id: int, k: Slot)
    requires k in s.vvTried && Replaced(t, u, id, k, clock(id)) && Challenges(e, s, clock, id, k)
    requires forall j :: j in done && j in t.mapInfo ==> !Challenges(e, s, clock, j, k)
    ensures SlotSettled(e, s, u, clock, done + {id}, k)
  {
    forall j | j in done + {id} && j in u.mapInfo && j < id ensures !Challenges(e, s, clock, j, k) {
      assert Origin(t, u, j);
    }
    assert id in done + {id} && id in u.mapInfo && First(e, s, u, clock, done + {id}, k, id);
  }

  /** Whether an earlier collision waits does not change. */
  lemma WaitsAsBefore(e: Env, s: State, t: State, u: State, clock: int -> int, done: set<int>, id: int, j: int)
    requires j in s.mapInfo && j < id && (forall i :: i in u.mapInfo && i != id ==> i in t.mapInfo)
    requires var k := TriedSlot(e, s.key, s.mapInfo[j].addr);
             k in s.vvTried ==>
               && SlotSettled(e, s, t, clock, done, k) && k in u.vvTried
               && ((u.vvTried[k] in u.mapInfo && u.vvTried[k] == t.vvTried[k]) ||
                   forall i :: i in done && i in t.mapInfo ==> !Challenges(e, s, clock, i, k))
    ensures Waits(e, s, u, clock, done + {id}, j) <==> Waits(e, s, t, clock, done, j)
  {
  }

  ghost predicate Handover(e: Env, s: State, t: State, u: State, clock: int -> int, done: set<int>, id: int, k: Slot) {
    && (forall j :: j in done ==> j < id) && id in t.mapInfo && k in s.vvTried && t.key == s.key
    && Replaced(t, u, id, k, clock(id)) && Challenges(e, s, clock, id, k) && SameName(t, u, id) && SameName(s, t, id)
    && forall j :: j in done && j in t.mapInfo ==> !Challenges(e, s, clock, j, k)
  }

  lemma MovedSlot(e: Env, s: State, t: State, u: State, clock: int -> int, done: set<int>, id: int, k: Slot,
                  other: Slot)
    requires Seated(e, u) && Handover(e, s, t, u, clock, done, id, k)
    requires other in s.vvTried && SlotSettled(e, s, t, clock, done, other)
    ensures SlotSettled(e, s, u, clock, done + {id}, other)
  {
    if other == k {
      SlotTaken(e, s, t, u, clock, done, id, k);
    } else {
      HolderStays(e, s, t, u, id, k, clock(id), other);
      forall j | j in u.mapInfo && j != id ensures j in t.mapInfo { assert Origin(t, u, j); }
      SlotElsewhere(e, s, t, u, clock, done, id, k, other);
    }
  }

  lemma MovedSlots(e: Env, s: State, t: State, u: State, clock: int -> int, done: set<int>, id: int, k: Slot)
    requires Seated(e, u) && Handover(e, s, t, u, clock, done, id, k) && SlotsAfter(e, s, t, clock, done)
    ensures SlotsAfter(e, s, u, clock, done + {id})
  {
    forall other | other in s.vvTried ensures SlotSettled(e, s, u, clock, done + {id}, other) {
      MovedSlot(e, s, t, u, clock, done, id, k, other);
    }
  }

  lemma MovedWaits(e: Env, s: State, t: State, u: State, clock: int -> int, done: set<int>, id: int, k: Slot, j: int)
    requires Seated(e, u) && Handover(e, s, t, u, clock, done, id, k) && j in done && j in s.mapInfo
    requires SlotsAfter(e, s, t, clock, done)
    ensures Waits(e, s, u, clock, done + {id}, j) <==> Waits(e, s, t, clock, done, j)
  {
    var mine := TriedSlot(e, s.key, s.mapInfo[j].addr);
    forall i | i in u.mapInfo && i != id ensures i in t.mapInfo { assert Origin(t, u, i); }
    if mine in s.vvTried {
      assert SlotSettled(e, s, t, clock, done, mine);
      if mine != k { HolderStays(e, s, t, u, id, k, clock(id), mine); }
    }
    WaitsAsBefore(e, s, t, u, clock, done, id, j);
  }

  lemma MovedEntry(s: State, t: State, u: State, id: int, k: Slot, now: int, j: int)
    requires Replaced(t, u, id, k, now) && j in u.mapInfo && SameName(t, u, id) &&
             (j in t.mapInfo ==> SameName(s, t, j))
    ensures SameName(s, u, j) && j in t.mapInfo && (j != id && SameTimes(s, t, j) ==> SameTimes(s, u, j))
  {
    assert j != id ==> Origin(t, u, j);
  }

  lemma MovedEntries(e: Env, s: State, t: State, u: State, clock: int -> int, done: set<int>, id: int, k: Slot)
    requires EntriesAfter(s, t, done) && Handover(e, s, t, u, clock, done, id, k)
    ensures EntriesAfter(s, u, done + {id})
  {
    forall j | j in u.mapInfo ensures SameName(s, u, j) && (j !in done + {id} ==> SameTimes(s, u, j)) {
      MovedEntry(s, t, u, id, k, clock(id), j);
    }
  }

  lemma MovedCollisions(e: Env, s: State, t: State, u: State, clock: int -> int, done: set<int>, id: int, k: Slot)
    requires Seated(e, u) && SlotsAfter(e, s, t, clock, done) && CollisionsAfter(e, s, t, clock, done)
    requires Handover(e, s, t, u, clock, done, id, k) && id in s.collisions
    ensures CollisionsAfter(e, s, u, clock, done + {id})
  {
    forall j | j in done + {id} && j in u.mapInfo
      ensures j in s.mapInfo && (j in u.collisions <==> Waits(e, s, u, clock, done + {id}, j))
    {
      if j != id {
        assert Origin(t, u, j);
        MovedWaits(e, s, t, u, clock, done, id, k, j);
      }
    }
  }

  /** The slot changes hands. */
  lemma Moved(e: Env, s: State, t: State, u: State, clock: int -> int, done: set<int>, id: int, k: Slot)
    requires Seated(e, u) && Outcome(e, s, t, clock, done) && id in s.collisions
    requires Handover(e, s, t, u, clock, done, id, k)
    ensures Outcome(e, s, u, clock, done + {id})
  {
    MovedEntries(e, s, t, u, clock, done, id, k);
    MovedSlots(e, s, t, u, clock, done, id, k);
    MovedCollisions(e, s, t, u, clock, done, id, k);
  }

  lemma HolderThen(e: Env, s: State, t: State, clock: int -> int, done: set<int>, id: int, k: Slot)
    requires k in s.vvTried && SlotSettled(e, s, t, clock, done, k) && Brief(clock)
    requires k in t.vvTried && t.vvTried[k] in t.mapInfo && SameTimes(s, t, id)
    ensures var h := t.mapInfo[t.vvTried[k]];
            if exists j :: j in done && j in t.mapInfo && Challenges(e, s, clock, j, k) then Trusted(h, clock(id))
            else SameTimes(s, t, s.vvTried[k]) && t.vvTried[k] == s.vvTried[k]
  {
  }

  /** What there is to know about the collision and its slot when it is looked at. */
  ghost predicate Met(e: Env, s: State, t: State, clock: int -> int, done: set<int>, id: int, k: Slot) {
    && (forall j :: j in done ==> j < id)
    && t.key == s.key && SameTimes(s, t, id) && SameName(s, t, id) && k == TriedSlot(e, t.key, t.mapInfo[id].addr)
    && k in s.vvTried && s.vvTried[k] in s.mapInfo && k in t.vvTried && t.vvTried[k] in t.mapInfo
    && var h := t.mapInfo[t.vvTried[k]];
       if exists j :: j in done && j in t.mapInfo && Challenges(e, s, clock, j, k) then Trusted(h, clock(id))
       else SameTimes(s, t, s.vvTried[k]) && t.vvTried[k] == s.vvTried[k]
  }

  lemma NextMeets(e: Env, s: State, t: State, clock: int -> int, done: set<int>, id: int, k: Slot)
    requires Outcome(e, s, t, clock, done) && Brief(clock) && Seated(e, s) && id in t.mapInfo
    requires (forall j :: j in done ==> j < id) && k == TriedSlot(e, t.key, t.mapInfo[id].addr)
    requires k in t.vvTried && t.vvTried[k] in t.mapInfo
    ensures Met(e, s, t, clock, done, id, k)
  {
    assert SameName(s, t, id) && SameTimes(s, t, id) && SlotSettled(e, s, t, clock, done, k);
    HolderThen(e, s, t, clock, done, id, k);
  }

  lemma NextYields(e: Env, s: State, t: State, u: State, clock: int -> int, done: set<int>, id: int, k: Slot)
    requires Met(e, s, t, clock, done, id, k) && Yields(t.mapInfo[t.vvTried[k]], t.mapInfo[id], clock(id))
    requires Replaced(t, u, id, k, clock(id)) && SameName(t, u, id)
    ensures Handover(e, s, t, u, clock, done, id, k)
  {
  }

  lemma NextStays(e: Env, s: State, t: State, u: State, clock: int -> int, done: set<int>, id: int, k: Slot)
    requires Met(e, s, t, clock, done, id, k) && !Yields(t.mapInfo[t.vvTried[k]], t.mapInfo[id], clock(id))
    requires u == if Trusted(t.mapInfo[t.vvTried[k]], clock(id)) then t.(collisions := t.collisions - {id}) else t
    requires id in t.collisions
    ensures forall other :: Challenges(e, s, clock, id, other) ==>
            exists j :: j in done && j in t.mapInfo && Challenges(e, s, clock, j, other)
    ensures id in u.collisions <==> Waits(e, s, u, clock, done + {id}, id)
  {
  }

  /** One more collision. */
  lemma OutcomeNext(e: Env, s: State, t: State, u: State, clock: int -> int, done: set<int>, id: int)
    requires Seated(e, s) && Seated(e, u) && Outcome(e, s, t, clock, done) && Brief(clock)
    requires (forall j :: j in done ==> j < id) && id in s.collisions && id in t.collisions
    requires Settled(e, t, u, id, clock(id)) && SameName(t, u, id)
    ensures Outcome(e, s, u, clock, done + {id})
  {
    if id !in t.mapInfo {
      Unmoved(e, s, t, u, clock, done, id);
    } else {
      var k := TriedSlot(e, t.key, t.mapInfo[id].addr);
      NextMeets(e, s, t, clock, done, id, k);
      if Yields(t.mapInfo[t.vvTried[k]], t.mapInfo[id], clock(id)) {
        NextYields(e, s, t, u, clock, done, id, k);
        Moved(e, s, t, u, clock, done, id, k);
      } else {
        NextStays(e, s, t, u, clock, done, id, k);
        Unmoved(e, s, t, u, clock, done, id);
      }
    }
  }

  lemma OutcomeBegins(e: Env, s: State, clock: int -> int)
    requires Seated(e, s)
    ensures Outcome(e, s, s, clock, {})
  {
  }

  lemma OutcomeStep(e: Env, s: State, t: State, u: State, clock: int -> int, ids: seq<int>, i: nat)
    requires Inv(e, s) && (forall id :: clock(id) > 0) && Brief(clock) && ids == Ascending(s.collisions) && i < |ids|
    requires t == Resolve(e, s, ids[..i], clock) && u == Resolve(e, s, ids[..i + 1], clock)
    requires Outcome(e, s, t, clock, SetOf(ids[..i]))
    ensures Outcome(e, s, u, clock, SetOf(ids[..i + 1]))
  {
    var done, id := SetOf(ids[..i]), ids[i];
    assert Seated(e, s) by { SeatedAlways(e, s); }
    assert id in s.collisions && (forall j :: j in done ==> j < id) && SetOf(ids[..i + 1]) == done + {id} by {
      AscendingNext(s.collisions, ids, i);
    }
    assert Settled(e, t, u, id, clock(id)) by { ResolveStepSettles(e, s, clock, i); }
    assert id in t.collisions && SameName(t, u, id) && Seated(e, u) by { ResolveStepFacts(e, s, clock, ids, i, t, u); }
    OutcomeNext(e, s, t, u, clock, done, id);
  }

  function SetOf(ids: seq<int>): set<int> { set j | j in ids }

  lemma AscendingNext(c: set<int>, ids: seq<int>, i: nat)
    requires ids == Ascending(c) && i < |ids|
    ensures ids[i] in c && (forall j :: j in SetOf(ids[..i]) ==> j < ids[i])
    ensures SetOf(ids[..i + 1]) == SetOf(ids[..i]) + {ids[i]}
  {
    AscendingVisits(c);
    assert ids[..i + 1] == ids[..i] + [ids[i]];
  }

  lemma {:induction false} OutcomeTo(e: Env, s: State, clock: int -> int, ids: seq<int>, i: nat)
    requires Inv(e, s) && (forall id :: clock(id) > 0) && Brief(clock) && ids == Ascending(s.collisions) && i <= |ids|
    ensures Outcome(e, s, Resolve(e, s, ids[..i], clock), clock, SetOf(ids[..i]))
  {
    if i == 0 {
      assert SetOf(ids[..i]) == {};
      assert Seated(e, s) by { SeatedAlways(e, s); }
      OutcomeBegins(e, s, clock);
    } else {
      OutcomeTo(e, s, clock, ids, i - 1);
      OutcomeStep(e, s, Resolve(e, s, ids[..i - 1], clock), Resolve(e, s, ids[..i], clock), clock, ids, i - 1);
    }
  }

  lemma ResolveStepFacts(e: Env, s: State, clock: int -> int, ids: seq<int>, i: nat, t: State, u: State)
    requires Inv(e, s) && (forall id :: clock(id) > 0) && ids == Ascending(s.collisions) && i < |ids|
    requires t == Resolve(e, s, ids[..i], clock) && u == Resolve(e, s, ids[..i + 1], clock)
    ensures ids[i] in t.collisions && SameName(t, u, ids[i]) && Seated(e, u)
  {
    ResolveStep(e, s, clock, ids, i, t, u);
    ResolveOneKeepsInv(e, t, ids[i], clock(ids[i]));
    SeatedAlways(e, u);
    assert ids[i] in u.mapInfo ==> ids[i] in Addrs(u.mapInfo);
    assert CollisionsHeld(e, t);
  }

  /** After a call every slot is held by the first collision that challenged it, and by its
      old holder if none did; and exactly those collisions are left that nobody settled. */
  lemma ResolveSettles(e: Env, s: State, clock: int -> int)
    requires Inv(e, s) && (forall id :: clock(id) > 0) && Brief(clock)
    ensures Outcome(e, s, Resolve(e, s, Ascending(s.collisions), clock), clock, s.collisions)
  {
    var ids := Ascending(s.collisions);
    AscendingVisits(s.collisions);
    OutcomeTo(e, s, clock, ids, |ids|);
    assert ids[..|ids|] == ids;
    assert SetOf(ids) == s.collisions;
  }
}
