/**
 What the operations of the address manager do, beyond keeping its indexes in step.
 */
module AddrManEffects {
  import opened AddrManState
  import opened AddrManInvariant
  import opened AddrManSteps
  import opened AddrManOperations
  import opened AddrManRuns
  import opened Helpers

  // ----- moving to the tried table

  /** Evicting puts the entry back where its own source selects, over whatever was there. */
  lemma EvictNew(e: Env, s: State, k: Slot, id: int)
    requires Core(e, s, {id}, {})
    ensures var t := EvictTried(e, s, k);
            && (k !in s.vvTried ==> t == s)
            && (k in s.vvTried ==>
                  && t.vvNew == s.vvNew[Home(e, s, k) := s.vvTried[k]]
                  && s.vvTried[k] in t.mapInfo && t.mapInfo[s.vvTried[k]].refCount == 1
                  && !t.mapInfo[s.vvTried[k]].inTried)
  {
    if k in s.vvTried {
      var evictee, home := s.vvTried[k], Home(e, s, k);
      var v := VacateTried(e, s, k);
      assert (s.vvNew - {home})[home := evictee] == s.vvNew[home := evictee];
      assert evictee in s.mapInfo by { TriedTarget(e, s, k, {id}, {}); }
      ClearNewFrame(e, v, home);
      EvictNewEntry(e, s, k, id, v, home);
    }
  }

  lemma EvictNewEntry(e: Env, s: State, k: Slot, id: int, v: State, home: Slot)
    requires Core(e, s, {id}, {}) && k in s.vvTried && v == VacateTried(e, s, k) && home == Home(e, s, k)
    ensures var c := ClearNew(e, v, home); s.vvTried[k] in c.mapInfo && !c.mapInfo[s.vvTried[k]].inTried
  {
    var evictee := s.vvTried[k];
    TriedTarget(e, s, k, {id}, {});
    VacateKeepsCore(e, s, k, {id}, {});
    var c := ClearNew(e, v, home);
    ClearNewKeepsCore(e, v, home, {id} + {evictee}, {});
    LimboTarget(e, c, evictee, {id} + {evictee}, {});
  }

  /** A promoted entry is at its tried slot and nowhere else; the entry that was there has
      one reference in the new table, at the slot its own source selects. */
  lemma MakeTriedEffect(e: Env, s: State, id: int)
    requires Inv(e, s) && id in s.mapInfo && !s.mapInfo[id].inTried && s.mapInfo[id].refCount > 0
    ensures var t, k := MakeTried(e, s, id), TriedSlot(e, s.key, s.mapInfo[id].addr);
            && t.vvTried == s.vvTried[k := id]
            && id in t.mapInfo && t.mapInfo[id].inTried && t.mapInfo[id].refCount == 0
            && t.mapInfo[id].lastSuccess == s.mapInfo[id].lastSuccess
            && t.mapInfo[id].attempts == s.mapInfo[id].attempts
            && (k !in s.vvTried ==> t.vvNew == s.vvNew - Refs(s.vvNew, id))
            && (k in s.vvTried ==>
                  && t.vvNew == (s.vvNew - Refs(s.vvNew, id))[Home(e, s, k) := s.vvTried[k]]
                  && s.vvTried[k] in t.mapInfo && t.mapInfo[s.vvTried[k]].refCount == 1
                  && !t.mapInfo[s.vvTried[k]].inTried)
  {
    var k := TriedSlot(e, s.key, s.mapInfo[id].addr);
    var u := LeaveNew(e, s, id);
    MakeTriedFrame(e, s, id);
    LeaveNewKeepsCore(e, s, id);
    EvictNew(e, u, k, id);
    EvictEntry(e, u, k, id);
    if k in s.vvTried { HomeSame(e, s, u, k, id); }
  }

  lemma HomeSame(e: Env, s: State, u: State, k: Slot, id: int)
    requires Inv(e, s) && id in s.mapInfo && !s.mapInfo[id].inTried && k in s.vvTried &&
             u == Uncount(e, Unreferenced(s, id), id)
    ensures u.vvTried == s.vvTried && Home(e, u, k) == Home(e, s, k) && s.vvTried[k] != id
  {
    TriedTarget(e, s, k, {}, {});
  }

  /** A successful connection: the entry's statistics are reset, and it is moved exactly if
      it is a new one and its tried slot is free, or eviction needs no test. If it would
      have to evict after a test, it waits among the collisions, while there is room. */
  lemma GoodEffect(e: Env, s: State, a: Service, testBeforeEvict: bool, time: int)
    requires Inv(e, s) && time > 0
    ensures var (t, ok) := Good(e, s, a, testBeforeEvict, time);
            && t.lastGood == time
            && (a !in s.mapAddr ==> !ok && t == s.(lastGood := time))
            && (a in s.mapAddr ==> GoodEntry(e, s, t, s.mapAddr[a], ok, testBeforeEvict, time))
  {
    var u := Stamp(s, time);
    FindFinds(e, s, a);
    if a in s.mapAddr {
      var id := s.mapAddr[a];
      var info := Succeeded(s.At(id), time);
      var v := u.With(id, info);
      assert Inv(e, v) by {
        StampKeepsInv(e, s, time);
        TouchKeepsInv(e, u, id, info);
      }
      PromoteEffect(e, s, v, id, testBeforeEvict, time);
    }
    GoodIs(e, s, a, testBeforeEvict, time);
  }

  ghost predicate GoodEntry(e: Env, s: State, t: State, id: int, ok: bool, testBeforeEvict: bool, time: int) {
    && id in s.mapInfo && id in t.mapInfo
    && t.mapInfo[id].lastSuccess == time && t.mapInfo[id].attempts == 0
    && var k := TriedSlot(e, s.key, s.mapInfo[id].addr);
    && (ok <==> !s.mapInfo[id].inTried && (!testBeforeEvict || k !in s.vvTried))
    && (ok ==> t.vvTried == s.vvTried[k := id] && t.mapInfo[id].inTried && t.collisions == s.collisions)
    && (!ok ==> t.vvTried == s.vvTried && t.vvNew == s.vvNew && t.mapInfo[id].inTried == s.mapInfo[id].inTried)
    && (!ok ==>
          t.collisions ==
          if !s.mapInfo[id].inTried && |s.collisions| < 10 then s.collisions + {id} else s.collisions)
  }

  lemma PromoteEffect(e: Env, s: State, v: State, id: int, testBeforeEvict: bool, time: int)
    requires Inv(e, v) && id in s.mapInfo && v == Stamp(s, time).With(id, Succeeded(s.At(id), time))
    ensures var (t, ok) := Promote(e, v, id, testBeforeEvict);
            t.lastGood == time && GoodEntry(e, s, t, id, ok, testBeforeEvict, time)
  {
    RefCountOf(e, v, id, {}, {});
    HasRefs(e, v, id);
    var k := TriedSlot(e, v.key, v.mapInfo[id].addr);
    if !v.mapInfo[id].inTried && !(testBeforeEvict && k in v.vvTried) {
      MakeTriedEffect(e, v, id);
      MakeTriedFrame(e, v, id);
    }
  }

  lemma HasRefs(e: Env, s: State, id: int)
    requires Inv(e, s) && id in s.mapInfo
    ensures s.mapInfo[id].inTried || s.mapInfo[id].refCount > 0
  {
    assert id in RefCounts(s.mapInfo);
  }

  /** A collision that is decided for the newcomer leaves it at the tried slot it competed
      for, and is forgotten. */
  lemma ReplaceEffect(e: Env, s: State, id: int, now: int)
    requires Inv(e, s) && now > 0 && id in s.mapInfo && Judge(e, s, id, now) == Replace
    ensures var t, k := ResolveOne(e, s, id, now), TriedSlot(e, s.key, s.mapInfo[id].addr);
            k in t.vvTried && t.vvTried[k] == id && t.collisions == s.collisions - {id}
  {
    var a := s.mapInfo[id].addr;
    assert id in Addrs(s.mapInfo);
    GoodEffect(e, s, a, false, now);
    assert s.mapAddr[a] == id;
    if s.mapInfo[id].inTried { assert id in TriedIds(s.mapInfo); }
  }

  // ----- adding an address

  /** The occupant of a slot makes way for an entry without references if it is terrible
      or has other references, and for any entry if it is terrible. */
  predicate GivesWay(s: State, k: Slot, refCount: int, now: int) {
    k in s.vvNew && (s.At(s.vvNew[k]).IsTerrible(now) || (s.At(s.vvNew[k]).refCount > 1 && refCount == 0))
  }

  lemma Displace(e: Env, s: State, k: Slot, id: int)
    requires Core(e, s, {}, {id}) && id in s.mapInfo && k in s.vvNew && s.vvNew[k] != id
    ensures var t := AddRef(ClearNew(e, s, k), k, id);
            t.vvNew == s.vvNew[k := id] && id in t.mapInfo && t.mapInfo[id].refCount == s.mapInfo[id].refCount + 1
  {
    RefTarget(e, s, k, {}, {id});
    ClearNewFrame(e, s, k);
    ClearNewEntry(e, s, k, id);
    assert (s.vvNew - {k})[k := id] == s.vvNew[k := id];
  }

  /** The new table changes at one slot at most, and exactly if the entry gained it. An
      entry that gains none and has none is gone. */
  ghost predicate PlaceOutcome(e: Env, s: State, id: int, k: Slot, now: int, t: State, ok: bool) {
    && id in s.mapInfo
    && (ok <==> k !in s.vvNew || (s.vvNew[k] != id && GivesWay(s, k, s.mapInfo[id].refCount, now)))
    && (ok ==> t.vvNew == s.vvNew[k := id] && id in t.mapInfo && t.mapInfo[id].refCount == s.mapInfo[id].refCount + 1)
    && (!ok ==> t.vvNew == s.vvNew && (id in t.mapInfo <==> s.vvNew[k] == id || s.mapInfo[id].refCount != 0))
  }

  lemma PlaceEffect(e: Env, s: State, id: int, source: NetAddr, now: int, k: Slot)
    requires Core(e, s, {}, {id}) && id in s.mapInfo && k == NewSlot(e, s.key, s.mapInfo[id].addr, source)
    ensures var (t, ok) := Place(e, s, id, source, now); PlaceOutcome(e, s, id, k, now, t, ok)
  {
    var (t, ok) := Place(e, s, id, source, now);
    if k in s.vvNew && s.vvNew[k] != id {
      if GivesWay(s, k, s.mapInfo[id].refCount, now) {
        Displace(e, s, k, id);
        assert PlaceOutcome(e, s, id, k, now, t, ok);
      } else if s.mapInfo[id].refCount == 0 {
        DeleteFrame(e, s, id, id);
        assert t == Delete(e, s, id) && !ok;
        DeleteKeepsNew(e, s, id);
        assert PlaceOutcome(e, s, id, k, now, t, ok);
      } else {
        assert PlaceOutcome(e, s, id, k, now, t, ok);
      }
    } else {
      assert PlaceOutcome(e, s, id, k, now, t, ok);
    }
  }

  lemma DeleteKeepsNew(e: Env, s: State, id: int)
    ensures Delete(e, s, id).vvNew == s.vvNew
  {
  }

  lemma NewEntry(e: Env, s: State, a: Address, source: NetAddr, penalty: int, k: Slot, t: State)
    requires Inv(e, s) && a.service !in s.mapAddr && IsValidAddr(e, a.service) &&
             k == NewSlot(e, s.key, a.service, source)
    requires t == Create(e, s, a, source).With(s.nIdCount, Penalized(Create(e, s, a, source).At(s.nIdCount), penalty))
    ensures Core(e, t, {}, {s.nIdCount}) && t.vvNew == s.vvNew && t.key == s.key && s.nIdCount in t.mapInfo
    ensures t.mapInfo[s.nIdCount].addr == a.service && t.mapInfo[s.nIdCount].refCount == 0
    ensures k in s.vvNew ==> s.vvNew[k] != s.nIdCount && t.At(s.vvNew[k]) == s.At(s.vvNew[k])
  {
    CreatePendingKeepsCore(e, s, a, source, penalty);
    if k in s.vvNew { Occupant(e, s, k); }
  }

  /** An address that is not known: it is taken in exactly if the slot its source selects is
      vacant, or held by a terrible entry or by one with other references. Otherwise there
      is no trace of it. */
  lemma AddNewEffect(e: Env, s: State, a: Address, source: NetAddr, penalty: int, now: int)
    requires Inv(e, s) && a.service !in s.mapAddr && IsValidAddr(e, a.service)
    ensures var (t, ok) := AddNew(e, s, a, source, penalty, now);
            var k, id := NewSlot(e, s.key, a.service, source), s.nIdCount;
            && (ok <==> k !in s.vvNew || GivesWay(s, k, 0, now))
            && (ok ==> t.vvNew == s.vvNew[k := id] && id in t.mapInfo && t.mapInfo[id].refCount == 1)
            && (!ok ==> t.vvNew == s.vvNew && id !in t.mapInfo)
  {
    var k, id := NewSlot(e, s.key, a.service, source), s.nIdCount;
    var c := Create(e, s, a, source);
    var t := c.With(id, Penalized(c.At(id), penalty));
    NewEntry(e, s, a, source, penalty, k, t);
    assert PlaceOutcome(e, t, id, k, now, Place(e, t, id, source, now).0, Place(e, t, id, source, now).1) by {
      PlaceEffect(e, t, id, source, now, k);
    }
  }

  lemma Occupant(e: Env, s: State, k: Slot)
    requires Inv(e, s) && k in s.vvNew
    ensures s.vvNew[k] in s.mapInfo && s.vvNew[k] < s.nIdCount
  {
    RefTarget(e, s, k, {}, {});
    assert s.vvNew[k] in Addrs(s.mapInfo).Keys;
  }

  lemma AddAgainOutcome(e: Env, s: State, id: int, a: Address, source: NetAddr, penalty: int, now: int, draw: nat)
    requires Inv(e, s) && id in s.mapInfo
    ensures var (t, ok) := AddAgain(e, s, id, a, source, penalty, now, draw);
            var k, info := NewSlot(e, s.key, s.mapInfo[id].addr, source), Refreshed(s.mapInfo[id], a, penalty, now);
            && (ok <==>
                  && MayGainRef(info, a, draw)
                  && (k !in s.vvNew || (s.vvNew[k] != id && s.At(s.vvNew[k]).IsTerrible(now))))
            && (ok ==>
                  && t.vvNew == s.vvNew[k := id] && id in t.mapInfo
                  && t.mapInfo[id].refCount == s.mapInfo[id].refCount + 1)
            && (!ok ==> t.vvNew == s.vvNew && id in t.mapInfo)
  {
    var k, info := NewSlot(e, s.key, s.mapInfo[id].addr, source), Refreshed(s.mapInfo[id], a, penalty, now);
    var t := s.With(id, info);
    assert Core(e, t, {}, {id}) by {
      SaneEntry(e, s, id);
      TouchKeepsInv(e, s, id, info);
      PendingMore(e, t, {}, {}, {id});
    }
    assert s.mapInfo[id].inTried || s.mapInfo[id].refCount > 0 by { HasRefs(e, s, id); }
    assert t.vvNew == s.vvNew && t.key == s.key && t.mapInfo[id] == info;
    assert PlaceOutcome(e, t, id, k, now, Place(e, t, id, source, now).0, Place(e, t, id, source, now).1) by {
      PlaceEffect(e, t, id, source, now, k);
    }
  }

  /** An address that is known: it gains a reference exactly if it may, and its slot is
      vacant or held by a terrible entry. */
  lemma AddAgainEffect(e: Env, s: State, id: int, a: Address, source: NetAddr, penalty: int, now: int, draw: nat)
    requires Inv(e, s) && id in s.mapInfo
    ensures var (t, ok) := AddAgain(e, s, id, a, source, penalty, now, draw);
            var k, info := NewSlot(e, s.key, s.mapInfo[id].addr, source), Refreshed(s.mapInfo[id], a, penalty, now);
            && (ok <==>
                  && a.time > info.time && !info.inTried && info.refCount != 8
                  && (info.refCount > 0 ==> draw % Pow2(info.refCount) == 0)
                  && (k !in s.vvNew || (s.vvNew[k] != id && s.At(s.vvNew[k]).IsTerrible(now))))
            && (ok ==>
                  && t.vvNew == s.vvNew[k := id] && id in t.mapInfo
                  && t.mapInfo[id].refCount == s.mapInfo[id].refCount + 1)
            && (!ok ==> t.vvNew == s.vvNew && id in t.mapInfo)
  {
    AddAgainOutcome(e, s, id, a, source, penalty, now, draw);
  }

  /** AddSingle answers true exactly if the address gained a place in the new table, at the
      slot that its source selects; the table changes nowhere else. */
  lemma AddSingleEffect(e: Env, s: State, a: Address, source: NetAddr, timePenalty: int, now: int, draw: nat)
    requires Inv(e, s)
    ensures var (t, ok) := AddSingle(e, s, a, source, timePenalty, now, draw);
            var k := NewSlot(e, s.key, a.service, source);
            && (!ok ==> t.vvNew == s.vvNew)
            && (ok ==>
                  && IsRoutable(e, a.service)
                  && exists id :: id in t.mapInfo && t.vvNew == s.vvNew[k := id] && Gained(s, t, a.service, id))
            && (!(e.validIp(a.service.ip) && e.globalIp(a.service.ip)) ==> t == s)
  {
    if IsRoutable(e, a.service) {
      var penalty := if a.service.ip == source then 0 else timePenalty;
      FindFinds(e, s, a.service);
      if a.service in s.mapAddr {
        var id := s.mapAddr[a.service];
        AddAgainEffect(e, s, id, a, source, penalty, now, draw);
      } else {
        AddNewEffect(e, s, a, source, penalty, now);
      }
    }
  }

  /** The entry of this address, old or new, with one more reference. */
  ghost predicate Gained(s: State, t: State, a: Service, id: int) {
    && id == (if a in s.mapAddr then s.mapAddr[a] else s.nIdCount)
    && id in t.mapInfo && t.mapInfo[id].refCount == 1 + if a in s.mapAddr then s.At(id).refCount else 0
  }

  /** The i-th of the addresses gained a place when it was its turn. */
  ghost predicate GainedAt(e: Env, s: State, addrs: seq<Address>, source: NetAddr, timePenalty: int, now: int,
                           draws: nat -> nat, i: nat)
    requires i < |addrs|
  {
    var t := Add(e, s, addrs[..i], source, timePenalty, now, draws).0;
    AddSingle(e, t, addrs[i], source, timePenalty, now, draws(i)).1
  }

  /** Which of the first `n` did. */
  ghost function GainedBefore(e: Env, s: State, addrs: seq<Address>, source: NetAddr, timePenalty: int, now: int,
                              draws: nat -> nat, n: nat): (r: set<nat>)
    requires n <= |addrs|
    ensures forall i :: i in r ==> i < n
  {
    if n == 0 then {} else
      var before := GainedBefore(e, s, addrs, source, timePenalty, now, draws, n - 1);
      if GainedAt(e, s, addrs, source, timePenalty, now, draws, n - 1) then before + {n - 1} else before
  }

  lemma {:induction false} GainedIn(e: Env, s: State, addrs: seq<Address>, source: NetAddr, timePenalty: int, now: int,
                                    draws: nat -> nat, n: nat, i: nat)
    requires i < n <= |addrs|
    ensures i in GainedBefore(e, s, addrs, source, timePenalty, now, draws, n) <==>
            GainedAt(e, s, addrs, source, timePenalty, now, draws, i)
    decreases n
  {
    if i < n - 1 { GainedIn(e, s, addrs, source, timePenalty, now, draws, n - 1, i); }
  }

  lemma AddLast(e: Env, s: State, addrs: seq<Address>, source: NetAddr, timePenalty: int, now: int,
                draws: nat -> nat, m: nat, n: nat, hit: bool)
    requires n == m + 1 <= |addrs| && hit == GainedAt(e, s, addrs, source, timePenalty, now, draws, m)
    ensures Add(e, s, addrs[..n], source, timePenalty, now, draws).1 ==
            Add(e, s, addrs[..m], source, timePenalty, now, draws).1 + if hit then 1 else 0
  {
    assert addrs[..n][..m] == addrs[..m];
  }

  lemma GainedLast(e: Env, s: State, addrs: seq<Address>, source: NetAddr, timePenalty: int, now: int,
                   draws: nat -> nat, m: nat, n: nat, hit: bool)
    requires n == m + 1 <= |addrs| && hit == GainedAt(e, s, addrs, source, timePenalty, now, draws, m)
    ensures |GainedBefore(e, s, addrs, source, timePenalty, now, draws, n)| ==
            |GainedBefore(e, s, addrs, source, timePenalty, now, draws, m)| + if hit then 1 else 0
  {
  }

  /** Add counts the addresses that gained a place. */
  lemma {:induction false} AddCounts(e: Env, s: State, addrs: seq<Address>, source: NetAddr, timePenalty: int, now: int,
                                     draws: nat -> nat, n: nat)
    requires n <= |addrs|
    ensures Add(e, s, addrs[..n], source, timePenalty, now, draws).1 ==
            |GainedBefore(e, s, addrs, source, timePenalty, now, draws, n)|
  {
    if n > 0 {
      var m := n - 1;
      AddCounts(e, s, addrs, source, timePenalty, now, draws, m);
      var hit := GainedAt(e, s, addrs, source, timePenalty, now, draws, m);
      AddLast(e, s, addrs, source, timePenalty, now, draws, m, n, hit);
      GainedLast(e, s, addrs, source, timePenalty, now, draws, m, n, hit);
    }
  }
}
