/**
 The operations of the address manager: each keeps the index invariant, and
 none vacates a tried slot, lowers the number of tried entries or hands out an
 id twice.
 */
module AddrManOperations {
  import opened AddrManInvariant
  import opened AddrManState
  import opened AddrManSteps
  import opened Helpers

  // ----- what stays of a single entry

  /** Entry `id` survives with nothing but its place in vRandom changed. */
  predicate Kept(s: State, t: State, id: int) {
    id in s.mapInfo ==>
      id in t.mapInfo && t.mapInfo[id] == s.mapInfo[id].(randomPos := t.mapInfo[id].randomPos)
  }

  /** What is known about an address, apart from where it stands in the indexes. */
  function Profile(info: Info): Info { info.(refCount := 0, inTried := false, randomPos := 0) }

  /** Every id below `bound` names the address it named before, or nothing. */
  ghost predicate SameIds(bound: int, addrs: map<int, Service>, addrs': map<int, Service>) {
    forall id :: id in addrs' && id < bound ==> id in addrs && addrs'[id] == addrs[id]
  }

  /** `t` is a later state than `s`. */
  ghost predicate Later(s: State, t: State) {
    && t.key == s.key
    && s.nIdCount <= t.nIdCount
    && s.nTried <= t.nTried
    && s.vvTried.Keys <= t.vvTried.Keys
    && SameIds(s.nIdCount, Addrs(s.mapInfo), Addrs(t.mapInfo))
  }

  /** What every call guarantees: the indexes agree and nothing went back. */
  ghost predicate Advances(e: Env, s: State, t: State) {
    Inv(e, t) && Later(s, t)
  }

  lemma LaterTransitive(s: State, t: State, u: State)
    requires Later(s, t) && Later(t, u)
    ensures Later(s, u)
  {
  }

  /** A collision keeps its occupied target as time goes by. */
  lemma LaterKeepsCollisions(e: Env, s: State, t: State)
    requires CollisionsHeld(e, s) && Later(s, t) && t.collisions <= s.collisions
    ensures CollisionsHeld(e, t)
  {
    SubsetCard(t.collisions, s.collisions);
    forall id | id in t.collisions
      ensures 0 <= id < t.nIdCount
      ensures id in t.mapInfo ==> TriedSlot(e, t.key, t.mapInfo[id].addr) in t.vvTried
    {
      assert id in t.mapInfo ==> id in Addrs(t.mapInfo);
    }
  }

  lemma PendingMore(e: Env, s: State, limbo: set<int>, pending: set<int>, pending': set<int>)
    requires Core(e, s, limbo, pending) && pending <= pending'
    ensures Core(e, s, limbo, pending')
  {
  }

  // ----- ClearNew

  lemma DeleteFrame(e: Env, s: State, id: int, other: int)
    requires RandomIndexed(Places(s.mapInfo), s.vRandom) && id in s.mapInfo
    ensures var t := Delete(e, s, id);
            && id !in t.mapInfo
            && (other != id ==> Kept(s, t, other))
            && (other in t.mapInfo ==> other in s.mapInfo)
  {
    PlaceOf(s, id);
    SwapFrame(s, s.At(id).randomPos, s.LastPlace(), other);
  }

  lemma ClearNewKeepsCore(e: Env, s: State, k: Slot, limbo: set<int>, pending: set<int>)
    requires Core(e, s, limbo, pending)
    ensures Core(e, ClearNew(e, s, k), limbo, pending)
  {
    if k in s.vvNew {
      var id := s.vvNew[k];
      var t := DropRef(s, k);
      RefTarget(e, s, k, limbo, pending);
      DropRefKeepsCore(e, s, k, limbo, pending);
      if t.At(id).refCount == 0 {
        DeleteKeepsCore(e, t, id, limbo, pending + {id});
        PendingMore(e, Delete(e, t, id), limbo, pending + {id} - {id}, pending);
      } else {
        PendingDone(e, t, limbo, pending, id);
      }
    }
  }

  lemma ClearNewFrame(e: Env, s: State, k: Slot)
    ensures var t := ClearNew(e, s, k);
            && k !in t.vvNew && (k !in s.vvNew ==> t == s)
            && t.vvNew == s.vvNew - {k} && t.vvTried == s.vvTried && t.nTried == s.nTried
            && t.key == s.key && t.nIdCount == s.nIdCount
            && t.collisions == s.collisions && t.lastGood == s.lastGood
  {
    if k !in s.vvNew {
      assert s.vvNew - {k} == s.vvNew;
    }
  }

  lemma ClearNewEntry(e: Env, s: State, k: Slot, id: int)
    requires RandomIndexed(Places(s.mapInfo), s.vRandom)
    requires k in s.vvNew && s.vvNew[k] in s.mapInfo
    ensures var t := ClearNew(e, s, k);
            && (s.vvNew[k] != id ==> Kept(s, t, id))
            && (id in t.mapInfo ==> id in s.mapInfo && Profile(t.mapInfo[id]) == Profile(s.mapInfo[id]))
  {
    var occupant := s.vvNew[k];
    var t := DropRef(s, k);
    FieldsOfUpdate(s.mapInfo, occupant, s.At(occupant).OneRefLess());
    SameValue(Places(s.mapInfo), occupant);
    if t.At(occupant).refCount == 0 {
      DeleteFrame(e, t, occupant, id);
    }
  }

  // ----- MakeTried

  /** How far the scan of MakeTried walks from bucket `start` to bucket `b`. */
  function Offset(start: nat, b: nat): int
    requires start < NEW_BUCKET_COUNT && b < NEW_BUCKET_COUNT
  {
    if b >= start then b - start else b + NEW_BUCKET_COUNT - start
  }

  /** Every reference of `id` sits at its hashed position, in a bucket that the
      scan has not visited after `n` buckets. */
  ghost predicate Ahead(e: Env, s: State, id: int, start: nat, n: nat)
    requires start < NEW_BUCKET_COUNT
  {
    forall k :: k in Refs(s.vvNew, id) ==>
      && k.bucket < NEW_BUCKET_COUNT && n <= Offset(start, k.bucket)
      && k == NewSlotIn(e, s.key, s.At(id).addr, k.bucket)
  }

  ghost function Unreferenced(s: State, id: int): State {
    s.With(id, s.At(id).(refCount := 0)).(vvNew := s.vvNew - Refs(s.vvNew, id))
  }

  lemma AheadNext(e: Env, s: State, id: int, start: nat, n: nat)
    requires start < NEW_BUCKET_COUNT && n < NEW_BUCKET_COUNT && Ahead(e, s, id, start, n)
    ensures var k := NewSlotIn(e, s.key, s.At(id).addr, Wrap(start, n));
            forall j :: j in Refs(s.vvNew, id) && j != k ==> n + 1 <= Offset(start, j.bucket)
  {
  }

  lemma DropOneOfMany(s: State, k: Slot)
    requires k in s.vvNew && s.vvNew[k] in s.mapInfo
    ensures var id, t := s.vvNew[k], DropRef(s, k);
            && Refs(t.vvNew, id) == Refs(s.vvNew, id) - {k} && k in Refs(s.vvNew, id)
            && |Refs(t.vvNew, id)| == |Refs(s.vvNew, id)| - 1
            && Unreferenced(t, id) == Unreferenced(s, id)
            && t.key == s.key && id in t.mapInfo && t.mapInfo[id] == s.mapInfo[id].OneRefLess()
  {
    var id, t := s.vvNew[k], DropRef(s, k);
    assert Refs(t.vvNew, id) == Refs(s.vvNew, id) - {k};
    assert t.vvNew - Refs(t.vvNew, id) == s.vvNew - Refs(s.vvNew, id);
  }

  lemma NoneLeft(s: State, id: int)
    requires id in s.mapInfo && s.mapInfo[id].refCount == 0 == |Refs(s.vvNew, id)|
    ensures Unreferenced(s, id) == s
  {
    assert Refs(s.vvNew, id) == {};
    assert s.vvNew - {} == s.vvNew;
    assert s.mapInfo[id := s.mapInfo[id].(refCount := 0)] == s.mapInfo;
  }

  lemma ScanPasses(e: Env, s: State, id: int, start: nat, n: nat, k: Slot, t: State, next: nat)
    requires start < NEW_BUCKET_COUNT && n < NEW_BUCKET_COUNT && Ahead(e, s, id, start, n) && t.key == s.key
    requires k == NewSlotIn(e, s.key, s.At(id).addr, Wrap(start, n)) && Refs(t.vvNew, id) == Refs(s.vvNew, id) - {k}
    requires t.At(id).addr == s.At(id).addr && next == n + 1
    ensures Ahead(e, t, id, start, next)
  {
    AheadNext(e, s, id, start, n);
  }

  /** The scan over all buckets, stopping at reference count zero, takes away
      every reference of the entry and nothing else. */
  lemma {:induction false} ScanRemovesAllRefs(e: Env, s: State, id: int, start: nat, n: nat)
    requires id in s.mapInfo && s.mapInfo[id].refCount == |Refs(s.vvNew, id)| > 0
    requires start < NEW_BUCKET_COUNT && n <= NEW_BUCKET_COUNT && Ahead(e, s, id, start, n)
    ensures ScanNew(e, s, id, start, n) == Unreferenced(s, id)
    decreases NEW_BUCKET_COUNT - n, start
  {
    if n < NEW_BUCKET_COUNT {
      var k, next := NewSlotIn(e, s.key, s.At(id).addr, Wrap(start, n)), n + 1;
      ScanNext(e, s, id, start, n, k, next);
      if k in s.vvNew && s.vvNew[k] == id {
        var t := DropRef(s, k);
        DropOneOfMany(s, k);
        if t.At(id).refCount == 0 {
          NoneLeft(t, id);
        } else {
          ScanPasses(e, s, id, start, n, k, t, next);
          ScanRemovesAllRefs(e, t, id, start, next);
        }
      } else {
        ScanMisses(e, s, id, start, n, k, next);
        ScanRemovesAllRefs(e, s, id, start, next);
      }
    } else {
      NoneAhead(e, s, id, start);
    }
  }

  lemma ScanNext(e: Env, s: State, id: int, start: nat, n: nat, k: Slot, next: nat)
    requires n < NEW_BUCKET_COUNT && k == NewSlotIn(e, s.key, s.At(id).addr, Wrap(start, n)) && next == n + 1
    ensures ScanNew(e, s, id, start, n) ==
            if k in s.vvNew && s.vvNew[k] == id then
              if DropRef(s, k).At(id).refCount == 0 then DropRef(s, k) else ScanNew(e, DropRef(s, k), id, start, next)
            else ScanNew(e, s, id, start, next)
  {
  }

  lemma ScanMisses(e: Env, s: State, id: int, start: nat, n: nat, k: Slot, next: nat)
    requires start < NEW_BUCKET_COUNT && n < NEW_BUCKET_COUNT && Ahead(e, s, id, start, n) && next == n + 1
    requires k == NewSlotIn(e, s.key, s.At(id).addr, Wrap(start, n)) && k !in Refs(s.vvNew, id)
    ensures Ahead(e, s, id, start, next)
  {
    AheadNext(e, s, id, start, n);
  }

  lemma NoneAhead(e: Env, s: State, id: int, start: nat)
    requires start < NEW_BUCKET_COUNT && Ahead(e, s, id, start, NEW_BUCKET_COUNT)
    ensures Refs(s.vvNew, id) == {}
  {
  }

  lemma RefsClear(refCounts: map<int, int>, triedIds: set<int>, table: map<Slot, int>, id: int)
    requires RefsExact(refCounts, table) && RefsBounded(refCounts, triedIds, {}, {}) && id in refCounts
    ensures RefsExact(refCounts[id := 0], table - Refs(table, id))
    ensures RefsBounded(refCounts[id := 0], triedIds, {}, {id})
  {
    forall i ensures Refs(table - Refs(table, id), i) == if i == id then {} else Refs(table, i) {}
  }

  lemma UnreferencedKeepsCore(e: Env, s: State, id: int)
    requires Core(e, s, {}, {}) && id in s.mapInfo
    ensures Core(e, Unreferenced(s, id), {}, {id})
  {
    var m := s.mapInfo;
    RefsClear(RefCounts(m), TriedIds(m), s.vvNew, id);
    RefUpdate(e, m, id, s.At(id).(refCount := 0));
    NewRestrict(e, s.key, Addrs(m), TriedIds(m), s.vvNew, Refs(s.vvNew, id));
  }

  lemma NewRestrict(e: Env, key: nat, addrs: map<int, Service>, triedIds: set<int>, table: map<Slot, int>,
                    gone: set<Slot>)
    requires NewIndexed(e, key, addrs, triedIds, table)
    ensures NewIndexed(e, key, addrs, triedIds, table - gone)
  {
  }

  lemma RefsPlaced(e: Env, s: State, id: int, start: nat)
    requires Core(e, s, {}, {}) && id in s.mapInfo && start < NEW_BUCKET_COUNT
    ensures Ahead(e, s, id, start, 0)
    ensures s.mapInfo[id].refCount == |Refs(s.vvNew, id)|
  {
    forall k | k in Refs(s.vvNew, id)
      ensures k.bucket < NEW_BUCKET_COUNT && 0 <= Offset(start, k.bucket)
      ensures k == NewSlotIn(e, s.key, s.At(id).addr, k.bucket)
    {
      RefTarget(e, s, k, {}, {});
    }
    assert id in RefCounts(s.mapInfo);
  }

  /** The slot of the new table that the entry evicted from `k` goes back to. */
  function Home(e: Env, s: State, k: Slot): Slot {
    var info := s.At(if k in s.vvTried then s.vvTried[k] else -1);
    NewSlot(e, s.key, info.addr, info.source)
  }

  lemma EvictKeepsCore(e: Env, s: State, k: Slot, id: int)
    requires Core(e, s, {id}, {})
    ensures Core(e, EvictTried(e, s, k), {id}, {})
  {
    if k in s.vvTried {
      var evictee := s.vvTried[k];
      var t := VacateTried(e, s, k);
      assert evictee != id by {
        TriedTarget(e, s, k, {id}, {});
        LimboTarget(e, s, id, {id}, {});
      }
      var both := {id} + {evictee};
      assert both - {evictee} == {id};
      assert Core(e, t, both, {}) by {
        TriedTarget(e, s, k, {id}, {});
        VacateKeepsCore(e, s, k, {id}, {});
      }
      var home := NewSlot(e, t.key, t.At(evictee).addr, t.At(evictee).source);
      EvictReturns(e, t, home, evictee, both);
      assert {} - {evictee} == {};
    }
  }

  /** An entry in limbo takes the place of whatever was in its new slot. */
  lemma EvictReturns(e: Env, t: State, home: Slot, evictee: int, limbo: set<int>)
    requires Core(e, t, limbo, {}) && evictee in limbo
    requires home == NewSlot(e, t.key, t.At(evictee).addr, t.At(evictee).source)
    ensures Core(e, Recount(e, ClearNew(e, t, home), home, evictee), limbo - {evictee}, {} - {evictee})
  {
    var c := ClearNew(e, t, home);
    ClearNewKeepsCore(e, t, home, limbo, {});
    ClearNewFrame(e, t, home);
    LimboTarget(e, t, evictee, limbo, {});
    LimboTarget(e, c, evictee, limbo, {});
    if home in t.vvNew {
      RefTarget(e, t, home, limbo, {});
      ClearNewEntry(e, t, home, evictee);
    }
    RecountKeepsCore(e, c, home, evictee, limbo, {});
  }

  /** The first half of MakeTried: out of the new table and its counts. */
  function LeaveNew(e: Env, s: State, id: int): State {
    Uncount(e, ScanNew(e, s, id, NewBucket(e, s.key, s.At(id).addr, s.At(id).source), 0), id)
  }

  lemma PromoteIs(e: Env, s: State, id: int, testBeforeEvict: bool, k: Slot)
    requires id in s.mapInfo && !s.mapInfo[id].inTried && s.mapInfo[id].refCount > 0 &&
             k == TriedSlot(e, s.key, s.At(id).addr)
    ensures Promote(e, s, id, testBeforeEvict) ==
            if !testBeforeEvict || k !in s.vvTried then (MakeTried(e, s, id), true)
            else (if |s.collisions| < TRIED_COLLISION_SIZE then s.(collisions := s.collisions + {id}) else s, false)
  {
  }

  /** Both halves. */
  lemma MakeTriedIs(e: Env, s: State, id: int, k: Slot)
    requires k == TriedSlot(e, s.key, s.At(id).addr)
    ensures MakeTried(e, s, id) == OccupyTried(e, EvictTried(e, LeaveNew(e, s, id), k), k, id)
  {
  }

  lemma LeaveNewKeepsCore(e: Env, s: State, id: int)
    requires Core(e, s, {}, {}) && id in s.mapInfo && !s.mapInfo[id].inTried && s.mapInfo[id].refCount > 0
    ensures LeaveNew(e, s, id) == Uncount(e, Unreferenced(s, id), id)
    ensures Core(e, LeaveNew(e, s, id), {id}, {})
  {
    assert LeaveNew(e, s, id) == Uncount(e, Unreferenced(s, id), id) by {
      var start := NewBucket(e, s.key, s.At(id).addr, s.At(id).source);
      RefsPlaced(e, s, id, start);
      ScanRemovesAllRefs(e, s, id, start, 0);
    }
    UncountedKeepsCore(e, s, id);
  }

  lemma LeaveNewFacts(e: Env, s: State, id: int)
    requires Core(e, s, {}, {}) && id in s.mapInfo && !s.mapInfo[id].inTried && s.mapInfo[id].refCount > 0
    ensures id >= 0 && Core(e, LeaveNew(e, s, id), {id}, {}) && id in LeaveNew(e, s, id).mapInfo
    ensures LeaveNew(e, s, id).mapInfo[id].refCount == 0 && LeaveNew(e, s, id).mapInfo[id].addr == s.mapInfo[id].addr
  {
    assert id in Addrs(s.mapInfo).Keys;
    LeaveNewKeepsCore(e, s, id);
    LeaveOrigin(s, e, id, id);
    LimboTarget(e, LeaveNew(e, s, id), id, {id}, {});
  }

  lemma SameSets(e: Env, s: State, limbo: set<int>, pending: set<int>, limbo': set<int>, pending': set<int>)
    requires Core(e, s, limbo, pending) && limbo == limbo' && pending == pending'
    ensures Core(e, s, limbo', pending')
  {
  }

  lemma UncountKeepsAlone(e: Env, s: State, id: int)
    requires Core(e, s, {}, {id}) && id in s.mapInfo && !s.mapInfo[id].inTried && s.mapInfo[id].refCount == 0
    ensures Core(e, Uncount(e, s, id), {id}, {})
  {
    UncountKeepsCore(e, s, id, {}, {id});
    SameSets(e, Uncount(e, s, id), {} + {id}, {id} - {id}, {id}, {});
  }

  lemma UncountedKeepsCore(e: Env, s: State, id: int)
    requires Core(e, s, {}, {}) && id in s.mapInfo && !s.mapInfo[id].inTried
    ensures Core(e, Uncount(e, Unreferenced(s, id), id), {id}, {})
  {
    UnreferencedKeepsCore(e, s, id);
    UncountKeepsAlone(e, Unreferenced(s, id), id);
  }

  /** The second half: into the tried table, evicting what is in the way. */
  function EnterTried(e: Env, s: State, k: Slot, id: int): State {
    OccupyTried(e, EvictTried(e, s, k), k, id)
  }

  lemma EnterTriedKeepsCore(e: Env, s: State, k: Slot, id: int)
    requires Core(e, s, {id}, {}) && id in s.mapInfo
    requires k == TriedSlot(e, s.key, s.mapInfo[id].addr) && s.mapInfo[id].lastSuccess > 0
    ensures Core(e, EnterTried(e, s, k, id), {}, {})
  {
    EvictKeepsCore(e, s, k, id);
    EvictFrame(e, s, k);
    EvictEntry(e, s, k, id);
    OccupyKeepsCore(e, EvictTried(e, s, k), k, id, {id}, {});
    assert {id} - {id} == {};
  }

  /** Moving an entry to the tried table keeps the invariant. */
  lemma MakeTriedKeepsCore(e: Env, s: State, id: int)
    requires Core(e, s, {}, {}) && id in s.mapInfo && !s.mapInfo[id].inTried && s.mapInfo[id].refCount > 0
    requires s.mapInfo[id].lastSuccess > 0
    ensures Core(e, MakeTried(e, s, id), {}, {})
  {
    LeaveNewKeepsCore(e, s, id);
    EnterTriedKeepsCore(e, LeaveNew(e, s, id), TriedSlot(e, s.key, s.At(id).addr), id);
  }

  lemma EvictFrame(e: Env, s: State, k: Slot)
    ensures var t := EvictTried(e, s, k);
            && t.vvTried == s.vvTried - {k} && k !in t.vvTried
            && t.nTried == s.nTried - (if k in s.vvTried then 1 else 0)
            && t.key == s.key && t.nIdCount == s.nIdCount
            && t.collisions == s.collisions && t.lastGood == s.lastGood
  {
    if k in s.vvTried {
      ClearNewFrame(e, VacateTried(e, s, k), Home(e, s, k));
    } else {
      assert s.vvTried - {k} == s.vvTried;
    }
  }

  /** Evicting touches the evicted entry and the one whose new slot it takes. */
  lemma EvictOther(e: Env, s: State, k: Slot, other: int)
    requires RandomIndexed(Places(s.mapInfo), s.vRandom)
    requires k in s.vvTried && s.vvTried[k] in s.mapInfo && s.vvTried[k] != other
    requires Home(e, s, k) in s.vvNew ==> s.vvNew[Home(e, s, k)] in s.mapInfo && s.vvNew[Home(e, s, k)] != other
    ensures Kept(s, EvictTried(e, s, k), other)
  {
    var evictee, home := s.vvTried[k], Home(e, s, k);
    var t := VacateTried(e, s, k);
    FieldsOfUpdate(s.mapInfo, evictee, s.At(evictee).(inTried := false));
    SameValue(Places(s.mapInfo), evictee);
    ClearNewFrame(e, t, home);
    if home in t.vvNew {
      ClearNewEntry(e, t, home, other);
    }
  }

  lemma EvictEntry(e: Env, s: State, k: Slot, id: int)
    requires Core(e, s, {id}, {})
    ensures Kept(s, EvictTried(e, s, k), id)
  {
    if k in s.vvTried {
      TriedTarget(e, s, k, {id}, {});
      LimboTarget(e, s, id, {id}, {});
      var home := Home(e, s, k);
      if home in s.vvNew {
        RefTarget(e, s, home, {id}, {});
      }
      EvictOther(e, s, k, id);
    }
  }

  /** `id` names, after the step, the entry it named before, with nothing new known about it. */
  predicate Origin(s: State, t: State, id: int) {
    id in t.mapInfo ==> id in s.mapInfo && Profile(t.mapInfo[id]) == Profile(s.mapInfo[id])
  }

  /** `id` names the same address as before. */
  predicate SameName(s: State, t: State, id: int) {
    id in t.mapInfo ==> id in s.mapInfo && t.mapInfo[id].addr == s.mapInfo[id].addr
  }

  lemma SameNameIds(s: State, t: State)
    requires forall id :: id in t.mapInfo ==> SameName(s, t, id)
    ensures SameIds(s.nIdCount, Addrs(s.mapInfo), Addrs(t.mapInfo))
  {
    forall id | id in Addrs(t.mapInfo)
      ensures id in Addrs(s.mapInfo) && Addrs(t.mapInfo)[id] == Addrs(s.mapInfo)[id]
    {
      assert SameName(s, t, id);
    }
  }

  lemma VacateOrigin(e: Env, s: State, k: Slot, id: int)
    requires k in s.vvTried ==> s.vvTried[k] in s.mapInfo
    ensures Origin(s, VacateTried(e, s, k), id)
  {
  }

  lemma EvictOrigin(e: Env, s: State, k: Slot, limbo: set<int>, id: int)
    requires Core(e, s, limbo, {})
    ensures Origin(s, EvictTried(e, s, k), id)
  {
    if k in s.vvTried {
      TriedTarget(e, s, k, limbo, {});
      var evictee, t := s.vvTried[k], VacateTried(e, s, k);
      var home := NewSlot(e, t.key, t.At(evictee).addr, t.At(evictee).source);
      assert Core(e, t, limbo + {evictee}, {}) by { VacateKeepsCore(e, s, k, limbo, {}); }
      assert Origin(t, Recount(e, ClearNew(e, t, home), home, evictee), id) by {
        ReturnOrigin(e, t, home, evictee, limbo + {evictee}, id);
      }
      VacateOrigin(e, s, k, id);
    }
  }

  lemma ReturnOrigin(e: Env, t: State, home: Slot, evictee: int, limbo: set<int>, id: int)
    requires Core(e, t, limbo, {}) && evictee in limbo
    ensures Origin(t, Recount(e, ClearNew(e, t, home), home, evictee), id)
  {
    var c := ClearNew(e, t, home);
    ClearNewKeepsCore(e, t, home, limbo, {});
    LimboTarget(e, c, evictee, limbo, {});
    ClearNewOrigin(e, t, home, limbo, {}, id);
    ClearNewOrigin(e, t, home, limbo, {}, evictee);
  }

  lemma ClearNewOrigin(e: Env, s: State, k: Slot, limbo: set<int>, pending: set<int>, id: int)
    requires Core(e, s, limbo, pending)
    ensures Origin(s, ClearNew(e, s, k), id)
  {
    if k in s.vvNew {
      RefTarget(e, s, k, limbo, pending);
      ClearNewEntry(e, s, k, id);
    }
  }

  lemma {:induction false} ScanFrame(e: Env, s: State, id: int, start: nat, n: nat)
    ensures var t := ScanNew(e, s, id, start, n);
            && t.vvTried == s.vvTried && t.nTried == s.nTried && t.key == s.key && t.nIdCount == s.nIdCount
            && t.collisions == s.collisions && t.lastGood == s.lastGood
    decreases NEW_BUCKET_COUNT - n, start
  {
    if n < NEW_BUCKET_COUNT {
      var k := NewSlotIn(e, s.key, s.At(id).addr, Wrap(start, n));
      ScanFrame(e, DropRef(s, k), id, start, n + 1);
      ScanFrame(e, s, id, start, n + 1);
    }
  }

  lemma OccupyFrame(e: Env, s: State, k: Slot, id: int)
    ensures var t := OccupyTried(e, s, k, id);
            && t.vvTried == s.vvTried[k := id] && t.nTried == s.nTried + 1
            && t.key == s.key && t.nIdCount == s.nIdCount
            && t.collisions == s.collisions && t.lastGood == s.lastGood
            && t.mapInfo == s.mapInfo[id := s.At(id).(inTried := true)]
  {
  }

  lemma LeaveRest(e: Env, s: State, id: int)
    ensures SameRest(s, LeaveNew(e, s, id))
  {
    ScanFrame(e, s, id, NewBucket(e, s.key, s.At(id).addr, s.At(id).source), 0);
  }

  /** Moving an entry to the tried table fills its slot there and vacates none. */
  lemma MakeTriedFrame(e: Env, s: State, id: int)
    ensures var t, k := MakeTried(e, s, id), TriedSlot(e, s.key, s.At(id).addr);
            && t.vvTried == s.vvTried[k := id]
            && t.nTried == s.nTried + (if k in s.vvTried then 0 else 1)
            && t.key == s.key && t.nIdCount == s.nIdCount
            && t.collisions == s.collisions && t.lastGood == s.lastGood
  {
    var k := TriedSlot(e, s.key, s.At(id).addr);
    LeaveRest(e, s, id);
    TriedFrame(e, s, LeaveNew(e, s, id), k, id);
  }

  lemma TriedFrame(e: Env, s: State, u: State, k: Slot, id: int)
    requires SameRest(s, u)
    ensures var t := OccupyTried(e, EvictTried(e, u, k), k, id);
            && t.vvTried == s.vvTried[k := id]
            && t.nTried == s.nTried + (if k in s.vvTried then 0 else 1)
            && t.key == s.key && t.nIdCount == s.nIdCount
            && t.collisions == s.collisions && t.lastGood == s.lastGood
  {
    EvictFrame(e, u, k);
    OccupyFrame(e, EvictTried(e, u, k), k, id);
    assert (s.vvTried - {k})[k := id] == s.vvTried[k := id];
  }

  lemma MakeTriedOrigin(e: Env, s: State, id: int, other: int)
    requires Core(e, s, {}, {}) && id in s.mapInfo && !s.mapInfo[id].inTried && s.mapInfo[id].refCount > 0
    ensures Origin(s, MakeTried(e, s, id), other)
  {
    LeaveNewKeepsCore(e, s, id);
    var u, k := LeaveNew(e, s, id), TriedSlot(e, s.key, s.At(id).addr);
    var v := EvictTried(e, u, k);
    EvictKeepsCore(e, u, k, id);
    LimboTarget(e, v, id, {id}, {});
    EvictOrigin(e, u, k, {id}, other);
    EvictOrigin(e, u, k, {id}, id);
    OccupyOrigin(e, v, k, id, other);
    LeaveOrigin(s, e, id, other);
    assert Origin(s, u, other) && Origin(u, v, other) && Origin(v, MakeTried(e, s, id), other);
  }

  lemma OccupyOrigin(e: Env, s: State, k: Slot, id: int, other: int)
    requires id in s.mapInfo
    ensures Origin(s, OccupyTried(e, s, k, id), other)
  {
  }

  lemma LeaveOrigin(s: State, e: Env, id: int, other: int)
    requires id in s.mapInfo && LeaveNew(e, s, id) == Uncount(e, Unreferenced(s, id), id)
    ensures Origin(s, LeaveNew(e, s, id), other)
  {
  }

  lemma MakeTriedLater(e: Env, s: State, id: int)
    requires Core(e, s, {}, {}) && id in s.mapInfo && !s.mapInfo[id].inTried && s.mapInfo[id].refCount > 0
    ensures Later(s, MakeTried(e, s, id))
  {
    MakeTriedFrame(e, s, id);
    var t := MakeTried(e, s, id);
    forall other | other in t.mapInfo ensures SameName(s, t, other) {
      MakeTriedOrigin(e, s, id, other);
    }
    SameNameIds(s, t);
  }

  // ----- AddSingle

  lemma PlaceKeepsCore(e: Env, s: State, id: int, source: NetAddr, now: int)
    requires Core(e, s, {}, {id}) && id in s.mapInfo && !s.mapInfo[id].inTried
    requires s.mapInfo[id].refCount < NEW_BUCKETS_PER_ADDRESS
    ensures Core(e, Place(e, s, id, source, now).0, {}, {})
  {
    var k := NewSlot(e, s.key, s.At(id).addr, source);
    assert {id} - {id} == {} && {} + {id} == {id};
    if k !in s.vvNew {
      AddRefKeepsCore(e, s, k, id, {}, {id});
    } else {
      RefTarget(e, s, k, {}, {id});
      if s.vvNew[k] == id {
        PendingDone(e, s, {}, {}, id);
      } else {
        var other := s.At(s.vvNew[k]);
        if other.IsTerrible(now) || (other.refCount > 1 && s.At(id).refCount == 0) {
          var t := ClearNew(e, s, k);
          ClearNewKeepsCore(e, s, k, {}, {id});
          ClearNewFrame(e, s, k);
          ClearNewEntry(e, s, k, id);
          AddRefKeepsCore(e, t, k, id, {}, {id});
        } else if s.At(id).refCount == 0 {
          DeleteKeepsCore(e, s, id, {}, {id});
        } else {
          RefCountOf(e, s, id, {}, {id});
          PendingDone(e, s, {}, {}, id);
        }
      }
    }
  }

  lemma RefCountOf(e: Env, s: State, id: int, limbo: set<int>, pending: set<int>)
    requires Core(e, s, limbo, pending) && id in s.mapInfo
    ensures s.mapInfo[id].refCount == |Refs(s.vvNew, id)|
    ensures s.mapInfo[id].refCount <= NEW_BUCKETS_PER_ADDRESS
  {
    assert id in RefCounts(s.mapInfo);
  }

  /** What AddRef, ClearNew and Delete leave alone. */
  ghost predicate SameRest(s: State, t: State) {
    && t.vvTried == s.vvTried && t.nTried == s.nTried && t.key == s.key && t.nIdCount == s.nIdCount
    && t.collisions == s.collisions && t.lastGood == s.lastGood
  }

  lemma AddRefRest(s: State, slot: Slot, id: int)
    ensures SameRest(s, AddRef(s, slot, id))
  {
  }

  lemma DeleteRest(e: Env, s: State, id: int)
    ensures SameRest(s, Delete(e, s, id))
  {
  }

  /** Placing an entry leaves the tried table alone. */
  lemma PlaceFrame(e: Env, s: State, id: int, source: NetAddr, now: int)
    ensures SameRest(s, Place(e, s, id, source, now).0)
  {
    var slot, t := NewSlot(e, s.key, s.At(id).addr, source), Place(e, s, id, source, now).0;
    if slot !in s.vvNew {
      AddRefRest(s, slot, id);
    } else if t != s {
      var c := ClearNew(e, s, slot);
      assert SameRest(s, c) by { ClearNewFrame(e, s, slot); }
      AddRefRest(c, slot, id);
      DeleteRest(e, s, id);
      assert t == AddRef(c, slot, id) || t == Delete(e, s, id);
    }
  }

  lemma DisplaceOrigin(e: Env, s: State, k: Slot, id: int, other: int)
    requires Core(e, s, {}, {id}) && id in s.mapInfo && k in s.vvNew && s.vvNew[k] != id
    ensures Origin(s, AddRef(ClearNew(e, s, k), k, id), other)
  {
    RefTarget(e, s, k, {}, {id});
    ClearNewEntry(e, s, k, id);
    ClearNewEntry(e, s, k, other);
  }

  lemma PlaceOrigin(e: Env, s: State, id: int, source: NetAddr, now: int, other: int)
    requires Core(e, s, {}, {id}) && id in s.mapInfo
    ensures Origin(s, Place(e, s, id, source, now).0, other)
  {
    var k := NewSlot(e, s.key, s.At(id).addr, source);
    if k in s.vvNew && s.vvNew[k] != id {
      var info := s.At(s.vvNew[k]);
      if info.IsTerrible(now) || (info.refCount > 1 && s.At(id).refCount == 0) {
        DisplaceOrigin(e, s, k, id, other);
      } else if s.At(id).refCount == 0 {
        DeleteFrame(e, s, id, other);
      }
    }
  }
}
