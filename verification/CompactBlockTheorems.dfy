/**
 What InitData and FillBlock promise together.
 */
module CompactBlockTheorems {
  import opened CompactBlock
  import opened CompactBlockDownload
  import opened Helpers

  /** The transactions that can be looked up. */
  ghost function Known(pool: seq<Tx>, extra: seq<Option<Tx>>): set<Tx> {
    (set t | t in pool) + (set o | o in extra && o.Some? :: o.value)
  }

  /** In an accepted message the short ids belong to the slots that are not
      prefilled, one to one and in order. */
  lemma IdsInOrder(m: Message)
    requires PrefilledSlots(m).Some? && Distinct(m.shortIds)
    ensures var ids, e := IdsOf(m), EmptySlots(PrefilledSlots(m).value);
            && |e| == |m.shortIds| && (forall i, j :: 0 <= i < j < |e| ==> e[i] < e[j])
            && (forall i :: 0 <= i < |e| ==> m.shortIds[i] in ids && ids[m.shortIds[i]] == e[i])
            && (forall x :: x in ids <==> x in m.shortIds)
            && Injective(ids)
  {
    var ids, base := IdsOf(m), PrefilledSlots(m).value;
    var e, keys := EmptySlots(base), m.shortIds;
    PrefilledLeave(m);
    EmptySlotsFacts(base);
    var n := |keys|;
    assert keys[..n] == keys;
    assert forall x :: x in ids <==> x in keys by { SlotMapSize(keys, e, n); }
    forall i | 0 <= i < |e| ensures keys[i] in ids && ids[keys[i]] == e[i] {
      SlotMapIs(keys, e, n, i);
    }
    InOrderInjective(keys, e, ids);
  }

  lemma InOrderInjective(keys: seq<int>, e: seq<nat>, ids: map<int, nat>)
    requires |e| == |keys| && (forall i, j :: 0 <= i < j < |e| ==> e[i] < e[j])
    requires (forall i :: 0 <= i < |e| ==> keys[i] in ids && ids[keys[i]] == e[i]) && forall x :: x in ids ==> x in keys
    ensures Injective(ids)
  {
    forall x, y | x in ids && y in ids && ids[x] == ids[y] ensures x == y {
      var i :| 0 <= i < |keys| && keys[i] == x;
      var j :| 0 <= j < |keys| && keys[j] == y;
      assert e[i] == e[j];
    }
  }

  // ----- which messages are accepted

  /** The place of a prefilled transaction, counted from the one before it. */
  function PlaceAt(m: Message, i: nat): nat
    requires i < |m.prefilled|
  {
    m.prefilled[i].index + if i == 0 then 0 else PlaceAt(m, i - 1) + 1
  }

  predicate PlaceOk(m: Message, i: nat)
    requires i < |m.prefilled|
  {
    !m.prefilled[i].tx.isNull && PlaceAt(m, i) <= 65535 && PlaceAt(m, i) <= |m.shortIds| + i
  }

  lemma {:induction false} PlacesAscend(m: Message, i: nat, j: nat)
    requires i < j < |m.prefilled|
    ensures PlaceAt(m, i) < PlaceAt(m, j)
    decreases j
  {
    if i < j - 1 { PlacesAscend(m, i, j - 1); }
  }

  /** The places of the first `n` of them. */
  function Places(m: Message, n: nat): set<nat>
    requires n <= |m.prefilled|
  {
    if n == 0 then {} else Places(m, n - 1) + {PlaceAt(m, n - 1)}
  }

  ghost predicate IsPut(m: Message, a: Slots, i: nat)
    requires i < |m.prefilled|
  {
    PlaceAt(m, i) < |a| && a[PlaceAt(m, i)] == Some(m.prefilled[i].tx)
  }

  /** Slots with the first `n` prefilled transactions at their places, and nothing else. */
  ghost predicate PutSoFar(m: Message, a: Slots, n: nat)
    requires n <= |m.prefilled|
  {
    && |a| == Entries(m) && (forall i :: 0 <= i < n ==> IsPut(m, a, i))
    && forall k :: 0 <= k < |a| ==> (a[k].Some? <==> k in Places(m, n))
  }

  lemma PutStays(m: Message, a: Slots, n: nat, place: nat, tx: Tx, i: nat)
    requires i < n < |m.prefilled| && IsPut(m, a, i) && place == PlaceAt(m, n) < |a|
    ensures IsPut(m, a[place := Some(tx)], i)
  {
    PlacesAscend(m, i, n);
  }

  lemma PutFills(a: Slots, place: nat, tx: Tx, before: set<nat>, k: nat)
    requires place < |a| && k < |a| && (a[k].Some? <==> k in before)
    ensures a[place := Some(tx)][k].Some? <==> k in before + {place}
  {
  }

  lemma PutNext(m: Message, a: Slots, n: nat, place: nat, tx: Tx)
    requires n < |m.prefilled| && PutSoFar(m, a, n) && place == PlaceAt(m, n) < |a| && tx == m.prefilled[n].tx
    ensures PutSoFar(m, a[place := Some(tx)], n + 1)
  {
    var b, before, after := a[place := Some(tx)], Places(m, n), Places(m, n + 1);
    assert after == before + {place};
    forall i | 0 <= i < n + 1 ensures IsPut(m, b, i) {
      if i < n { PutStays(m, a, n, place, tx, i); }
    }
    forall k | 0 <= k < |b| ensures b[k].Some? <==> k in after { PutFills(a, place, tx, before, k); }
  }

  lemma {:induction false} PrefillPuts(m: Message, a: Slots, n: nat, last: int)
    requires n <= |m.prefilled| && PutSoFar(m, a, n) && last == if n == 0 then -1 else PlaceAt(m, n - 1)
    ensures var r := PrefillFrom(m, a, last, n);
            && (r.Some? <==> forall i :: n <= i < |m.prefilled| ==> PlaceOk(m, i))
            && (r.Some? ==> PutSoFar(m, r.value, |m.prefilled|))
    decreases |m.prefilled| - n
  {
    if n < |m.prefilled| {
      assert PlaceAt(m, n) == last + m.prefilled[n].index + 1;
      if PlaceOk(m, n) {
        PutNext(m, a, n, PlaceAt(m, n), m.prefilled[n].tx);
        PrefillPuts(m, a[PlaceAt(m, n) := Some(m.prefilled[n].tx)], n + 1, PlaceAt(m, n));
      }
    }
  }

  /** The prefilled transactions of a message are acceptable exactly if each is one and has
      its place in 16 bits and in the block; they fill these places and no others. */
  lemma PrefilledPlaces(m: Message)
    ensures PrefilledSlots(m).Some? <==> forall i :: 0 <= i < |m.prefilled| ==> PlaceOk(m, i)
    ensures PrefilledSlots(m).Some? ==> PutSoFar(m, PrefilledSlots(m).value, |m.prefilled|)
  {
    PrefillPuts(m, NoSlots(Entries(m)), 0, -1);
  }

  /** The answer of InitData: a message is refused for good if it is malformed, unwanted or
      wrong in its prefilled transactions; it fails if short ids coincide or crowd. */
  lemma InitStatusExact(unused: bool, m: Message, crowded: nat -> bool)
    ensures var status := InitStatus(unused, m, crowded);
            var proper := && m.header != 0 && 0 < |m.shortIds| + |m.prefilled| <= 2400000 && unused
                          && forall i :: 0 <= i < |m.prefilled| ==> PlaceOk(m, i);
            var clear := && (forall i, j :: 0 <= i < j < |m.shortIds| ==> m.shortIds[i] != m.shortIds[j])
                         && forall i :: 0 <= i < |m.shortIds| ==> !crowded(i);
            && (status == Invalid <==> !proper) && (status == Failed <==> proper && !clear)
            && (status == Status.Ok <==> proper && clear)
  {
    PrefilledPlaces(m);
  }

  lemma BaseScanned(m: Message, from: set<Tx>, count0: int, extra0: int)
    requires PrefilledSlots(m).Some? && Distinct(m.shortIds)
    ensures var base := PrefilledSlots(m).value;
            |base| == Entries(m) &&
            Scanned(m.sid, IdsOf(m), base, from, count0, extra0, Scan(base, NoSources(Entries(m)), count0, extra0))
  {
    var ids, base := IdsOf(m), PrefilledSlots(m).value;
    var s := Scan(base, NoSources(Entries(m)), count0, extra0);
    IdsInOrder(m);
    IdsBelow(m);
    EmptySlotsFacts(base);
    forall x | x in ids ensures base[ids[x]].None? {
      var i :| 0 <= i < |m.shortIds| && m.shortIds[i] == x;
      assert ids[x] == EmptySlots(base)[i];
    }
    assert Found(ids, s) == {} && FoundExtra(ids, s) == {};
  }

  /** After InitData: the prefilled slots are as sent, every other slot is empty or
      holds a known transaction with its short id, and the counters, counted from
      where they stood, are exact. */
  lemma LookedFacts(m: Message, pool: seq<Tx>, extra: seq<Option<Tx>>, count0: int, extra0: int)
    requires PrefilledSlots(m).Some? && Distinct(m.shortIds)
    ensures Scanned(m.sid, IdsOf(m), PrefilledSlots(m).value, Known(pool, extra), count0, extra0,
            Looked(m, pool, extra, count0, extra0))
  {
    var ids, base, from := IdsOf(m), PrefilledSlots(m).value, Known(pool, extra);
    IdsBelow(m);
    BaseScanned(m, from, count0, extra0);
    var s := Scan(base, NoSources(Entries(m)), count0, extra0);
    PoolScanKeeps(m.sid, ids, base, from, count0, extra0, s, pool);
    forall tx | Some(tx) in extra ensures tx in from { assert Some(tx).value == tx; }
    ExtraScanKeeps(m.sid, ids, base, from, count0, extra0, PoolScan(m.sid, ids, s, pool), extra);
  }

  // ----- the counters as numbers of slots

  ghost function Elements(e: seq<nat>): set<nat> { set k | k in e }

  lemma {:induction false} AscendingCard(e: seq<nat>)
    requires forall i, j :: 0 <= i < j < |e| ==> e[i] < e[j]
    ensures |Elements(e)| == |e|
  {
    if |e| > 0 {
      var n, rest := |e| - 1, e[..|e| - 1];
      AscendingCard(rest);
      assert e == rest + [e[n]] && e[n] !in rest;
      assert Elements(e) == Elements(rest) + {e[n]};
    }
  }

  lemma UnfoundCard(ids: map<int, nat>, found: set<int>, image: set<nat>)
    requires Injective(ids) && found <= ids.Keys && image == set x | x in ids.Keys - found :: ids[x]
    ensures |image| + |found| == |ids.Keys|
  {
    var unfound := ids.Keys - found;
    forall x | x in unfound ensures ids[x] in image { assert x in ids.Keys - found; }
    ImageCard(unfound, ids, image);
    assert ids.Keys == unfound + found;
  }

  /** What is found and what is to be asked for make up all the short ids. */
  lemma FoundAndEmpty(m: Message, s: Scan)
    requires PrefilledSlots(m).Some? && Distinct(m.shortIds)
    requires Fits(IdsOf(m), s) && |s.a| == |PrefilledSlots(m).value|
    requires forall k :: 0 <= k < |s.a| && (forall x :: x in IdsOf(m) ==> IdsOf(m)[x] != k) ==>
             s.a[k] == PrefilledSlots(m).value[k]
    ensures |Found(IdsOf(m), s)| + |EmptySlots(s.a)| == |m.shortIds|
  {
    var ids := IdsOf(m);
    IdsCount(m);
    IdsInOrder(m);
    EmptyAreUnfound(m, s, PrefilledSlots(m).value);
    UnfoundCard(ids, Found(ids, s), Elements(EmptySlots(s.a)));
    EmptySlotsFacts(s.a);
    AscendingCard(EmptySlots(s.a));
  }

  lemma IdsCount(m: Message)
    requires PrefilledSlots(m).Some? && Distinct(m.shortIds)
    ensures |IdsOf(m).Keys| == |m.shortIds|
  {
    PrefilledLeave(m);
    SlotMapSize(m.shortIds, EmptySlots(PrefilledSlots(m).value), |m.shortIds|);
    assert m.shortIds[..|m.shortIds|] == m.shortIds;
  }

  /** The counters of a block used once: they never go below 0, what is counted and
      what is to be asked for are all the short ids, and no more come from the
      extra list than are found. */
  lemma CountsExact(m: Message, pool: seq<Tx>, extra: seq<Option<Tx>>)
    requires PrefilledSlots(m).Some? && Distinct(m.shortIds)
    ensures var s := Looked(m, pool, extra, 0, 0);
            && s.count + |EmptySlots(s.a)| == |m.shortIds|
            && 0 <= s.extra <= s.count
            && Fits(IdsOf(m), s) && s.extra == |FoundExtra(IdsOf(m), s)|
  {
    var ids, s := IdsOf(m), Looked(m, pool, extra, 0, 0);
    LookedFacts(m, pool, extra, 0, 0);
    FoundAndEmpty(m, s);
    SubsetCard(FoundExtra(ids, s), Found(ids, s));
  }

  lemma EmptyAreUnfound(m: Message, s: Scan, base: Slots)
    requires PrefilledSlots(m).Some? && Distinct(m.shortIds) && base == PrefilledSlots(m).value
    requires Fits(IdsOf(m), s) && |s.a| == |base|
    requires forall k :: 0 <= k < |base| && (forall x :: x in IdsOf(m) ==> IdsOf(m)[x] != k) ==> s.a[k] == base[k]
    ensures var ids := IdsOf(m);
            Elements(EmptySlots(s.a)) == set x | x in ids.Keys - Found(ids, s) :: ids[x]
  {
    var ids := IdsOf(m);
    IdsInOrder(m);
    EmptySlotsFacts(s.a);
    EmptySlotsFacts(base);
    var image := set x | x in ids.Keys - Found(ids, s) :: ids[x];
    forall k | k in EmptySlots(s.a) ensures k in image {
      var j :| 0 <= j < |EmptySlots(s.a)| && EmptySlots(s.a)[j] == k;
      if base[k].None? {
        assert k in EmptySlots(base);
        var i :| 0 <= i < |EmptySlots(base)| && EmptySlots(base)[i] == k;
        assert ids[m.shortIds[i]] == k && m.shortIds[i] in ids.Keys - Found(ids, s);
      } else {
        PrefilledAside(m, k);
      }
    }
    forall k | k in image ensures k in EmptySlots(s.a) {
      var x :| x in ids.Keys - Found(ids, s) && ids[x] == k;
      assert s.a[k].None?;
    }
  }

  /** No short id goes to a prefilled slot. */
  lemma PrefilledAside(m: Message, k: nat)
    requires PrefilledSlots(m).Some? && Distinct(m.shortIds) && k < |PrefilledSlots(m).value| &&
             PrefilledSlots(m).value[k].Some?
    ensures forall x :: x in IdsOf(m) ==> IdsOf(m)[x] != k
  {
    IdsInOrder(m);
    EmptySlotsFacts(PrefilledSlots(m).value);
    forall x | x in IdsOf(m) ensures IdsOf(m)[x] != k {
      var i :| 0 <= i < |m.shortIds| && m.shortIds[i] == x;
    }
  }

  // ----- putting a block together again

  /** The transactions to ask for, in order. */
  ghost function ToAskFor(b: Block, a: Slots): seq<Tx>
    requires |a| == |b.vtx|
  {
    EmptySlotsFacts(a);
    seq(|EmptySlots(a)|, i requires 0 <= i < |EmptySlots(a)| => b.vtx[EmptySlots(a)[i]])
  }

  /** Every slot holds the transaction of the block, or nothing. */
  ghost predicate Agrees(b: Block, a: Slots) {
    |a| == |b.vtx| && forall k :: 0 <= k < |a| && a[k].Some? ==> a[k].value == b.vtx[k]
  }

  lemma FillGivesBlock(b: Block, a: Slots)
    requires Agrees(b, a)
    ensures |ToAskFor(b, a)| == |EmptySlots(a)| && FilledBlock(b.header, a, ToAskFor(b, a)) == b
  {
    forall k | 0 <= k < |a| ensures FilledTx(a, ToAskFor(b, a), k) == b.vtx[k] {
      if a[k].None? { EmptySlotAt(a, k); }
    }
  }

  /** No transaction that can be looked up is mistaken for one of the block. */
  ghost predicate NoCollision(b: Block, sid: int -> int, known: set<Tx>)
    requires |b.vtx| > 0
  {
    && Distinct(Compact(b, sid).shortIds)
    && forall t, k :: t in known && 1 <= k < |b.vtx| && sid(t.wtxid) == sid(b.vtx[k].wtxid) ==> t == b.vtx[k]
  }

  /** The slots of a compact block of our own making: the coinbase comes first. */
  lemma CompactSlots(b: Block, sid: int -> int)
    requires 0 < |b.vtx| <= UINT16_MAX && !b.vtx[0].isNull
    ensures var m := Compact(b, sid);
            && PrefilledSlots(m) == Some(NoSlots(|b.vtx|)[0 := Some(b.vtx[0])])
            && |EmptySlots(PrefilledSlots(m).value)| == |b.vtx| - 1
            && (forall i :: 0 <= i < |b.vtx| - 1 ==> EmptySlots(PrefilledSlots(m).value)[i] == i + 1)
  {
    var m := Compact(b, sid);
    assert PrefillFrom(m, NoSlots(|b.vtx|)[0 := Some(b.vtx[0])], 0, 1) == Some(NoSlots(|b.vtx|)[0 := Some(b.vtx[0])]);
    FirstFilled(PrefilledSlots(m).value);
  }

  lemma {:induction false} FirstFilled(a: Slots)
    requires |a| > 0 && a[0].Some? && forall k :: 1 <= k < |a| ==> a[k].None?
    ensures |EmptySlots(a)| == |a| - 1 && forall i :: 0 <= i < |a| - 1 ==> EmptySlots(a)[i] == i + 1
  {
    if |a| == 1 {
      assert a[..0] == [];
    } else {
      FirstFilled(a[..|a| - 1]);
    }
  }

  lemma LookedAgrees(b: Block, sid: int -> int, pool: seq<Tx>, extra: seq<Option<Tx>>, count0: int, extra0: int)
    requires 0 < |b.vtx| <= UINT16_MAX && !b.vtx[0].isNull && NoCollision(b, sid, Known(pool, extra))
    ensures PrefilledSlots(Compact(b, sid)).Some? && Agrees(b, Looked(Compact(b, sid), pool, extra, count0, extra0).a)
  {
    var m := Compact(b, sid);
    CompactSlots(b, sid);
    LookedFacts(m, pool, extra, count0, extra0);
    IdsInOrder(m);
    var ids, s := IdsOf(m), Looked(m, pool, extra, count0, extra0);
    forall k | 0 <= k < |s.a| && s.a[k].Some? ensures s.a[k].value == b.vtx[k] {
      if k == 0 {
        PrefilledAside(m, 0);
      } else {
        var x := m.shortIds[k - 1];
        assert x in ids && ids[x] == k;
      }
    }
  }

  /** A block sent in compact form is reconstructed: InitData accepts it, and
      FillBlock, given the transactions not available, returns the block. */
  lemma Reconstructs(b: Block, sid: int -> int, pool: seq<Tx>, extra: seq<Option<Tx>>, crowded: nat -> bool,
                     mutated: Block -> bool)
    requires b.header != 0 && 0 < |b.vtx| <= UINT16_MAX && !b.vtx[0].isNull && NoCollision(b, sid, Known(pool, extra))
    requires Spread(crowded, |b.vtx| - 1) && !mutated(b)
    ensures InitStatus(true, Compact(b, sid), crowded) == Status.Ok
    ensures var a := Looked(Compact(b, sid), pool, extra, 0, 0).a;
            && |a| == |b.vtx|
            && FillStatus(b.header, a, ToAskFor(b, a), mutated) == Status.Ok
            && FilledBlock(b.header, a, ToAskFor(b, a)) == b
  {
    LookedAgrees(b, sid, pool, extra, 0, 0);
    FillGivesBlock(b, Looked(Compact(b, sid), pool, extra, 0, 0).a);
  }
}
