/**
 Which transactions InitData finds in the mempool and in the extra list.
 */
module CompactBlockLookup {
  import opened CompactBlock
  import opened CompactBlockDownload
  import opened CompactBlockTheorems
  import opened Helpers

  /** The transactions with short id `x`, in order. */
  ghost function Hits(sid: int -> int, txs: seq<Tx>, x: int): seq<Tx> {
    if |txs| == 0 then []
    else if sid(txs[0].wtxid) == x then [txs[0]] + Hits(sid, txs[1..], x)
    else Hits(sid, txs[1..], x)
  }

  /** The transactions of the extra list, which has gaps. */
  function Present(extra: seq<Option<Tx>>): seq<Tx> {
    if |extra| == 0 then []
    else if extra[0].None? then Present(extra[1..])
    else [extra[0].value] + Present(extra[1..])
  }

  ghost predicate Agree(txs: seq<Tx>) { forall t, u :: t in txs && u in txs ==> t.wtxid == u.wtxid }

  /** What a short id stands for, given its hits in the mempool and in the extra list: the
      one transaction, if there is one. */
  ghost function Choice(p: seq<Tx>, q: seq<Tx>): Option<Tx> {
    if |p| < 2 && p + q != [] && Agree(p + q) then Some((p + q)[0]) else None
  }

  // ----- one slot, seen by itself

  ghost function PoolSlot(p: seq<Tx>): (Option<Tx>, Source) {
    if |p| == 0 then (None, NoSource) else if |p| == 1 then (Some(p[0]), Mempool) else (None, Mempool)
  }

  ghost function ExtraSlot(v: Option<Tx>, w: Source, q: seq<Tx>): (Option<Tx>, Source)
    decreases |q|
  {
    if |q| == 0 then (v, w)
    else if w == NoSource then ExtraSlot(Some(q[0]), Extra, q[1..])
    else if v.Some? && v.value.wtxid != q[0].wtxid then ExtraSlot(None, w, q[1..])
    else ExtraSlot(v, w, q[1..])
  }

  lemma {:induction false} ExtraSame(v: Option<Tx>, w: Source, q: seq<Tx>)
    requires w != NoSource && (v.Some? ==> forall t :: t in q ==> t.wtxid == v.value.wtxid)
    ensures ExtraSlot(v, w, q) == (v, w)
    decreases |q|
  {
    if |q| > 0 {
      assert q[0] in q;
      ExtraSame(v, w, q[1..]);
    }
  }

  lemma {:induction false} ExtraDiffers(v: Tx, w: Source, q: seq<Tx>)
    requires w != NoSource && exists t :: t in q && t.wtxid != v.wtxid
    ensures ExtraSlot(Some(v), w, q) == (None, w)
    decreases |q|
  {
    if q[0].wtxid != v.wtxid {
      ExtraSame(None, w, q[1..]);
    } else {
      ExtraDiffers(v, w, q[1..]);
    }
  }

  /** The two scans choose. */
  lemma SlotsChoose(p: seq<Tx>, q: seq<Tx>)
    ensures var (v, w) := PoolSlot(p); ExtraSlot(v, w, q).0 == Choice(p, q)
  {
    var (v, w) := PoolSlot(p);
    if |p| >= 2 {
      ExtraSame(v, w, q);
    } else if |p| == 1 {
      FirstChooses(p[0], w, q, p + q);
    } else if |q| > 0 {
      assert p + q == q == [q[0]] + q[1..];
      FirstChooses(q[0], Extra, q[1..], p + q);
    }
  }

  lemma FirstChooses(first: Tx, w: Source, q: seq<Tx>, all: seq<Tx>)
    requires w != NoSource && all == [first] + q
    ensures ExtraSlot(Some(first), w, q).0 == if Agree(all) then Some(first) else None
  {
    assert first in all;
    if forall t :: t in q ==> t.wtxid == first.wtxid {
      ExtraSame(Some(first), w, q);
    } else {
      var t :| t in q && t.wtxid != first.wtxid;
      assert t in all;
      ExtraDiffers(first, w, q);
    }
  }

  // ----- the scans

  ghost predicate SlotIs(ids: map<int, nat>, s: Scan, x: int, v: (Option<Tx>, Source)) {
    Fits(ids, s) && x in ids && s.a[ids[x]] == v.0 && s.source[ids[x]] == v.1
  }

  lemma AllFound(a: set<int>, b: set<int>)
    requires a <= b && |a| == |b|
    ensures a == b
  {
    assert b == a + (b - a);
  }

  /** A scan that stops early has filled every slot. */
  lemma FullFinds(sid: int -> int, ids: map<int, nat>, base: Slots, from: set<Tx>, extra0: int, s: Scan, x: int)
    requires Scanned(sid, ids, base, from, 0, extra0, s) && s.count == |ids| && x in ids
    ensures s.a[ids[x]].Some?
  {
    assert |ids| == |ids.Keys|;
    AllFound(Found(ids, s), ids.Keys);
  }

  lemma PoolStepSlot(sid: int -> int, ids: map<int, nat>, s: Scan, tx: Tx, x: int, p: seq<Tx>)
    requires Injective(ids) && SlotIs(ids, s, x, PoolSlot(p))
    ensures SlotIs(ids, PoolStep(sid, ids, s, tx), x, PoolSlot(p + if sid(tx.wtxid) == x then [tx] else []))
  {
  }

  /** Some short id that no transaction of the list has, and whose slot is untouched. */
  ghost predicate Missing(sid: int -> int, ids: map<int, nat>, s: Scan, txs: seq<Tx>, y: int) {
    SlotIs(ids, s, y, (None, NoSource)) && Hits(sid, txs, y) == []
  }

  lemma MissingStays(sid: int -> int, ids: map<int, nat>, s: Scan, pool: seq<Tx>, y: int)
    requires Injective(ids) && |pool| > 0 && Missing(sid, ids, s, pool, y)
    ensures Missing(sid, ids, PoolStep(sid, ids, s, pool[0]), pool[1..], y)
  {
    assert sid(pool[0].wtxid) != y;
    PoolStepSlot(sid, ids, s, pool[0], y, []);
  }

  lemma {:induction false} PoolScanSlot(sid: int -> int, ids: map<int, nat>, base: Slots, from: set<Tx>, extra0: int,
                                        s: Scan, pool: seq<Tx>, x: int, p: seq<Tx>, y: int)
    requires Scanned(sid, ids, base, from, 0, extra0, s) && NoneExtra(s) && forall tx :: tx in pool ==> tx in from
    requires SlotIs(ids, s, x, PoolSlot(p)) && (|p + Hits(sid, pool, x)| < 2 || Missing(sid, ids, s, pool, y))
    ensures SlotIs(ids, PoolScan(sid, ids, s, pool), x, PoolSlot(p + Hits(sid, pool, x)))
    decreases |pool|
  {
    if |pool| == 0 {
      assert p + Hits(sid, pool, x) == p;
    } else {
      var t := PoolStep(sid, ids, s, pool[0]);
      var hit := if sid(pool[0].wtxid) == x then [pool[0]] else [];
      var rest := Hits(sid, pool[1..], x);
      PoolStepSlot(sid, ids, s, pool[0], x, p);
      PoolStepKeeps(sid, ids, base, from, 0, extra0, s, pool[0]);
      assert p + Hits(sid, pool, x) == p + hit + rest;
      if Missing(sid, ids, s, pool, y) { MissingStays(sid, ids, s, pool, y); }
      if t.count == |ids| {
        FullFinds(sid, ids, base, from, extra0, t, x);
        if Missing(sid, ids, s, pool, y) { FullFinds(sid, ids, base, from, extra0, t, y); }
        assert rest == [];
      } else {
        PoolScanSlot(sid, ids, base, from, extra0, t, pool[1..], x, p + hit, y);
      }
    }
  }

  lemma ExtraStepSlot(sid: int -> int, ids: map<int, nat>, s: Scan, tx: Tx, x: int, v: Option<Tx>, w: Source)
    requires Injective(ids) && SlotIs(ids, s, x, (v, w))
    ensures var (v', w') := ExtraSlot(v, w, if sid(tx.wtxid) == x then [tx] else []);
            SlotIs(ids, ExtraStep(sid, ids, s, tx), x, (v', w'))
  {
    if sid(tx.wtxid) == x {
      assert [tx][1..] == [];
      assert ExtraSlot(Some(tx), Extra, []) == (Some(tx), Extra);
    }
  }

  /** One hit after the other. */
  lemma ExtraSlotNext(v: Option<Tx>, w: Source, hit: Tx, q: seq<Tx>)
    ensures var (v', w') := ExtraSlot(v, w, [hit]); ExtraSlot(v, w, [hit] + q) == ExtraSlot(v', w', q)
  {
    assert ([hit] + q)[1..] == q && [hit][1..] == [];
  }

  /** Nothing that comes changes what is in the slot, once there is something. */
  ghost predicate Steady(v: Option<Tx>, w: Source, q: seq<Tx>) {
    if w == NoSource then Agree(q) else v.Some? ==> forall t :: t in q ==> t.wtxid == v.value.wtxid
  }

  lemma SteadyNext(v: Option<Tx>, w: Source, hit: Tx, q: seq<Tx>)
    requires Steady(v, w, [hit] + q)
    ensures var (v', w') := ExtraSlot(v, w, [hit]); w' != NoSource && Steady(v', w', q)
  {
    assert [hit][1..] == [];
    assert hit in [hit] + q && forall t :: t in q ==> t in [hit] + q;
  }

  lemma {:induction false} ExtraScanSlot(sid: int -> int, ids: map<int, nat>, base: Slots, from: set<Tx>, extra0: int,
                                         s: Scan, extra: seq<Option<Tx>>, x: int, v: Option<Tx>, w: Source, y: int)
    requires Scanned(sid, ids, base, from, 0, extra0, s) && forall tx :: Some(tx) in extra ==> tx in from
    requires SlotIs(ids, s, x, (v, w))
    requires Steady(v, w, Hits(sid, Present(extra), x)) || Missing(sid, ids, s, Present(extra), y)
    ensures SlotIs(ids, ExtraScan(sid, ids, s, extra), x, ExtraSlot(v, w, Hits(sid, Present(extra), x)))
    decreases |extra|
  {
    if |extra| > 0 {
      if extra[0].None? {
        ExtraScanSlot(sid, ids, base, from, extra0, s, extra[1..], x, v, w, y);
      } else {
        ExtraScanNext(sid, ids, base, from, extra0, s, extra, x, v, w, y);
      }
    }
  }

  lemma {:induction false} ExtraScanNext(sid: int -> int, ids: map<int, nat>, base: Slots, from: set<Tx>, extra0: int,
                                         s: Scan, extra: seq<Option<Tx>>, x: int, v: Option<Tx>, w: Source, y: int)
    requires Scanned(sid, ids, base, from, 0, extra0, s) && forall tx :: Some(tx) in extra ==> tx in from
    requires SlotIs(ids, s, x, (v, w)) && |extra| > 0 && extra[0].Some?
    requires Steady(v, w, Hits(sid, Present(extra), x)) || Missing(sid, ids, s, Present(extra), y)
    ensures SlotIs(ids, ExtraScan(sid, ids, s, extra), x, ExtraSlot(v, w, Hits(sid, Present(extra), x)))
    decreases |extra|, 1
  {
    var tx, txs := extra[0].value, Present(extra[1..]);
    var t, rest := ExtraStep(sid, ids, s, tx), Hits(sid, txs, x);
    assert Some(tx) in extra;
    ExtraStepKeeps(sid, ids, base, from, 0, extra0, s, tx);
    PresentNext(sid, extra, tx, txs, x);
    var (v', w') := ExtraSlot(v, w, if sid(tx.wtxid) == x then [tx] else []);
    assert SlotIs(ids, t, x, (v', w')) by { ExtraStepSlot(sid, ids, s, tx, x, v, w); }
    NextHit(sid, tx, txs, x, v, w, v', w');
    if Missing(sid, ids, s, Present(extra), y) { MissingStill(sid, ids, s, extra, tx, txs, y); }
    if t.count == |ids| {
      FullFinds(sid, ids, base, from, extra0, t, x);
      if Missing(sid, ids, t, txs, y) { FullFinds(sid, ids, base, from, extra0, t, y); }
      ExtraSame(v', w', rest);
    } else {
      ExtraScanSlot(sid, ids, base, from, extra0, t, extra[1..], x, v', w', y);
    }
  }

  lemma PresentNext(sid: int -> int, extra: seq<Option<Tx>>, tx: Tx, txs: seq<Tx>, x: int)
    requires |extra| > 0 && extra[0] == Some(tx) && txs == Present(extra[1..])
    ensures Hits(sid, Present(extra), x) == (if sid(tx.wtxid) == x then [tx] else []) + Hits(sid, txs, x)
  {
    assert Present(extra) == [tx] + txs;
    assert ([tx] + txs)[1..] == txs;
  }

  lemma NextHit(sid: int -> int, tx: Tx, txs: seq<Tx>, x: int, v: Option<Tx>, w: Source, v': Option<Tx>, w': Source)
    requires (v', w') == ExtraSlot(v, w, if sid(tx.wtxid) == x then [tx] else [])
    ensures var hits, rest := if sid(tx.wtxid) == x then [tx] else [], Hits(sid, txs, x);
            ExtraSlot(v, w, hits + rest) == ExtraSlot(v', w', rest) &&
                (Steady(v, w, hits + rest) ==> Steady(v', w', rest))
  {
    var rest := Hits(sid, txs, x);
    if sid(tx.wtxid) == x {
      ExtraSlotNext(v, w, tx, rest);
      if Steady(v, w, [tx] + rest) { SteadyNext(v, w, tx, rest); }
    } else {
      assert [] + rest == rest;
    }
  }

  lemma MissingStill(sid: int -> int, ids: map<int, nat>, s: Scan, extra: seq<Option<Tx>>, tx: Tx, txs: seq<Tx>, y: int)
    requires Injective(ids) && |extra| > 0 && extra[0] == Some(tx) && txs == Present(extra[1..])
    requires Missing(sid, ids, s, Present(extra), y)
    ensures Missing(sid, ids, ExtraStep(sid, ids, s, tx), txs, y)
  {
    PresentNext(sid, extra, tx, txs, y);
    ExtraStepSlot(sid, ids, s, tx, y, None, NoSource);
  }

  // ----- what InitData finds

  /** No transaction that can be looked up has this short id. */
  ghost predicate Unknown(m: Message, pool: seq<Tx>, extra: seq<Option<Tx>>, y: int) {
    y in m.shortIds && Hits(m.sid, pool, y) == [] && Hits(m.sid, Present(extra), y) == []
  }

  lemma StartSlot(m: Message, x: int, s: Scan)
    requires PrefilledSlots(m).Some? && Distinct(m.shortIds) && x in m.shortIds
    requires s == Scan(PrefilledSlots(m).value, NoSources(Entries(m)), 0, 0)
    ensures SlotIs(IdsOf(m), s, x, PoolSlot([]))
  {
    IdsBelow(m);
    IdsInOrder(m);
    EmptySlotsFacts(PrefilledSlots(m).value);
    var i :| 0 <= i < |m.shortIds| && m.shortIds[i] == x;
  }

  lemma SteadyChoice(p: seq<Tx>, q: seq<Tx>)
    requires Choice(p, q).Some?
    ensures |p| < 2 && var (v, w) := PoolSlot(p); Steady(v, w, q)
  {
    assert forall t :: t in q ==> t in p + q;
    if |p| == 1 { assert p[0] in p + q; }
  }

  /** A slot holds the one transaction with its short id, if there is exactly one in the
      mempool and the extra list together. If any of the transactions asked for is unknown,
      so that the scans cannot stop early, it holds nothing otherwise. */
  lemma LookupExact(m: Message, pool: seq<Tx>, extra: seq<Option<Tx>>, x: int)
    requires PrefilledSlots(m).Some? && Distinct(m.shortIds) && x in m.shortIds
    ensures var a, p, q := Looked(m, pool, extra, 0, 0).a, Hits(m.sid, pool, x), Hits(m.sid, Present(extra), x);
            && x in IdsOf(m) && IdsOf(m)[x] < |a|
            && (Choice(p, q).Some? || (exists y :: Unknown(m, pool, extra, y)) ==> a[IdsOf(m)[x]] == Choice(p, q))
  {
    IdsBelow(m);
    IdsInOrder(m);
    LookedFacts(m, pool, extra, 0, 0);
    var p, q := Hits(m.sid, pool, x), Hits(m.sid, Present(extra), x);
    if Choice(p, q).Some? || exists y :: Unknown(m, pool, extra, y) {
      var y :| Choice(p, q).Some? || Unknown(m, pool, extra, y);
      if Choice(p, q).Some? { SteadyChoice(p, q); }
      ScansSlot(m, pool, extra, x, y, p, q);
      SlotsChoose(p, q);
    }
  }

  lemma ScansSlot(m: Message, pool: seq<Tx>, extra: seq<Option<Tx>>, x: int, y: int, p: seq<Tx>, q: seq<Tx>)
    requires PrefilledSlots(m).Some? && Distinct(m.shortIds) && x in m.shortIds
    requires p == Hits(m.sid, pool, x) && q == Hits(m.sid, Present(extra), x)
    requires (|p| < 2 && var (v, w) := PoolSlot(p); Steady(v, w, q)) || Unknown(m, pool, extra, y)
    ensures var (v, w) := PoolSlot(p);
            SlotIs(IdsOf(m), Looked(m, pool, extra, 0, 0), x, ExtraSlot(v, w, q))
  {
    var ids, base, from := IdsOf(m), PrefilledSlots(m).value, Known(pool, extra);
    IdsBelow(m);
    BaseScanned(m, from, 0, 0);
    var s := Scan(base, NoSources(Entries(m)), 0, 0);
    StartSlot(m, x, s);
    if Unknown(m, pool, extra, y) { StartSlot(m, y, s); }
    assert [] + p == p;
    PoolScanSlot(m.sid, ids, base, from, 0, s, pool, x, [], y);
    var s1 := PoolScan(m.sid, ids, s, pool);
    if Unknown(m, pool, extra, y) { PoolScanSlot(m.sid, ids, base, from, 0, s, pool, y, [], y); }
    PoolScanKeeps(m.sid, ids, base, from, 0, 0, s, pool);
    forall tx | Some(tx) in extra ensures tx in from { assert Some(tx).value == tx; }
    var (v, w) := PoolSlot(p);
    ExtraScanSlot(m.sid, ids, base, from, 0, s1, extra, x, v, w, y);
  }

  // ----- a block of our own making

  lemma {:induction false} HitsIn(sid: int -> int, txs: seq<Tx>, x: int, tx: Tx)
    ensures tx in Hits(sid, txs, x) <==> tx in txs && sid(tx.wtxid) == x
    decreases |txs|
  {
    if |txs| > 0 { HitsIn(sid, txs[1..], x, tx); }
  }

  lemma {:induction false} PresentIn(extra: seq<Option<Tx>>, tx: Tx)
    ensures tx in Present(extra) <==> Some(tx) in extra
    decreases |extra|
  {
    if |extra| > 0 { PresentIn(extra[1..], tx); }
  }

  /** A transaction is in the mempool once. */
  ghost predicate Once(pool: seq<Tx>) { forall i, j :: 0 <= i < j < |pool| ==> pool[i] != pool[j] }

  lemma {:induction false} OneHit(sid: int -> int, pool: seq<Tx>, x: int, tx: Tx)
    requires Once(pool) && forall t :: t in Hits(sid, pool, x) ==> t == tx
    ensures |Hits(sid, pool, x)| < 2
    decreases |pool|
  {
    if |pool| > 0 {
      var rest := Hits(sid, pool[1..], x);
      if sid(pool[0].wtxid) == x {
        assert Hits(sid, pool, x) == [pool[0]] + rest && pool[0] in Hits(sid, pool, x);
        if |rest| > 0 {
          assert rest[0] in Hits(sid, pool, x);
          HitsIn(sid, pool[1..], x, rest[0]);
        }
      } else {
        assert Hits(sid, pool, x) == rest;
        OneHit(sid, pool[1..], x, tx);
      }
    }
  }

  /** All hits of a short id of the block are the transaction itself. */
  lemma HitsAre(b: Block, sid: int -> int, pool: seq<Tx>, extra: seq<Option<Tx>>, k: nat, t: Tx, x: int)
    requires 1 <= k < |b.vtx| && NoCollision(b, sid, Known(pool, extra)) && x == sid(b.vtx[k].wtxid)
    ensures t in Hits(sid, pool, x) + Hits(sid, Present(extra), x) <==> t in Known(pool, extra) && t == b.vtx[k]
  {
    HitsIn(sid, pool, x, t);
    HitsIn(sid, Present(extra), x, t);
    PresentIn(extra, t);
    if Some(t) in extra { assert Some(t).value == t; }
  }

  /** Without a collision exactly the transactions found in neither list are left to ask for. */
  lemma EmptyExactly(b: Block, sid: int -> int, pool: seq<Tx>, extra: seq<Option<Tx>>, k: nat)
    requires 0 < |b.vtx| <= UINT16_MAX && !b.vtx[0].isNull && NoCollision(b, sid, Known(pool, extra)) && Once(pool)
    requires 1 <= k < |b.vtx|
    ensures PrefilledSlots(Compact(b, sid)).Some?
    ensures var a := Looked(Compact(b, sid), pool, extra, 0, 0).a;
            |a| == |b.vtx| && a[k] == if b.vtx[k] in Known(pool, extra) then Some(b.vtx[k]) else None
  {
    var m := Compact(b, sid);
    var x := m.shortIds[k - 1];
    CompactSlots(b, sid);
    assert x in IdsOf(m) && IdsOf(m)[x] == k by { IdsInOrder(m); }
    assert |Looked(m, pool, extra, 0, 0).a| == |b.vtx| by { LookedAgrees(b, sid, pool, extra, 0, 0); }
    assert x in m.shortIds && x == sid(b.vtx[k].wtxid);
    if b.vtx[k] in Known(pool, extra) {
      OwnChoice(b, sid, pool, extra, k, x, Hits(sid, pool, x), Hits(sid, Present(extra), x));
      LookupExact(m, pool, extra, x);
    } else {
      UnknownEmpty(b, sid, pool, extra, k, x);
    }
  }

  lemma OwnChoice(b: Block, sid: int -> int, pool: seq<Tx>, extra: seq<Option<Tx>>, k: nat, x: int, p: seq<Tx>,
                  q: seq<Tx>)
    requires 1 <= k < |b.vtx| && NoCollision(b, sid, Known(pool, extra)) && Once(pool) && x == sid(b.vtx[k].wtxid)
    requires p == Hits(sid, pool, x) && q == Hits(sid, Present(extra), x) && b.vtx[k] in Known(pool, extra)
    ensures Choice(p, q) == Some(b.vtx[k])
  {
    forall t ensures t in p + q <==> t == b.vtx[k] { HitsAre(b, sid, pool, extra, k, t, x); }
    assert forall t :: t in p ==> t in p + q;
    OneHit(sid, pool, x, b.vtx[k]);
    assert b.vtx[k] in p + q;
    assert (p + q)[0] in p + q;
  }

  lemma UnknownEmpty(b: Block, sid: int -> int, pool: seq<Tx>, extra: seq<Option<Tx>>, k: nat, x: int)
    requires 0 < |b.vtx| && PrefilledSlots(Compact(b, sid)).Some? && NoCollision(b, sid, Known(pool, extra))
    requires 1 <= k < |b.vtx| && x == sid(b.vtx[k].wtxid) && b.vtx[k] !in Known(pool, extra)
    requires var m, a := Compact(b, sid), Looked(Compact(b, sid), pool, extra, 0, 0).a;
             x in IdsOf(m) && IdsOf(m)[x] == k < |a|
    ensures Looked(Compact(b, sid), pool, extra, 0, 0).a[k].None?
  {
    LookedFacts(Compact(b, sid), pool, extra, 0, 0);
  }
}
