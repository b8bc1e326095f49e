/**
 Compact blocks (BIP 152): what a peer sends, how the transactions are looked up,
 and how the block is put together. Short ids are an unknown function of the
 witness hash, and a transaction is known by its witness hash.
 */
module CompactBlock {
  import opened Helpers

  datatype Tx = Tx(wtxid: int, isNull: bool)

  type Slots = seq<Option<Tx>>

  /** `index` counts from the previous prefilled transaction. */
  datatype Prefilled = Prefilled(index: nat, tx: Tx)

  /** A header of 0 is the null header; `sid` is keyed by header and nonce. */
  datatype Message = Message(header: nat, shortIds: seq<int>, prefilled: seq<Prefilled>, sid: int -> int)

  datatype Block = Block(header: nat, vtx: seq<Tx>)

  datatype Status = Ok | Invalid | Failed

  datatype Source = NoSource | Mempool | Extra

  const UINT16_MAX: int := 65535
  const MAX_ENTRIES: int := 24000000 / 10

  /** What a peer sends for a block: the coinbase, and short ids of the rest. */
  function Compact(b: Block, sid: int -> int): Message
    requires |b.vtx| > 0
  {
    Message(b.header, seq(|b.vtx| - 1, i requires 0 <= i < |b.vtx| - 1 => sid(b.vtx[i + 1].wtxid)),
        [Prefilled(0, b.vtx[0])], sid)
  }

  function Entries(m: Message): nat { |m.shortIds| + |m.prefilled| }

  // ----- empty slots

  function EmptySlots(a: Slots): seq<nat> {
    if |a| == 0 then [] else
      var n := |a| - 1;
      if a[n].None? then EmptySlots(a[..n]) + [n] else EmptySlots(a[..n])
  }

  lemma {:induction false} EmptySlotsFacts(a: Slots)
    ensures var e := EmptySlots(a);
            && |e| <= |a|
            && (forall i :: 0 <= i < |e| ==> e[i] < |a| && a[e[i]].None?)
            && (forall i, j :: 0 <= i < j < |e| ==> e[i] < e[j])
            && (forall k :: 0 <= k < |a| && a[k].None? ==> k in e)
  {
    if |a| > 0 {
      var n, r := |a| - 1, a[..|a| - 1];
      EmptySlotsFacts(r);
      var e, f := EmptySlots(a), EmptySlots(r);
      forall k | 0 <= k < |a| && a[k].None? ensures k in e {
        if k < n { assert r[k] == a[k]; assert k in f; }
      }
    }
  }

  /** The empty slots of a part are the first ones of the whole. */
  lemma {:induction false} EmptySlotsPrefix(a: Slots, p: nat)
    requires p <= |a|
    ensures EmptySlots(a[..p]) <= EmptySlots(a)
    decreases |a|
  {
    if p == |a| {
      assert a[..p] == a;
    } else {
      EmptySlotsPrefix(a[..|a| - 1], p);
      assert a[..|a| - 1][..p] == a[..p];
    }
  }

  lemma EmptySlotAt(a: Slots, p: nat)
    requires p < |a| && a[p].None?
    ensures var i := |EmptySlots(a[..p])|; i < |EmptySlots(a)| && EmptySlots(a)[i] == p
  {
    assert a[..p + 1][..p] == a[..p];
    EmptySlotsPrefix(a, p + 1);
    assert EmptySlots(a[..p + 1])[|EmptySlots(a[..p])|] == p;
  }

  lemma EmptySlotsSkip(a: Slots, p: nat)
    requires p < |a| && a[p].Some?
    ensures EmptySlots(a[..p + 1]) == EmptySlots(a[..p])
  {
    assert a[..p + 1][..p] == a[..p];
  }

  lemma {:induction false} EmptySlotsAll(a: Slots)
    requires forall k :: 0 <= k < |a| ==> a[k].None?
    ensures |EmptySlots(a)| == |a|
  {
    if |a| > 0 { EmptySlotsAll(a[..|a| - 1]); }
  }

  lemma {:induction false} EmptySlotsFill(a: Slots, k: nat, tx: Tx)
    requires k < |a| && a[k].None?
    ensures |EmptySlots(a[k := Some(tx)])| == |EmptySlots(a)| - 1
  {
    var n, b := |a| - 1, a[k := Some(tx)];
    if k == n {
      assert b[..n] == a[..n];
    } else {
      assert b[..n] == a[..n][k := Some(tx)];
      EmptySlotsFill(a[..n], k, tx);
    }
  }

  // ----- the prefilled transactions

  /** The slots with the prefilled transactions from the `i`th on put in, the last
      one so far being at `last`. */
  function PrefillFrom(m: Message, a: Slots, last: int, i: nat): Option<Slots>
    requires i <= |m.prefilled| && |a| == Entries(m) && -1 <= last
    decreases |m.prefilled| - i
  {
    if i == |m.prefilled| then Some(a)
    else
      var p := m.prefilled[i];
      var next := last + p.index + 1;
      if p.tx.isNull || next > UINT16_MAX || next > |m.shortIds| + i then None
      else PrefillFrom(m, a[next := Some(p.tx)], next, i + 1)
  }

  /** The slots as they are when the last prefilled transaction is in, or one is refused. */
  function PrefillLeft(m: Message, a: Slots, last: int, i: nat): Slots
    requires i <= |m.prefilled| && |a| == Entries(m) && -1 <= last
    decreases |m.prefilled| - i
  {
    if i == |m.prefilled| then a
    else
      var p := m.prefilled[i];
      var next := last + p.index + 1;
      if p.tx.isNull || next > UINT16_MAX || next > |m.shortIds| + i then a
      else PrefillLeft(m, a[next := Some(p.tx)], next, i + 1)
  }

  function NoSlots(n: nat): Slots { seq(n, i => None) }

  function PrefilledSlots(m: Message): Option<Slots> { PrefillFrom(m, NoSlots(Entries(m)), -1, 0) }

  /** As many slots stay empty as there are short ids. */
  lemma {:induction false} PrefillLeaves(m: Message, a: Slots, last: int, i: nat)
    requires i <= |m.prefilled| && |a| == Entries(m) && -1 <= last < |a|
    requires (forall k :: last < k < |a| ==> a[k].None?) && |EmptySlots(a)| == |a| - i
    ensures PrefillFrom(m, a, last, i).Some? ==>
              var b := PrefillFrom(m, a, last, i).value; |b| == Entries(m) && |EmptySlots(b)| == |m.shortIds|
    decreases |m.prefilled| - i
  {
    if i < |m.prefilled| {
      var p := m.prefilled[i];
      var next := last + p.index + 1;
      if !(p.tx.isNull || next > UINT16_MAX || next > |m.shortIds| + i) {
        EmptySlotsFill(a, next, p.tx);
        PrefillLeaves(m, a[next := Some(p.tx)], next, i + 1);
      }
    }
  }

  lemma PrefilledLeave(m: Message)
    requires PrefilledSlots(m).Some?
    ensures |PrefilledSlots(m).value| == Entries(m) && |EmptySlots(PrefilledSlots(m).value)| == |m.shortIds|
  {
    var a := NoSlots(Entries(m));
    EmptySlotsAll(a);
    if |a| > 0 {
      PrefillLeaves(m, a, -1, 0);
    }
  }

  // ----- from short ids to slots

  /** The map of the first `i` short ids to the empty slots, in order. */
  function SlotMap(ids: seq<int>, e: seq<nat>, i: nat): map<int, nat>
    requires i <= |ids| && i <= |e|
  {
    if i == 0 then map[] else SlotMap(ids, e, i - 1)[ids[i - 1] := e[i - 1]]
  }

  lemma DistinctSnoc(ids: seq<int>, more: seq<int>, x: int)
    requires more == ids + [x]
    ensures Distinct(more) <==> Distinct(ids) && x !in ids
  {
    if x in ids {
      var j :| 0 <= j < |ids| && ids[j] == x;
      assert more[j] == more[|ids|];
    }
    if !Distinct(ids) {
      var j, k :| 0 <= j < k < |ids| && ids[j] == ids[k];
      assert more[j] == more[k];
    }
  }

  lemma {:induction false} SlotMapSize(ids: seq<int>, e: seq<nat>, i: nat)
    requires i <= |ids| && i <= |e|
    ensures SlotMap(ids, e, i).Keys == set x | x in ids[..i]
    ensures |SlotMap(ids, e, i)| <= i && (|SlotMap(ids, e, i)| == i <==> Distinct(ids[..i]))
  {
    if i > 0 {
      SlotMapSize(ids, e, i - 1);
      var m, n, x := SlotMap(ids, e, i - 1), SlotMap(ids, e, i), ids[i - 1];
      assert ids[..i] == ids[..i - 1] + [x];
      DistinctSnoc(ids[..i - 1], ids[..i], x);
      assert n.Keys == m.Keys + {x};
      assert |n| == |n.Keys| && |m| == |m.Keys|;
      assert x in m <==> x in ids[..i - 1];
      if x in m { assert n.Keys == m.Keys; }
    }
  }

  /** Without collisions, short ids and empty slots correspond one to one, in order. */
  lemma {:induction false} SlotMapIs(ids: seq<int>, e: seq<nat>, i: nat, j: nat)
    requires i <= |ids| && i <= |e| && Distinct(ids[..i]) && j < i
    ensures ids[j] in SlotMap(ids, e, i) && SlotMap(ids, e, i)[ids[j]] == e[j]
  {
    assert forall k :: 0 <= k < i ==> ids[..i][k] == ids[k];
    if j < i - 1 {
      assert ids[..i - 1] == ids[..i][..i - 1];
      SlotMapIs(ids, e, i - 1, j);
      assert ids[j] != ids[i - 1];
    }
  }

  // ----- looking the transactions up

  /** The slots, where each was filled from, and the two counters. */
  datatype Scan = Scan(a: Slots, source: seq<Source>, count: int, extra: int)

  predicate Fits(ids: map<int, nat>, s: Scan) {
    |s.source| == |s.a| && forall x :: x in ids ==> ids[x] < |s.a|
  }

  /** A transaction of the mempool: it fills its slot, or empties it if another
      one was there. */
  function PoolStep(sid: int -> int, ids: map<int, nat>, s: Scan, tx: Tx): (t: Scan)
    requires Fits(ids, s)
    ensures Fits(ids, t) && |t.a| == |s.a|
  {
    var id := sid(tx.wtxid);
    if id !in ids then s else
      var k := ids[id];
      if s.source[k] == NoSource then s.(a := s.a[k := Some(tx)], source := s.source[k := Mempool],
          count := s.count + 1)
      else if s.a[k].Some? then s.(a := s.a[k := None], count := s.count - 1)
      else s
  }

  function PoolScan(sid: int -> int, ids: map<int, nat>, s: Scan, pool: seq<Tx>): Scan
    requires Fits(ids, s)
    decreases |pool|
  {
    if |pool| == 0 then s else
      var t := PoolStep(sid, ids, s, pool[0]);
      if t.count == |ids| then t else PoolScan(sid, ids, t, pool[1..])
  }

  /** A transaction of the extra list, which may repeat one found before. */
  function ExtraStep(sid: int -> int, ids: map<int, nat>, s: Scan, tx: Tx): (t: Scan)
    requires Fits(ids, s)
    ensures Fits(ids, t) && |t.a| == |s.a|
  {
    var id := sid(tx.wtxid);
    if id !in ids then s else
      var k := ids[id];
      if s.source[k] == NoSource then
        s.(a := s.a[k := Some(tx)], source := s.source[k := Extra], count := s.count + 1, extra := s.extra + 1)
      else if s.a[k].Some? && s.a[k].value.wtxid != tx.wtxid then
        s.(a := s.a[k := None], count := s.count - 1, extra := if s.source[k] == Extra then s.extra - 1 else s.extra)
      else s
  }

  function ExtraScan(sid: int -> int, ids: map<int, nat>, s: Scan, extra: seq<Option<Tx>>): Scan
    requires Fits(ids, s)
    decreases |extra|
  {
    if |extra| == 0 then s
    else if extra[0].None? then ExtraScan(sid, ids, s, extra[1..])
    else
      var t := ExtraStep(sid, ids, s, extra[0].value);
      if t.count == |ids| then t else ExtraScan(sid, ids, t, extra[1..])
  }

  /** The short ids found, and those found in the extra list. */
  ghost function Found(ids: map<int, nat>, s: Scan): set<int>
    requires Fits(ids, s)
  {
    set x | x in ids && s.a[ids[x]].Some?
  }

  ghost function FoundExtra(ids: map<int, nat>, s: Scan): set<int>
    requires Fits(ids, s)
  {
    set x | x in ids && s.a[ids[x]].Some? && s.source[ids[x]] == Extra
  }

  /** Every slot looked up holds nothing, or a transaction of `from` with its short
      id; the others are as in `base`; the counters count what was found. */
  ghost predicate Scanned(sid: int -> int, ids: map<int, nat>, base: Slots, from: set<Tx>, count0: int, extra0: int,
                          s: Scan) {
    && Fits(ids, s) && Injective(ids) && |s.a| == |base|
    && (forall k :: 0 <= k < |base| && (forall x :: x in ids ==> ids[x] != k) ==> s.a[k] == base[k])
    && (forall x :: x in ids && s.source[ids[x]] == NoSource ==> s.a[ids[x]].None?)
    && (forall x :: x in ids && s.a[ids[x]].Some? ==> s.a[ids[x]].value in from && sid(s.a[ids[x]].value.wtxid) == x)
    && s.count == count0 + |Found(ids, s)| && s.extra == extra0 + |FoundExtra(ids, s)|
  }

  /** A change at the slot of one short id. */
  function Put(ids: map<int, nat>, s: Scan, id: int, v: Option<Tx>, w: Source, count: int, extra: int): Scan
    requires Fits(ids, s) && id in ids
  {
    Scan(s.a[ids[id] := v], s.source[ids[id] := w], count, extra)
  }

  lemma PutFrame(ids: map<int, nat>, s: Scan, id: int, v: Option<Tx>, w: Source, count: int, extra: int)
    requires Fits(ids, s) && id in ids && Injective(ids)
    ensures var t := Put(ids, s, id, v, w, count, extra);
            && Fits(ids, t)
            && (forall y :: y in ids && y != id ==> t.a[ids[y]] == s.a[ids[y]] && t.source[ids[y]] == s.source[ids[y]])
            && t.a[ids[id]] == v && t.source[ids[id]] == w
  {
  }

  lemma PutFound(ids: map<int, nat>, s: Scan, id: int, v: Option<Tx>, w: Source, count: int, extra: int)
    requires Fits(ids, s) && id in ids && Injective(ids)
    ensures var t := Put(ids, s, id, v, w, count, extra);
            && Fits(ids, t)
            && Found(ids, t) == Found(ids, s) - {id} + (if v.Some? then {id} else {})
            && FoundExtra(ids, t) == FoundExtra(ids, s) - {id} + (if v.Some? && w == Extra then {id} else {})
  {
    var t := Put(ids, s, id, v, w, count, extra);
    PutFrame(ids, s, id, v, w, count, extra);
    forall y | y in ids
      ensures y in Found(ids, t) <==> y in Found(ids, s) - {id} + (if v.Some? then {id} else {})
      ensures y in FoundExtra(ids, t) <==> y in FoundExtra(ids, s) - {id} + (if v.Some? && w == Extra then {id} else {})
    {
      if y != id { assert t.a[ids[y]] == s.a[ids[y]] && t.source[ids[y]] == s.source[ids[y]]; }
    }
  }

  lemma CardWithout(a: set<int>, x: int)
    ensures |a - {x}| == |a| - (if x in a then 1 else 0)
    ensures |a - {x} + {x}| == |a - {x}| + 1
  {
    if x in a { assert a == a - {x} + {x}; } else { assert a - {x} == a; }
  }

  lemma CardMoved(a: set<int>, x: int, b: set<int>, come: bool)
    requires b == a - {x} + (if come then {x} else {})
    ensures |b| == |a| - (if x in a then 1 else 0) + (if come then 1 else 0)
  {
    CardWithout(a, x);
    if !come { assert b == a - {x}; }
  }

  lemma PutCounts(ids: map<int, nat>, s: Scan, id: int, v: Option<Tx>, w: Source, count: int, extra: int)
    requires Fits(ids, s) && id in ids && Injective(ids)
    ensures var k, t := ids[id], Put(ids, s, id, v, w, count, extra);
            && Fits(ids, t)
            && |Found(ids, t)| == |Found(ids, s)| - (if s.a[k].Some? then 1 else 0) + (if v.Some? then 1 else 0)
            && |FoundExtra(ids, t)| == |FoundExtra(ids, s)| - (if s.a[k].Some? && s.source[k] == Extra then 1 else 0)
                                       + (if v.Some? && w == Extra then 1 else 0)
  {
    var t := Put(ids, s, id, v, w, count, extra);
    PutFound(ids, s, id, v, w, count, extra);
    CardMoved(Found(ids, s), id, Found(ids, t), v.Some?);
    CardMoved(FoundExtra(ids, s), id, FoundExtra(ids, t), v.Some? && w == Extra);
  }

  /** The counters follow. */
  lemma PutScanned(sid: int -> int, ids: map<int, nat>, base: Slots, from: set<Tx>, count0: int, extra0: int, s: Scan,
                   id: int, v: Option<Tx>, w: Source, count: int, extra: int)
    requires Scanned(sid, ids, base, from, count0, extra0, s) && id in ids && w != NoSource
    requires v.Some? ==> v.value in from && sid(v.value.wtxid) == id
    requires count == s.count - (if s.a[ids[id]].Some? then 1 else 0) + (if v.Some? then 1 else 0)
    requires extra == s.extra - (if s.a[ids[id]].Some? && s.source[ids[id]] == Extra then 1 else 0) +
             (if v.Some? && w == Extra then 1 else 0)
    ensures Scanned(sid, ids, base, from, count0, extra0, Put(ids, s, id, v, w, count, extra))
  {
    var t := Put(ids, s, id, v, w, count, extra);
    PutCounts(ids, s, id, v, w, count, extra);
    PutFrame(ids, s, id, v, w, count, extra);
    forall x | x in ids
      ensures t.source[ids[x]] == NoSource ==> t.a[ids[x]].None?
      ensures t.a[ids[x]].Some? ==> t.a[ids[x]].value in from && sid(t.a[ids[x]].value.wtxid) == x
    {
      if x != id { assert t.a[ids[x]] == s.a[ids[x]] && t.source[ids[x]] == s.source[ids[x]]; }
    }
  }

  /** While the mempool is scanned nothing comes from the extra list. */
  ghost predicate NoneExtra(s: Scan) { forall k :: 0 <= k < |s.source| ==> s.source[k] != Extra }

  lemma PoolStepKeeps(sid: int -> int, ids: map<int, nat>, base: Slots, from: set<Tx>, count0: int, extra0: int,
                      s: Scan, tx: Tx)
    requires Scanned(sid, ids, base, from, count0, extra0, s) && NoneExtra(s) && tx in from
    ensures Scanned(sid, ids, base, from, count0, extra0, PoolStep(sid, ids, s, tx)) &&
            NoneExtra(PoolStep(sid, ids, s, tx))
  {
    var id := sid(tx.wtxid);
    if id in ids {
      var k := ids[id];
      if s.source[k] == NoSource {
        PutScanned(sid, ids, base, from, count0, extra0, s, id, Some(tx), Mempool, s.count + 1, s.extra);
      } else if s.a[k].Some? {
        PutScanned(sid, ids, base, from, count0, extra0, s, id, None, s.source[k], s.count - 1, s.extra);
        assert s.source[k := s.source[k]] == s.source;
      }
    }
  }

  lemma {:induction false} PoolScanKeeps(sid: int -> int, ids: map<int, nat>, base: Slots, from: set<Tx>, count0: int,
                                         extra0: int, s: Scan, pool: seq<Tx>)
    requires Scanned(sid, ids, base, from, count0, extra0, s) && NoneExtra(s) && forall tx :: tx in pool ==> tx in from
    ensures Scanned(sid, ids, base, from, count0, extra0, PoolScan(sid, ids, s, pool))
    decreases |pool|
  {
    if |pool| > 0 {
      PoolStepKeeps(sid, ids, base, from, count0, extra0, s, pool[0]);
      var t := PoolStep(sid, ids, s, pool[0]);
      if t.count != |ids| { PoolScanKeeps(sid, ids, base, from, count0, extra0, t, pool[1..]); }
    }
  }

  lemma ExtraStepKeeps(sid: int -> int, ids: map<int, nat>, base: Slots, from: set<Tx>, count0: int, extra0: int,
                       s: Scan, tx: Tx)
    requires Scanned(sid, ids, base, from, count0, extra0, s) && tx in from
    ensures Scanned(sid, ids, base, from, count0, extra0, ExtraStep(sid, ids, s, tx))
  {
    var id := sid(tx.wtxid);
    if id in ids {
      var k := ids[id];
      if s.source[k] == NoSource {
        PutScanned(sid, ids, base, from, count0, extra0, s, id, Some(tx), Extra, s.count + 1, s.extra + 1);
      } else if s.a[k].Some? && s.a[k].value.wtxid != tx.wtxid {
        PutScanned(sid, ids, base, from, count0, extra0, s, id, None, s.source[k], s.count - 1,
                   if s.source[k] == Extra then s.extra - 1 else s.extra);
        assert s.source[k := s.source[k]] == s.source;
      }
    }
  }

  lemma {:induction false} ExtraScanKeeps(sid: int -> int, ids: map<int, nat>, base: Slots, from: set<Tx>, count0: int,
                                         extra0: int, s: Scan, extra: seq<Option<Tx>>)
    requires Scanned(sid, ids, base, from, count0, extra0, s) && forall tx :: Some(tx) in extra ==> tx in from
    ensures Scanned(sid, ids, base, from, count0, extra0, ExtraScan(sid, ids, s, extra))
    decreases |extra|
  {
    if |extra| > 0 {
      if extra[0].None? {
        ExtraScanKeeps(sid, ids, base, from, count0, extra0, s, extra[1..]);
      } else {
        assert Some(extra[0].value) in extra;
        ExtraStepKeeps(sid, ids, base, from, count0, extra0, s, extra[0].value);
        var t := ExtraStep(sid, ids, s, extra[0].value);
        if t.count != |ids| { ExtraScanKeeps(sid, ids, base, from, count0, extra0, t, extra[1..]); }
      }
    }
  }
}
