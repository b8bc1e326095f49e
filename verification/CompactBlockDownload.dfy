/**
 A block being put together from a compact block, the mempool and the
 transactions asked for.
 */
module CompactBlockDownload {
  import opened CompactBlock
  import opened Helpers

  /** Whether the short ids up to `n` are spread well enough over the buckets. */
  ghost predicate Spread(crowded: nat -> bool, n: nat) { forall i :: 0 <= i < n ==> !crowded(i) }

  predicate Malformed(m: Message) {
    m.header == 0 || (|m.shortIds| == 0 && |m.prefilled| == 0) || Entries(m) > MAX_ENTRIES
  }

  /** The answer of InitData. */
  ghost function InitStatus(unused: bool, m: Message, crowded: nat -> bool): Status {
    if Malformed(m) || !unused || PrefilledSlots(m).None? then Invalid
    else if !Spread(crowded, |m.shortIds|) || !Distinct(m.shortIds) then Failed
    else Status.Ok
  }

  /** Where the short ids of an acceptable message go. */
  ghost function IdsOf(m: Message): map<int, nat>
    requires PrefilledSlots(m).Some?
  {
    PrefilledLeave(m);
    SlotMap(m.shortIds, EmptySlots(PrefilledSlots(m).value), |m.shortIds|)
  }

  lemma {:induction false} SlotMapBelow(ids: seq<int>, e: seq<nat>, i: nat, n: nat)
    requires i <= |ids| && i <= |e| && forall j :: 0 <= j < |e| ==> e[j] < n
    ensures forall x :: x in SlotMap(ids, e, i) ==> SlotMap(ids, e, i)[x] < n
  {
    if i > 0 { SlotMapBelow(ids, e, i - 1, n); }
  }

  lemma IdsBelow(m: Message)
    requires PrefilledSlots(m).Some?
    ensures |PrefilledSlots(m).value| == Entries(m) && forall x :: x in IdsOf(m) ==> IdsOf(m)[x] < Entries(m)
  {
    PrefilledLeave(m);
    EmptySlotsFacts(PrefilledSlots(m).value);
    SlotMapBelow(m.shortIds, EmptySlots(PrefilledSlots(m).value), |m.shortIds|, Entries(m));
  }

  lemma MoreSlots(a: Slots, p: nat)
    requires p <= |a| && |EmptySlots(a[..p])| < |EmptySlots(a)|
    ensures p < |a|
  {
    assert a[..|a|] == a;
  }

  /** The transaction at `i`: the one available, or the next one of those sent. */
  ghost function FilledTx(a: Slots, missing: seq<Tx>, i: nat): Tx
    requires i < |a|
  {
    var n := |EmptySlots(a[..i])|;
    if a[i].Some? then a[i].value else if n < |missing| then missing[n] else Tx(0, true)
  }

  ghost function FilledBlock(header: nat, a: Slots, missing: seq<Tx>): Block {
    Block(header, seq(|a|, i requires 0 <= i < |a| => FilledTx(a, missing, i)))
  }

  /** The answer of FillBlock. */
  ghost function FillStatus(header: nat, a: Slots, missing: seq<Tx>, mutated: Block -> bool): Status {
    if header == 0 || |EmptySlots(a)| != |missing| then Invalid
    else if mutated(FilledBlock(header, a, missing)) then Failed
    else Status.Ok
  }

  /** The slots before `n` emptied. */
  function Emptied(a: Slots, n: nat): Slots { seq(|a|, i requires 0 <= i < |a| => if i < n then None else a[i]) }

  function NoSources(n: nat): seq<Source> { seq(n, i => NoSource) }

  /** What is known after InitData. */
  ghost function Looked(m: Message, pool: seq<Tx>, extra: seq<Option<Tx>>, count0: int, extra0: int): Scan
    requires PrefilledSlots(m).Some?
  {
    IdsBelow(m);
    var s := Scan(PrefilledSlots(m).value, NoSources(Entries(m)), count0, extra0);
    ScanBelow(m, IdsOf(m), s, pool);
    ExtraScan(m.sid, IdsOf(m), PoolScan(m.sid, IdsOf(m), s, pool), extra)
  }

  lemma {:induction false} ScanBelow(m: Message, ids: map<int, nat>, s: Scan, pool: seq<Tx>)
    requires Fits(ids, s)
    ensures Fits(ids, PoolScan(m.sid, ids, s, pool)) && |PoolScan(m.sid, ids, s, pool).a| == |s.a|
    decreases |pool|
  {
    if |pool| > 0 {
      var t := PoolStep(m.sid, ids, s, pool[0]);
      if t.count != |ids| { ScanBelow(m, ids, t, pool[1..]); }
    }
  }

  class PartialBlock {
    const pool: seq<Tx>
    var header: nat
    var txnAvailable: Slots
    var prefilledCount: int
    var mempoolCount: int
    var extraCount: int

    constructor (pool: seq<Tx>)
      ensures this.pool == pool && header == 0 && txnAvailable == [] && prefilledCount == 0 && mempoolCount == 0 &&
              extraCount == 0
    {
      this.pool := pool;
      header, txnAvailable, prefilledCount, mempoolCount, extraCount := 0, [], 0, 0, 0;
    }

    /** Put the prefilled transactions in place. */
    method Prefill(m: Message) returns (ok: bool)
      requires txnAvailable == NoSlots(Entries(m))
      modifies `txnAvailable
      ensures ok <==> PrefilledSlots(m).Some?
      ensures ok ==> txnAvailable == PrefilledSlots(m).value
      ensures txnAvailable == PrefillLeft(m, NoSlots(Entries(m)), -1, 0)
    {
      var last: int := -1;
      for i := 0 to |m.prefilled|
        invariant -1 <= last && |txnAvailable| == Entries(m)
        invariant PrefilledSlots(m) == PrefillFrom(m, txnAvailable, last, i)
        invariant PrefillLeft(m, NoSlots(Entries(m)), -1, 0) == PrefillLeft(m, txnAvailable, last, i)
      {
        if m.prefilled[i].tx.isNull { return false; }
        last := last + m.prefilled[i].index + 1;
        if last > UINT16_MAX { return false; }
        if last > |m.shortIds| + i { return false; }
        txnAvailable := txnAvailable[last := Some(m.prefilled[i].tx)];
      }
      ok := true;
    }

    /** Past the slots that are filled. */
    method SkipFilled(i: nat, before: nat) returns (offset: nat)
      requires i + before <= |txnAvailable| && |EmptySlots(txnAvailable[..i + before])| ==
               i < |EmptySlots(txnAvailable)|
      ensures i + offset < |txnAvailable| && txnAvailable[i + offset].None?
      ensures |EmptySlots(txnAvailable[..i + offset])| == i
    {
      offset := before;
      MoreSlots(txnAvailable, i + offset);
      while txnAvailable[i + offset].Some?
        invariant i + offset < |txnAvailable| && |EmptySlots(txnAvailable[..i + offset])| == i
        decreases |txnAvailable| - offset
      {
        EmptySlotsSkip(txnAvailable, i + offset);
        MoreSlots(txnAvailable, i + offset + 1);
        offset := offset + 1;
      }
    }

    /** The slot of every short id: never beyond the last slot. */
    method MapShortIds(m: Message, crowded: nat -> bool) returns (ok: bool, ids: map<int, nat>)
      requires PrefilledSlots(m).Some? && txnAvailable == PrefilledSlots(m).value && Entries(m) <= UINT16_MAX
      ensures ok <==> Spread(crowded, |m.shortIds|)
      ensures ok ==> ids == IdsOf(m)
    {
      ghost var e := EmptySlots(txnAvailable);
      PrefilledLeave(m);
      ids := map[];
      var offset := 0;
      for i := 0 to |m.shortIds|
        invariant 0 <= offset && i + offset <= |txnAvailable| && |EmptySlots(txnAvailable[..i + offset])| == i
        invariant ids == SlotMap(m.shortIds, e, i) && Spread(crowded, i)
      {
        offset := SkipFilled(i, offset);
        EmptySlotAt(txnAvailable, i + offset);
        assert i + offset <= UINT16_MAX;
        ids := ids[m.shortIds[i] := i + offset];
        if crowded(i) { return false, ids; }
        assert txnAvailable[..i + 1 + offset][..i + offset] == txnAvailable[..i + offset];
      }
      ok := true;
    }

    method ScanPool(m: Message, ids: map<int, nat>, s0: Scan) returns (s: Scan)
      requires Fits(ids, s0)
      ensures s == PoolScan(m.sid, ids, s0, pool)
    {
      s := s0;
      for i := 0 to |pool|
        invariant Fits(ids, s) && PoolScan(m.sid, ids, s0, pool) == PoolScan(m.sid, ids, s, pool[i..])
      {
        s := PoolStep(m.sid, ids, s, pool[i]);
        assert pool[i..][0] == pool[i] && pool[i..][1..] == pool[i + 1..];
        if s.count == |ids| { return; }
      }
    }

    method ScanExtra(m: Message, ids: map<int, nat>, s0: Scan, extra: seq<Option<Tx>>) returns (s: Scan)
      requires Fits(ids, s0)
      ensures s == ExtraScan(m.sid, ids, s0, extra)
    {
      s := s0;
      for i := 0 to |extra|
        invariant Fits(ids, s) && ExtraScan(m.sid, ids, s0, extra) == ExtraScan(m.sid, ids, s, extra[i..])
      {
        assert extra[i..][0] == extra[i] && extra[i..][1..] == extra[i + 1..];
        if extra[i].None? { continue; }
        s := ExtraStep(m.sid, ids, s, extra[i].value);
        if s.count == |ids| { return; }
      }
    }

    method InitData(m: Message, extra: seq<Option<Tx>>, crowded: nat -> bool) returns (status: Status)
      requires Entries(m) <= UINT16_MAX
      modifies this
      ensures status == InitStatus(old(header) == 0 && old(txnAvailable) == [], m, crowded)
      ensures status == Status.Ok ==>
                && PrefilledSlots(m).Some? && header == m.header && prefilledCount == |m.prefilled|
                && var s := Looked(m, pool, extra, old(mempoolCount), old(extraCount));
                   txnAvailable == s.a && mempoolCount == s.count && extraCount == s.extra
      ensures Malformed(m) || old(header) != 0 || old(txnAvailable) != [] ==> unchanged(this)
      ensures status != Status.Ok ==> mempoolCount == old(mempoolCount) && extraCount == old(extraCount)
      ensures status == Failed ==>
                && PrefilledSlots(m).Some? && header == m.header && prefilledCount == |m.prefilled|
                && txnAvailable == PrefilledSlots(m).value
      ensures !Malformed(m) && old(header) == 0 && old(txnAvailable) == [] && status == Invalid ==>
                && header == m.header && prefilledCount == old(prefilledCount)
                && txnAvailable == PrefillLeft(m, NoSlots(Entries(m)), -1, 0)
    {
      if m.header == 0 || (|m.shortIds| == 0 && |m.prefilled| == 0) { return Invalid; }
      if |m.shortIds| + |m.prefilled| > MAX_ENTRIES { return Invalid; }
      if header != 0 || txnAvailable != [] { return Invalid; }
      header := m.header;
      txnAvailable := NoSlots(Entries(m));
      var filled := Prefill(m);
      if !filled { return Invalid; }
      prefilledCount := |m.prefilled|;
      var spread, ids := MapShortIds(m, crowded);
      if !spread { return Failed; }
      PrefilledLeave(m);
      SlotMapSize(m.shortIds, EmptySlots(txnAvailable), |m.shortIds|);
      assert m.shortIds[..|m.shortIds|] == m.shortIds;
      if |ids| != |m.shortIds| { return Failed; }
      IdsBelow(m);
      var s := Scan(txnAvailable, NoSources(|txnAvailable|), mempoolCount, extraCount);
      ScanBelow(m, ids, s, pool);
      s := ScanPool(m, ids, s);
      s := ScanExtra(m, ids, s, extra);
      txnAvailable, mempoolCount, extraCount := s.a, s.count, s.extra;
      status := Status.Ok;
    }
  
    /** Whether the transaction at `index` need not be asked for. */
    method IsTxAvailable(index: nat) returns (available: bool)
      requires header != 0 ==> index < |txnAvailable|
      ensures available <==> header != 0 && index !in EmptySlots(txnAvailable)
    {
      EmptySlotsFacts(txnAvailable);
      available := header != 0 && txnAvailable[index].Some?;
    }

    /** The transactions to ask for: as many as FillBlock takes, in the order it takes them. */
    method RequestIndexes() returns (indexes: seq<nat>)
      requires header != 0
      ensures indexes == EmptySlots(txnAvailable)
    {
      indexes := [];
      EmptySlotsFacts(txnAvailable);
      for i := 0 to |txnAvailable|
        invariant indexes == EmptySlots(txnAvailable[..i])
      {
        var available := IsTxAvailable(i);
        assert txnAvailable[..i + 1][..i] == txnAvailable[..i];
        if !available { indexes := indexes + [i]; }
      }
      assert txnAvailable[..|txnAvailable|] == txnAvailable;
    }

    /** The transactions in order, unless too few were sent; the slots are emptied
        as they are used. */
    method Assemble(missing: seq<Tx>) returns (enough: bool, vtx: seq<Tx>, used: nat)
      modifies `txnAvailable
      ensures enough <==> |EmptySlots(old(txnAvailable))| <= |missing|
      ensures enough ==>
                used == |EmptySlots(old(txnAvailable))| && vtx == FilledBlock(header, old(txnAvailable), missing).vtx
      ensures !enough ==> txnAvailable == Emptied(old(txnAvailable), EmptySlots(old(txnAvailable))[|missing|])
    {
      ghost var a := txnAvailable;
      used, vtx := 0, [];
      for i := 0 to |txnAvailable|
        invariant txnAvailable == Emptied(a, i)
        invariant |vtx| == i && used == |EmptySlots(a[..i])| <= |missing|
        invariant forall k :: 0 <= k < i ==> vtx[k] == FilledTx(a, missing, k)
      {
        assert a[..i + 1][..i] == a[..i];
        if txnAvailable[i].None? {
          EmptySlotAt(a, i);
          if |missing| <= used { return false, vtx, used; }
          vtx := vtx + [missing[used]];
          used := used + 1;
        } else {
          vtx := vtx + [txnAvailable[i].value];
          txnAvailable := txnAvailable[i := None];
        }
      }
      assert a[..|a|] == a;
      enough := true;
    }

    method FillBlock(missing: seq<Tx>, mutated: Block -> bool) returns (status: Status, block: Block)
      modifies this
      ensures status == FillStatus(old(header), old(txnAvailable), missing, mutated)
      ensures status == Invalid <==> old(header) == 0 || |missing| != |EmptySlots(old(txnAvailable))|
      ensures status == Status.Ok ==> !mutated(block)
      ensures status == Status.Ok ==> block == FilledBlock(old(header), old(txnAvailable), missing)
      ensures old(header) != 0 && |EmptySlots(old(txnAvailable))| <= |missing| ==> header == 0 && txnAvailable == []
      ensures old(header) != 0 && |EmptySlots(old(txnAvailable))| > |missing| ==>
                && header == old(header)
                && txnAvailable == Emptied(old(txnAvailable), EmptySlots(old(txnAvailable))[|missing|])
      ensures old(header) == 0 ==> unchanged(this)
    {
      block := Block(header, []);
      if header == 0 { return Invalid, block; }
      var enough, vtx, used := Assemble(missing);
      block := block.(vtx := vtx);
      if !enough { return Invalid, block; }
      header, txnAvailable := 0, [];
      if |missing| != used { return Invalid, block; }
      if mutated(block) { return Failed, block; }
      status := Status.Ok;
    }
  }
}
