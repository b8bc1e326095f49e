/**
 Packing transactions, in their order, into blocks with a weight and a sigop limit.
 */
module BlockPack {
  datatype Result<T> = Ok(value: T) | Err(error: Error)

  datatype Error =
    | TooHeavy(index: int) | TooManySigops(index: int)
    | RpcFailed | NotAuthoritative | FeeTooLarge | WrongAmount | NoConvergence | NoInputs | InputReused
    | BadDestinations | NotWritten

  /** A transaction as far as packing goes. */
  datatype Load = Load(index: int, weight: nat, sigops: nat)

  datatype Block = Block(index: nat, transactions: seq<int>, weight: nat, sigops: nat)

  datatype Limits = Limits(weight: int, sigops: int)

  // ----- what a packing is

  function Weight(txs: seq<Load>, a: nat, b: nat): nat
    requires a <= b <= |txs|
  {
    if a == b then 0 else Weight(txs, a, b - 1) + txs[b - 1].weight
  }

  function Sigops(txs: seq<Load>, a: nat, b: nat): nat
    requires a <= b <= |txs|
  {
    if a == b then 0 else Sigops(txs, a, b - 1) + txs[b - 1].sigops
  }

  predicate Fits(txs: seq<Load>, lim: Limits, a: nat, b: nat)
    requires a <= b <= |txs|
  {
    Weight(txs, a, b) <= lim.weight && Sigops(txs, a, b) <= lim.sigops
  }

  function StartOf(ends: seq<nat>, k: nat): nat
    requires k <= |ends|
  {
    if k == 0 then 0 else ends[k - 1]
  }

  /** Blocks end at these places: they are not empty, follow on one another, and fit. */
  ghost predicate IsPacking(txs: seq<Load>, lim: Limits, ends: seq<nat>) {
    && (forall k :: 0 <= k < |ends| ==> IsBlock(txs, lim, ends, k))
    && StartOf(ends, |ends|) == |txs|
  }

  ghost predicate IsBlock(txs: seq<Load>, lim: Limits, ends: seq<nat>, k: nat) {
    k < |ends| && StartOf(ends, k) < ends[k] <= |txs| && Fits(txs, lim, StartOf(ends, k), ends[k])
  }

  /** Each block but the last had no room for the next transaction. */
  ghost predicate IsFull(txs: seq<Load>, lim: Limits, ends: seq<nat>, k: nat) {
    k < |ends| && StartOf(ends, k) <= ends[k] < |txs| && !Fits(txs, lim, StartOf(ends, k), ends[k] + 1)
  }

  // ----- fewest blocks

  lemma {:induction false} SumsGrow(txs: seq<Load>, a: nat, b: nat, c: nat, d: nat)
    requires a <= b <= c <= d <= |txs|
    ensures Weight(txs, b, c) <= Weight(txs, a, d) && Sigops(txs, b, c) <= Sigops(txs, a, d)
    decreases d
  {
    if d > c {
      SumsGrow(txs, a, b, c, d - 1);
    } else if c > b {
      SumsGrow(txs, a, b, c - 1, d - 1);
    }
  }

  /** No packing is ever ahead of full blocks. */
  lemma {:induction false} NeverAhead(txs: seq<Load>, lim: Limits, full: seq<nat>, ends: seq<nat>, k: nat)
    requires k <= |full| && k <= |ends|
    requires forall j :: 0 <= j < k ==> IsFull(txs, lim, full, j)
    requires IsPacking(txs, lim, ends)
    ensures StartOf(ends, k) <= StartOf(full, k) <= |txs|
  {
    if k > 0 {
      NeverAhead(txs, lim, full, ends, k - 1);
      assert IsFull(txs, lim, full, k - 1) && IsBlock(txs, lim, ends, k - 1);
      if ends[k - 1] > full[k - 1] {
        SumsGrow(txs, StartOf(ends, k - 1), StartOf(full, k - 1), full[k - 1] + 1, ends[k - 1]);
      }
    }
  }

  /** A packing whose blocks are full, except the last, has the fewest blocks. */
  lemma Fewest(txs: seq<Load>, lim: Limits, full: seq<nat>, ends: seq<nat>)
    requires IsPacking(txs, lim, full) && IsPacking(txs, lim, ends)
    requires forall j :: 0 <= j < |full| - 1 ==> IsFull(txs, lim, full, j)
    ensures |full| <= |ends|
  {
    assert |ends| < |full| ==> IsBlock(txs, lim, full, |ends|);
    if |ends| < |full| { NeverAhead(txs, lim, full, ends, |ends|); }
  }

  // ----- packing

  function IndexesOf(txs: seq<Load>, a: nat, b: nat): (r: seq<int>)
    requires a <= b <= |txs|
    ensures |r| == b - a
  {
    seq(b - a, i requires 0 <= i < b - a => txs[a + i].index)
  }

  /** The record of a block agrees with its place. */
  ghost predicate Describes(txs: seq<Load>, ends: seq<nat>, k: nat, block: Block) {
    && k < |ends| && StartOf(ends, k) <= ends[k] <= |txs|
    && block == Block(k, IndexesOf(txs, StartOf(ends, k), ends[k]), Weight(txs, StartOf(ends, k), ends[k]),
        Sigops(txs, StartOf(ends, k), ends[k]))
  }

  predicate TooLarge(t: Load, lim: Limits) { t.weight > lim.weight || t.sigops > lim.sigops }

  /** Some block has every transaction. */
  lemma {:induction false} InSomeBlock(txs: seq<Load>, lim: Limits, ends: seq<nat>, n: nat, i: nat) returns (k: nat)
    requires IsPacking(txs, lim, ends) && n <= |ends| && i < StartOf(ends, n)
    ensures k < |ends| && StartOf(ends, k) <= i < ends[k]
  {
    if i >= StartOf(ends, n - 1) { k := n - 1; } else { k := InSomeBlock(txs, lim, ends, n - 1, i); }
  }

  /** A transaction that is too large by itself fits in no block. */
  lemma NoPacking(txs: seq<Load>, lim: Limits, i: nat)
    requires i < |txs| && TooLarge(txs[i], lim)
    ensures forall ends :: !IsPacking(txs, lim, ends)
  {
    assert Weight(txs, i, i) == 0 && Sigops(txs, i, i) == 0;
    assert Weight(txs, i, i + 1) == txs[i].weight && Sigops(txs, i, i + 1) == txs[i].sigops;
    forall ends ensures !IsPacking(txs, lim, ends) {
      if IsPacking(txs, lim, ends) {
        var k := InSomeBlock(txs, lim, ends, |ends|, i);
        assert IsBlock(txs, lim, ends, k);
        SumsGrow(txs, StartOf(ends, k), i, i + 1, ends[k]);
      }
    }
  }

  /** The transactions of a block are placed in it. */
  ghost predicate Placed(ends: seq<nat>, places: seq<nat>, k: nat) {
    k < |ends| && ends[k] <= |places| && forall j :: StartOf(ends, k) <= j < ends[k] ==> places[j] == k
  }

  ghost predicate Closed(txs: seq<Load>, lim: Limits, ends: seq<nat>, places: seq<nat>, blocks: seq<Block>, k: nat) {
    && k < |blocks| && IsBlock(txs, lim, ends, k) && Describes(txs, ends, k, blocks[k]) && Placed(ends, places, k)
  }

  /** The blocks closed so far, and the open one from `start` to `i`. */
  ghost predicate Packed(txs: seq<Load>, lim: Limits, i: nat, ends: seq<nat>, blocks: seq<Block>, places: seq<nat>,
                         start: nat) {
    && i <= |txs| && |blocks| == |ends| && |places| == i && start == StartOf(ends, |ends|) <= i
    && (forall k :: 0 <= k < |ends| ==> Closed(txs, lim, ends, places, blocks, k))
    && (forall k :: 0 <= k < |ends| ==> IsFull(txs, lim, ends, k))
    && (forall j :: start <= j < i ==> places[j] == |ends|)
    && (start < i ==> Fits(txs, lim, start, i)) && (start == i ==> i == 0)
  }

  lemma ClosedStays(txs: seq<Load>, lim: Limits, ends: seq<nat>, places: seq<nat>, blocks: seq<Block>, k: nat,
                    ends': seq<nat>, places': seq<nat>, blocks': seq<Block>)
    requires Closed(txs, lim, ends, places, blocks, k) && ends <= ends' && places <= places' && blocks <= blocks'
    ensures Closed(txs, lim, ends', places', blocks', k)
  {
    assert StartOf(ends', k) == StartOf(ends, k) && ends'[k] == ends[k];
    assert Placed(ends', places', k);
  }

  lemma FullStays(txs: seq<Load>, lim: Limits, ends: seq<nat>, k: nat, ends': seq<nat>)
    requires IsFull(txs, lim, ends, k) && ends <= ends'
    ensures IsFull(txs, lim, ends', k)
  {
    assert StartOf(ends', k) == StartOf(ends, k) && ends'[k] == ends[k];
  }

  lemma PlaceMore(txs: seq<Load>, lim: Limits, i: nat, ends: seq<nat>, blocks: seq<Block>, places: seq<nat>, start: nat)
    requires Packed(txs, lim, i, ends, blocks, places, start) && i < |txs| && Fits(txs, lim, start, i + 1)
    ensures Packed(txs, lim, i + 1, ends, blocks, places + [|ends|], start)
  {
    forall k | 0 <= k < |ends| ensures Closed(txs, lim, ends, places + [|ends|], blocks, k) {
      ClosedStays(txs, lim, ends, places, blocks, k, ends, places + [|ends|], blocks);
    }
  }

  /** The open block, closed at `i`. */
  lemma CloseBlock(txs: seq<Load>, lim: Limits, i: nat, ends: seq<nat>, blocks: seq<Block>, places: seq<nat>,
                   start: nat, block: Block)
    requires Packed(txs, lim, i, ends, blocks, places, start) && start < i
    requires Describes(txs, ends + [i], |ends|, block)
    ensures forall k :: 0 <= k < |ends| + 1 ==> Closed(txs, lim, ends + [i], places, blocks + [block], k)
    ensures forall k :: 0 <= k < |ends| ==> IsFull(txs, lim, ends + [i], k)
    ensures i < |txs| && !Fits(txs, lim, start, i + 1) ==> IsFull(txs, lim, ends + [i], |ends|)
  {
    var more := ends + [i];
    assert StartOf(more, |ends|) == start;
    forall k | 0 <= k < |ends| + 1 ensures Closed(txs, lim, more, places, blocks + [block], k) {
      if k < |ends| {
        ClosedStays(txs, lim, ends, places, blocks, k, more, places, blocks + [block]);
      } else {
        assert IsBlock(txs, lim, more, k) && Placed(more, places, k);
      }
    }
    forall k | 0 <= k < |ends| ensures IsFull(txs, lim, more, k) { FullStays(txs, lim, ends, k, more); }
  }

  /** Closing a block that has no room, and opening one. */
  lemma OpenBlock(txs: seq<Load>, lim: Limits, i: nat, ends: seq<nat>, blocks: seq<Block>, places: seq<nat>,
                  start: nat, block: Block)
    requires Packed(txs, lim, i, ends, blocks, places, start) && start < i < |txs| && !Fits(txs, lim, start, i + 1)
    requires !TooLarge(txs[i], lim) && Describes(txs, ends + [i], |ends|, block)
    ensures Packed(txs, lim, i + 1, ends + [i], blocks + [block], places + [|ends| + 1], i)
  {
    CloseBlock(txs, lim, i, ends, blocks, places, start, block);
    var more, next := ends + [i], places + [|ends| + 1];
    forall k | 0 <= k < |more| ensures Closed(txs, lim, more, next, blocks + [block], k) {
      ClosedStays(txs, lim, more, places, blocks + [block], k, more, next, blocks + [block]);
    }
    assert Weight(txs, i, i) == 0 && Sigops(txs, i, i) == 0;
    assert StartOf(more, |more|) == i;
  }

  /** A packing, with its records: which block each transaction is in, and the blocks. */
  ghost predicate Records(txs: seq<Load>, lim: Limits, ends: seq<nat>, places: seq<nat>, blocks: seq<Block>) {
    && IsPacking(txs, lim, ends) && |blocks| == |ends| && |places| == |txs|
    && (forall k :: 0 <= k < |ends| ==> Describes(txs, ends, k, blocks[k]))
    && (forall k :: 0 <= k < |ends| ==> Placed(ends, places, k))
  }

  ghost predicate IsFewest(txs: seq<Load>, lim: Limits, n: nat) {
    forall other :: IsPacking(txs, lim, other) ==> n <= |other|
  }

  lemma Finished(txs: seq<Load>, lim: Limits, ends: seq<nat>, blocks: seq<Block>, places: seq<nat>, start: nat,
                 block: Block)
    requires Packed(txs, lim, |txs|, ends, blocks, places, start) && start < |txs| &&
             Describes(txs, ends + [|txs|], |ends|, block)
    ensures Records(txs, lim, ends + [|txs|], places, blocks + [block])
    ensures IsFewest(txs, lim, |ends| + 1)
  {
    var more := ends + [|txs|];
    CloseBlock(txs, lim, |txs|, ends, blocks, places, start, block);
    forall k | 0 <= k < |more|
      ensures IsBlock(txs, lim, more, k) && Describes(txs, more, k, (blocks + [block])[k]) && Placed(more, places, k)
    {
      assert Closed(txs, lim, more, places, blocks + [block], k);
    }
    forall other | IsPacking(txs, lim, other) ensures |ends| + 1 <= |other| { Fewest(txs, lim, more, other); }
  }

  /** Packs greedily. It fails exactly if some transaction fits in no block, and then says
      which is the first; otherwise the blocks are a packing, of the fewest blocks. */
  method Pack(txs: seq<Load>, lim: Limits) returns (r: Result<(seq<nat>, seq<Block>)>, ghost ends: seq<nat>)
    ensures r.Ok? <==> forall i :: 0 <= i < |txs| ==> !TooLarge(txs[i], lim)
    ensures r.Err? ==>
              exists i :: 0 <= i < |txs| && TooLarge(txs[i], lim) &&
                (forall j :: 0 <= j < i ==> !TooLarge(txs[j], lim)) &&
                r.error == if txs[i].weight > lim.weight then TooHeavy(txs[i].index) else TooManySigops(txs[i].index)
    ensures r.Err? ==> forall other :: !IsPacking(txs, lim, other)
    ensures r.Ok? ==> Records(txs, lim, ends, r.value.0, r.value.1)
    ensures r.Ok? ==> IsFewest(txs, lim, |r.value.1|)
  {
    var blocks, places: seq<nat> := [], [];
    var weight: nat, sigops: nat, indexes, index := 0, 0, [], 0;
    ends := [];
    ghost var start := 0;
    for i := 0 to |txs|
      invariant Packed(txs, lim, i, ends, blocks, places, start)
      invariant forall j :: 0 <= j < i ==> !TooLarge(txs[j], lim)
      invariant index == |ends| && indexes == IndexesOf(txs, start, i)
      invariant weight == Weight(txs, start, i) && sigops == Sigops(txs, start, i)
    {
      var t := txs[i];
      if TooLarge(t, lim) { NoPacking(txs, lim, i); }
      if t.weight > lim.weight { return Err(TooHeavy(t.index)), ends; }
      if t.sigops > lim.sigops { return Err(TooManySigops(t.index)), ends; }
      if |indexes| > 0 && (weight + t.weight > lim.weight || sigops + t.sigops > lim.sigops) {
        var block := Block(index, indexes, weight, sigops);
        OpenBlock(txs, lim, i, ends, blocks, places, start, block);
        blocks, ends, start := blocks + [block], ends + [i], i;
        index := index + 1;
        indexes, weight, sigops := [], 0, 0;
      } else {
        PlaceMore(txs, lim, i, ends, blocks, places, start);
      }
      places := places + [index];
      indexes := indexes + [t.index];
      weight := weight + t.weight;
      sigops := sigops + t.sigops;
    }
    if |indexes| > 0 {
      var block := Block(index, indexes, weight, sigops);
      Finished(txs, lim, ends, blocks, places, start, block);
      blocks, ends := blocks + [block], ends + [|txs|];
    } else {
      assert |ends| > 0 ==> Closed(txs, lim, ends, places, blocks, |ends| - 1);
      assert |ends| == 0;
    }
    r := Ok((places, blocks));
  }
}
