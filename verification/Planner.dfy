/**
 Planning a shielded transfer: for each destination, funded transactions until the whole
 amount is covered, then packed into blocks. Amounts are whole numbers of 10^-8. What the
 wallet answers to its n-th call is any function.
 */
module Planner {
  import opened BlockPack
  import opened Helpers

  type Input = (string, int)

  datatype Destination = Destination(address: string, amount: int)

  datatype Preview = Preview(gross: int, amount: int, fee: int)

  /** The answer to a request for a funded transaction, with the inputs of its PSBT. */
  datatype Funded = Funded(authoritative: bool, requiredFee: int, fee: int, shielded: int, inputs: seq<Input>,
      vsize: nat, sigops: nat)

  /** The wallet; `None` is an error from it. */
  datatype Wallet = Wallet(
    preview: (nat, string, int) -> Option<Preview>,
    fund: (nat, string, int, int) -> Option<Funded>,
    lock: (nat, seq<Input>) -> bool,
    unlock: (nat, seq<Input>) -> bool)

  datatype Planned = Planned(index: int, destination: nat, address: string, shielded: int, fee: int,
      inputs: seq<Input>, vsize: nat, sigops: nat)

  datatype Settings = Settings(limits: Limits, keepLocks: bool, unlockOnFailure: bool, writable: bool)

  datatype Bundle = Bundle(transactions: seq<Planned>, places: seq<nat>, blocks: seq<Block>, total: int, fees: int)

  const ROUNDS: int := 6
  const MAX_DESTINATIONS: int := 10

  function Min(a: int, b: int): int { if a <= b then a else b }

  // ----- one transaction

  /** Asks until the fee is the required one and the amount is what is left of the gross
      amount after it. */
  method FundChunk(w: Wallet, time: nat, address: string, remaining: int, preview: Preview)
    returns (r: Result<(Funded, int, int)>, later: nat, ghost asked: nat)
    ensures time < later <= time + ROUNDS
    ensures r.Ok? ==> var (funded, amount, fee) := r.value;
              && funded.authoritative && funded.requiredFee == fee && funded.fee == fee && funded.shielded == amount
              && amount == Min(remaining, preview.gross - fee) && preview.gross - fee > 0
              && time <= asked < later && w.fund(asked, address, amount, fee) == Some(funded)
  {
    asked := time;
    var requested, fee := Min(remaining, preview.amount), preview.fee;
    later := time;
    for round := 0 to ROUNDS
      invariant later == time + round
    {
      var answer := w.fund(later, address, requested, fee);
      later := later + 1;
      if answer.None? { return Err(RpcFailed), later, asked; }
      var funded := answer.value;
      if !funded.authoritative { return Err(NotAuthoritative), later, asked; }
      var most := preview.gross - funded.requiredFee;
      if most <= 0 { return Err(FeeTooLarge), later, asked; }
      var adjusted := Min(remaining, most);
      if adjusted == requested && funded.requiredFee == fee && funded.fee == fee {
        if funded.shielded != adjusted { return Err(WrongAmount), later, asked; }
        return Ok((funded, adjusted, fee)), later, later - 1;
      }
      requested, fee := adjusted, funded.requiredFee;
    }
    r := Err(NoConvergence);
  }

  // ----- sums over a plan

  function Total(txs: seq<Planned>): int {
    if |txs| == 0 then 0 else Total(txs[..|txs| - 1]) + txs[|txs| - 1].shielded
  }

  function Fees(txs: seq<Planned>): int {
    if |txs| == 0 then 0 else Fees(txs[..|txs| - 1]) + txs[|txs| - 1].fee
  }

  /** What goes to one destination. */
  function Share(txs: seq<Planned>, d: nat): int {
    if |txs| == 0 then 0
    else Share(txs[..|txs| - 1], d) + if txs[|txs| - 1].destination == d then txs[|txs| - 1].shielded else 0
  }

  function Requested(ds: seq<Destination>): int {
    if |ds| == 0 then 0 else Requested(ds[..|ds| - 1]) + ds[|ds| - 1].amount
  }

  function InputsOf(txs: seq<Planned>): seq<Input> {
    if |txs| == 0 then [] else InputsOf(txs[..|txs| - 1]) + txs[|txs| - 1].inputs
  }

  lemma Snoc(txs: seq<Planned>, t: Planned)
    ensures var more := txs + [t];
            && Total(more) == Total(txs) + t.shielded && Fees(more) == Fees(txs) + t.fee &&
                InputsOf(more) == InputsOf(txs) + t.inputs
  {
    var more := txs + [t];
    assert more[..|txs|] == txs;
  }

  lemma SnocShare(txs: seq<Planned>, t: Planned, d: nat)
    ensures Share(txs + [t], d) == Share(txs, d) + if t.destination == d then t.shielded else 0
  {
    assert (txs + [t])[..|txs|] == txs;
  }

  // ----- the plan

  /** Every transaction has its place as index, a positive amount, inputs, and belongs to a
      destination so far. */
  ghost predicate Sound(txs: seq<Planned>, n: nat) {
    forall i :: 0 <= i < |txs| ==>
      txs[i].index == i && txs[i].shielded > 0 && |txs[i].inputs| > 0 && txs[i].destination < n
  }

  /** Each destination before the n-th gets exactly its amount. */
  ghost predicate Paid(txs: seq<Planned>, ds: seq<Destination>, n: nat) {
    n <= |ds| && (forall d :: 0 <= d < n ==> Share(txs, d) == ds[d].amount) && Total(txs) == Requested(ds[..n])
  }

  /** An answer of the wallet with the amount and the fee it was asked for, at a fee that it
      vouches for. */
  ghost predicate IsAnswer(w: Wallet, t: Planned, time: nat, f: Funded) {
    && w.fund(time, t.address, t.shielded, t.fee) == Some(f) && f.authoritative
    && f.requiredFee == t.fee == f.fee && f.shielded == t.shielded
    && f.inputs == t.inputs && f.vsize == t.vsize && f.sigops == t.sigops
  }

  ghost predicate IsBacked(w: Wallet, t: Planned) { exists time, f :: IsAnswer(w, t, time, f) }

  /** Every transaction is such an answer. */
  ghost predicate Backed(w: Wallet, txs: seq<Planned>) {
    forall i :: 0 <= i < |txs| ==> IsBacked(w, txs[i])
  }

  lemma BackedMore(w: Wallet, txs: seq<Planned>, t: Planned, time: nat, f: Funded)
    requires Backed(w, txs) && IsAnswer(w, t, time, f)
    ensures Backed(w, txs + [t])
  {
    assert IsBacked(w, t);
  }

  /** The transactions for one destination. What is left strictly decreases; in the end
      nothing is. `locked` grows with every transaction. */
  method PlanDestination(w: Wallet, time: nat, d: nat, dest: Destination, txs: seq<Planned>, locked: seq<Input>)
    returns (error: Option<Error>, later: nat, more: seq<Planned>, held: seq<Input>)
    requires dest.amount > 0 && Sound(txs, d) && locked == InputsOf(txs) && Backed(w, txs)
    ensures held == InputsOf(more) && txs <= more && later >= time
    ensures Sound(more, d + 1) && Backed(w, more)
    ensures forall i :: |txs| <= i < |more| ==> more[i].destination == d && more[i].address == dest.address
    ensures error.None? ==> Total(more) == Total(txs) + dest.amount
    ensures error.None? ==> forall k :: Share(more, k) == Share(txs, k) + if k == d then dest.amount else 0
    ensures error.Some? ==> Share(more, d) < Share(txs, d) + dest.amount && forall k :: k != d ==>
            Share(more, k) == Share(txs, k)
  {
    var remaining := dest.amount;
    more, held, later := txs, locked, time;
    while remaining > 0
      invariant 0 <= remaining && held == InputsOf(more) && txs <= more && later >= time
      invariant Sound(more, d + 1) && Backed(w, more)
      invariant forall i :: |txs| <= i < |more| ==> more[i].destination == d && more[i].address == dest.address
      invariant Total(more) == Total(txs) + dest.amount - remaining
      invariant forall k :: Share(more, k) == Share(txs, k) + if k == d then dest.amount - remaining else 0
      decreases remaining
    {
      var preview := w.preview(later, dest.address, remaining);
      later := later + 1;
      if preview.None? { return Some(RpcFailed), later, more, held; }
      var funded;
      ghost var asked;
      funded, later, asked := FundChunk(w, later, dest.address, remaining, preview.value);
      if funded.Err? { return Some(funded.error), later, more, held; }
      var (f, amount, fee) := funded.value;
      if |f.inputs| == 0 { return Some(NoInputs), later, more, held; }
      if !w.lock(later, f.inputs) { return Some(RpcFailed), later + 1, more, held; }
      later := later + 1;
      var t := Planned(|more|, d, dest.address, amount, fee, f.inputs, f.vsize, f.sigops);
      Snoc(more, t);
      forall k ensures Share(more + [t], k) == Share(more, k) + if t.destination == k then t.shielded
          else 0 { SnocShare(more, t, k); }
      BackedMore(w, more, t, asked, f);
      held := held + f.inputs;
      more := more + [t];
      remaining := remaining - amount;
    }
    error := None;
  }

  /** No input twice, in one transaction or in two. */
  method CheckInputs(txs: seq<Planned>) returns (ok: bool)
    ensures ok <==> Distinct(InputsOf(txs))
  {
    var seen: set<Input> := {};
    ghost var all: seq<Input> := [];
    for i := 0 to |txs|
      invariant all == InputsOf(txs[..i]) && Distinct(all) && forall x :: x in seen <==> x in all
    {
      assert txs[..i + 1][..i] == txs[..i];
      ghost var before := all;
      for j := 0 to |txs[i].inputs|
        invariant all == before + txs[i].inputs[..j] && Distinct(all) && forall x :: x in seen <==> x in all
      {
        var x := txs[i].inputs[j];
        if x in seen {
          Repeats(before, txs[i].inputs, j);
          PrefixDistinct(txs, i + 1);
          return false;
        }
        seen := seen + {x};
        all := all + [x];
        assert txs[i].inputs[..j + 1] == txs[i].inputs[..j] + [x];
      }
      assert txs[i].inputs[..|txs[i].inputs|] == txs[i].inputs;
    }
    assert txs[..|txs|] == txs;
    ok := true;
  }

  lemma Repeats(before: seq<Input>, inputs: seq<Input>, j: nat)
    requires j < |inputs| && inputs[j] in before + inputs[..j]
    ensures !Distinct(before + inputs)
  {
    var all := before + inputs;
    assert all[..|before| + j] == before + inputs[..j];
    var i :| 0 <= i < |before| + j && all[i] == inputs[j];
    assert all[|before| + j] == inputs[j];
  }

  lemma {:induction false} PrefixDistinct(txs: seq<Planned>, n: nat)
    requires n <= |txs| && !Distinct(InputsOf(txs[..n]))
    ensures !Distinct(InputsOf(txs))
    decreases |txs| - n
  {
    if n == |txs| {
      assert txs[..n] == txs;
    } else {
      assert txs[..n + 1][..n] == txs[..n];
      var a, b := InputsOf(txs[..n]), InputsOf(txs[..n + 1]);
      var i, j :| 0 <= i < j < |a| && a[i] == a[j];
      assert b[i] == a[i] && b[j] == a[j];
      PrefixDistinct(txs, n + 1);
    }
  }

  function Loads(txs: seq<Planned>): (r: seq<Load>)
    ensures |r| == |txs|
    ensures forall i :: 0 <= i < |txs| ==> r[i].weight == txs[i].vsize && r[i].sigops == txs[i].sigops
  {
    seq(|txs|, i requires 0 <= i < |txs| => Load(txs[i].index, txs[i].vsize, txs[i].sigops))
  }

  /** The destinations before the n-th are paid, the n-th is not yet and no other is begun. */
  ghost predicate PaidUpTo(txs: seq<Planned>, ds: seq<Destination>, n: nat) {
    && n < |ds| && (forall d :: 0 <= d < n ==> Share(txs, d) == ds[d].amount)
    && Share(txs, n) < ds[n].amount && forall k :: k > n ==> Share(txs, k) == 0
  }

  /** All destinations, one after the other. */
  method PlanAll(w: Wallet, ds: seq<Destination>)
    returns (error: Option<Error>, time: nat, txs: seq<Planned>, locked: seq<Input>)
    requires forall d :: 0 <= d < |ds| ==> ds[d].amount > 0
    ensures locked == InputsOf(txs) && Backed(w, txs)
    ensures error.None? ==> Sound(txs, |ds|) && Paid(txs, ds, |ds|)
    ensures error.Some? ==> exists n :: 0 <= n && PaidUpTo(txs, ds, n) && Sound(txs, n + 1)
  {
    time, txs, locked := 0, [], [];
    for d := 0 to |ds|
      invariant locked == InputsOf(txs) && Sound(txs, d) && Paid(txs, ds, d) && Backed(w, txs)
      invariant forall k :: k >= d ==> Share(txs, k) == 0
    {
      assert ds[..d + 1][..d] == ds[..d];
      error, time, txs, locked := PlanDestination(w, time, d, ds[d], txs, locked);
      if error.Some? {
        assert PaidUpTo(txs, ds, d);
        return;
      }
    }
    error := None;
  }

  /** What a bundle is good for: it pays every destination exactly, uses no input twice, and is
      packed into the fewest blocks. */
  ghost predicate Good(b: Bundle, ds: seq<Destination>, limits: Limits, ends: seq<nat>) {
    && Sound(b.transactions, |ds|) && Paid(b.transactions, ds, |ds|)
    && b.total == Requested(ds) && b.fees == Fees(b.transactions)
    && Distinct(InputsOf(b.transactions))
    && Records(Loads(b.transactions), limits, ends, b.places, b.blocks)
    && IsFewest(Loads(b.transactions), limits, |b.blocks|)
  }

  /** How far planning came. */
  ghost predicate SoFar(txs: seq<Planned>, ds: seq<Destination>) {
    || txs == [] || (Sound(txs, |ds|) && Paid(txs, ds, |ds|))
    || exists n :: 0 <= n && PaidUpTo(txs, ds, n) && Sound(txs, n + 1)
  }

  /** Planning up to and including the writing of the bundle; all inputs are locked. */
  method Write(w: Wallet, ds: seq<Destination>, s: Settings)
    returns (r: Result<Bundle>, time: nat, txs: seq<Planned>, locked: seq<Input>, ghost ends: seq<nat>)
    requires forall d :: 0 <= d < |ds| ==> ds[d].amount > 0
    ensures locked == InputsOf(txs) && SoFar(txs, ds) && Backed(w, txs)
    ensures r.Ok? ==> s.writable && txs == r.value.transactions && Good(r.value, ds, s.limits, ends)
  {
    ends := [];
    var error;
    error, time, txs, locked := PlanAll(w, ds);
    if error.Some? { return Err(error.value), time, txs, locked, ends; }
    var ok := CheckInputs(txs);
    if !ok { return Err(InputReused), time, txs, locked, ends; }
    var packed;
    packed, ends := Pack(Loads(txs), s.limits);
    if packed.Err? { return Err(packed.error), time, txs, locked, ends; }
    var total, fees := SumUp(txs);
    if !s.writable { return Err(NotWritten), time, txs, locked, ends; }
    assert ds[..|ds|] == ds;
    r := Ok(Bundle(txs, packed.value.0, packed.value.1, total, fees));
  }

  /** The whole of planning. Locks that are to be dropped are dropped once the bundle is written;
      if the wallet refuses that, the call fails although there is a bundle. After a failure locks
      that are to be dropped or undone are asked for once more, at `at`, and what the wallet
      refuses then stays locked. */
  method Plan(w: Wallet, ds: seq<Destination>, s: Settings)
    returns (r: Result<Bundle>, written: Option<Bundle>, locked: seq<Input>, ghost at: nat, ghost planned: seq<Planned>,
             ghost ends: seq<nat>)
    requires forall d :: 0 <= d < |ds| ==> ds[d].amount > 0
    ensures written.Some? ==> 1 <= |ds| <= MAX_DESTINATIONS && s.writable && Good(written.value, ds, s.limits, ends)
    ensures written.Some? ==> planned == written.value.transactions
    ensures r.Ok? ==> written == Some(r.value)
    ensures r.Err? && written.Some? ==> !s.keepLocks && at > 0 && !w.unlock(at - 1, InputsOf(planned))
    ensures SoFar(planned, ds) && Backed(w, planned)
    ensures locked ==
            if (!s.keepLocks || (r.Err? && s.unlockOnFailure)) && w.unlock(at, InputsOf(planned)) then []
            else InputsOf(planned)
    ensures r.Ok? && !s.keepLocks ==> locked == []
  {
    written, locked, at, planned, ends := None, [], 0, [], [];
    if |ds| == 0 || |ds| > MAX_DESTINATIONS { return Err(BadDestinations), written, locked, at, planned, ends; }
    var time, txs;
    r, time, txs, locked, ends := Write(w, ds, s);
    planned, at := txs, time;
    if r.Ok? {
      written := Some(r.value);
      if locked != [] && !s.keepLocks {
        if w.unlock(time, locked) { return r, written, [], at, planned, ends; }
        r, time := Err(RpcFailed), time + 1;
        at := time;
      }
    }
    if r.Err? && locked != [] && (!s.keepLocks || s.unlockOnFailure) {
      if w.unlock(time, locked) { locked := []; }
    }
  }

  method SumUp(txs: seq<Planned>) returns (total: int, fees: int)
    ensures total == Total(txs) && fees == Fees(txs)
  {
    total, fees := 0, 0;
    for i := 0 to |txs|
      invariant total == Total(txs[..i]) && fees == Fees(txs[..i])
    {
      assert txs[..i + 1] == txs[..i] + [txs[i]];
      Snoc(txs[..i], txs[i]);
      total, fees := total + txs[i].shielded, fees + txs[i].fee;
    }
    assert txs[..|txs|] == txs;
  }
}
