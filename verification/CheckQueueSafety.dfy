/**
 What holds in every state of the verification queue, and what it gives: the
 answer of every Complete is right, and every Complete comes to an end.
 */
module CheckQueueSafety {
  import opened CheckQueue
  import opened Helpers

  // ----- sums over the threads

  ghost function Total(ts: seq<Thread>, f: Thread -> nat): nat {
    if |ts| == 0 then 0 else Total(ts[..|ts| - 1], f) + f(ts[|ts| - 1])
  }

  lemma {:induction false} TotalUpdate(ts: seq<Thread>, i: nat, t: Thread, f: Thread -> nat)
    requires i < |ts|
    ensures Total(ts[i := t], f) == Total(ts, f) - f(ts[i]) + f(t)
  {
    var n := |ts| - 1;
    if i == n {
      assert ts[i := t][..n] == ts[..n];
    } else {
      assert ts[i := t][..n] == ts[..n][i := t];
      TotalUpdate(ts[..n], i, t, f);
    }
  }

  lemma {:induction false} TotalSame(ts: seq<Thread>, ts': seq<Thread>, f: Thread -> nat)
    requires |ts| == |ts'| && forall i :: 0 <= i < |ts| ==> f(ts'[i]) == f(ts[i])
    ensures Total(ts', f) == Total(ts, f)
  {
    if |ts| > 0 {
      var n := |ts| - 1;
      forall i | 0 <= i < n ensures f(ts'[..n][i]) == f(ts[..n][i]) { assert f(ts'[i]) == f(ts[i]); }
      TotalSame(ts[..n], ts'[..n], f);
    }
  }

  lemma {:induction false} TotalAtLeast(ts: seq<Thread>, i: nat, f: Thread -> nat)
    requires i < |ts|
    ensures f(ts[i]) <= Total(ts, f)
  {
    if i < |ts| - 1 { TotalAtLeast(ts[..|ts| - 1], i, f); }
  }

  /** A positive sum has a positive member. */
  lemma {:induction false} TotalMember(ts: seq<Thread>, f: Thread -> nat) returns (i: nat)
    requires Total(ts, f) > 0
    ensures i < |ts| && f(ts[i]) > 0
  {
    i := |ts| - 1;
    if f(ts[i]) == 0 { i := TotalMember(ts[..|ts| - 1], f); }
  }

  lemma {:induction false} TotalBound(ts: seq<Thread>, f: Thread -> nat, m: nat)
    requires forall i :: 0 <= i < |ts| ==> f(ts[i]) <= m
    ensures Total(ts, f) <= |ts| * m
  {
    if |ts| > 0 {
      var n := |ts| - 1;
      forall i | 0 <= i < n ensures f(ts[..n][i]) <= m { assert f(ts[i]) <= m; }
      TotalBound(ts[..n], f, m);
      assert |ts| * m == n * m + m;
    }
  }

  // ----- what is counted

  /** A batch taken and not yet accounted for. */
  predicate InFlight(t: Thread) { t.pc.Running? || (t.pc.Top? && t.nNow > 0) }

  function Held(t: Thread): nat { if InFlight(t) then |t.batch| else 0 }
  function Idle(t: Thread): nat { if t.pc.Waiting? then 1 else 0 }
  function Started(t: Thread): nat { if InFlight(t) || t.pc.Waiting? || t.pc.Inside? then 1 else 0 }
  /** How often check `x` is in the batch of a thread, and in all of them. */
  function CopiesIn(t: Thread, x: Check): nat { if InFlight(t) then multiset(t.batch)[x] else 0 }

  ghost function Copies(ts: seq<Thread>, x: Check): nat {
    if |ts| == 0 then 0 else Copies(ts[..|ts| - 1], x) + CopiesIn(ts[|ts| - 1], x)
  }

  lemma {:induction false} CopiesUpdate(ts: seq<Thread>, i: nat, t: Thread, x: Check)
    requires i < |ts|
    ensures Copies(ts[i := t], x) == Copies(ts, x) - CopiesIn(ts[i], x) + CopiesIn(t, x)
  {
    var n := |ts| - 1;
    if i == n {
      assert ts[i := t][..n] == ts[..n];
    } else {
      assert ts[i := t][..n] == ts[..n][i := t];
      CopiesUpdate(ts[..n], i, t, x);
    }
  }

  lemma {:induction false} CopiesSame(ts: seq<Thread>, ts': seq<Thread>, x: Check)
    requires |ts| == |ts'| && forall i :: 0 <= i < |ts| ==> CopiesIn(ts'[i], x) == CopiesIn(ts[i], x)
    ensures Copies(ts', x) == Copies(ts, x)
  {
    if |ts| > 0 {
      var n := |ts| - 1;
      forall i | 0 <= i < n ensures CopiesIn(ts'[..n][i], x) == CopiesIn(ts[..n][i], x) {
        assert CopiesIn(ts'[i], x) == CopiesIn(ts[i], x);
      }
      CopiesSame(ts[..n], ts'[..n], x);
    }
  }

  /** No batch is in flight. */
  lemma {:induction false} NoCopies(ts: seq<Thread>, x: Check)
    requires forall i :: 0 <= i < |ts| ==> !InFlight(ts[i])
    ensures Copies(ts, x) == 0
  {
    if |ts| > 0 { NoCopies(ts[..|ts| - 1], x); }
  }

  // ----- the invariant

  ghost predicate Fails(c: Config, checks: multiset<Check>, r: Option<Failure>) {
    r.Some? && exists x :: x in checks && c.eval(x) == r
  }

  ghost predicate AllPass(c: Config, checks: multiset<Check>) {
    forall x :: x in checks ==> c.eval(x) == None
  }

  /** The outcome of a batch that was worked on. */
  ghost predicate Judged(c: Config, batch: seq<Check>, local: Option<Failure>) {
    if local.Some? then Fails(c, multiset(batch), local) else AllPass(c, multiset(batch))
  }

  ghost predicate ThreadOk(c: Config, i: nat, t: Thread, result: Option<Failure>) {
    && (t.pc.Outside? || t.pc.Notifying? ==> i == 0)
    && (InFlight(t) ==> 1 <= |t.batch| == t.nNow <= Max(1, c.batchSize) && (!t.doWork ==> result.Some?))
    && (t.pc.Running? ==> t.next <= |t.batch| && (t.doWork ==>
          (t.next > 0 ==> t.local.None?) && forall j :: 0 <= j < t.next ==> c.eval(t.batch[j]) == None))
    && (t.pc.Top? && t.nNow > 0 && t.doWork ==> Judged(c, t.batch, t.local))
  }

  ghost predicate RoundOk(c: Config, r: Round) {
    if r.returned.None? then AllPass(c, r.checks) else Fails(c, r.checks, r.returned)
  }

  /** Every check added is queued, held by exactly one thread, or done. */
  ghost predicate Conserved(s: State) {
    forall x :: s.added[x] == multiset(s.queue)[x] + Copies(s.threads, x) + s.done[x]
  }

  ghost predicate Counted(s: State) {
    && s.nTodo == (|s.queue| + Total(s.threads, Held)) % WORD
    && s.nIdle == Total(s.threads, Idle)
    && s.nTotal == Total(s.threads, Started)
  }

  ghost predicate ThreadsOk(c: Config, ts: seq<Thread>, result: Option<Failure>) {
    |ts| == c.workers + 1 && forall i :: 0 <= i < |ts| ==> ThreadOk(c, i, ts[i], result)
  }

  ghost predicate ResultOk(c: Config, done: multiset<Check>, result: Option<Failure>) {
    if result.Some? then Fails(c, done, result) else AllPass(c, done)
  }

  /** The master waits only for batches that others hold. */
  ghost predicate MasterOk(s: State) {
    && |s.threads| > 0
    && (s.threads[0].pc.Waiting? ==> |s.queue| == 0)
    && (s.threads[0].pc == Waiting(false) ==> s.nTodo != 0)
  }

  ghost predicate HistoryOk(c: Config, history: seq<Round>) {
    forall k :: 0 <= k < |history| ==> RoundOk(c, history[k])
  }

  ghost predicate Inv(c: Config, s: State) {
    && ThreadsOk(c, s.threads, s.result)
    && Counted(s)
    && Conserved(s)
    && ResultOk(c, s.done, s.result)
    && MasterOk(s)
    && HistoryOk(c, s.history)
  }

  /** The batches in flight can be counted in an unsigned int. */
  predicate Fits(c: Config) { (c.workers + 1) * Max(1, c.batchSize) < WORD }

  // ----- the clean-up

  lemma ModSub(a: int, b: int)
    ensures (a % WORD - b) % WORD == (a - b) % WORD
  {
    var q := a / WORD;
    assert a % WORD - b == (a - b) - q * WORD;
  }

  lemma ModAdd(a: int, b: int)
    ensures (a % WORD + b) % WORD == (a + b) % WORD
  {
  }

  /** One thread changes. */
  lemma SumsUpdate(ts: seq<Thread>, i: nat, t: Thread)
    requires i < |ts|
    ensures Total(ts[i := t], Held) == Total(ts, Held) - Held(ts[i]) + Held(t)
    ensures Total(ts[i := t], Idle) == Total(ts, Idle) - Idle(ts[i]) + Idle(t)
    ensures Total(ts[i := t], Started) == Total(ts, Started) - Started(ts[i]) + Started(t)
    ensures forall x :: Copies(ts[i := t], x) == Copies(ts, x) - CopiesIn(ts[i], x) + CopiesIn(t, x)
  {
    TotalUpdate(ts, i, t, Held);
    TotalUpdate(ts, i, t, Idle);
    TotalUpdate(ts, i, t, Started);
    forall x ensures Copies(ts[i := t], x) == Copies(ts, x) - CopiesIn(ts[i], x) + CopiesIn(t, x) {
      CopiesUpdate(ts, i, t, x);
    }
  }

  ghost predicate SameSums(ts: seq<Thread>, ts': seq<Thread>) {
    && |ts'| == |ts|
    && Total(ts', Held) == Total(ts, Held) && Total(ts', Idle) == Total(ts, Idle)
    && Total(ts', Started) == Total(ts, Started) && forall x :: Copies(ts', x) == Copies(ts, x)
  }

  lemma NotifyMasterSame(ts: seq<Thread>)
    requires |ts| > 0
    ensures SameSums(ts, NotifyMaster(ts))
  {
    if ts[0].pc.Waiting? {
      var t := ts[0].(pc := Waiting(true));
      SumsUpdate(ts, 0, t);
    }
  }

  lemma FirstCleanUpKeeps(c: Config, s: State, i: nat)
    requires Inv(c, s) && i < |s.threads| && s.threads[i].pc.Top? && s.threads[i].nNow == 0
    ensures Inv(c, CleanUp(s, i))
  {
    SumsUpdate(s.threads, i, s.threads[i].(pc := Inside));
  }

  lemma NotifyMasterKeeps(c: Config, s: State)
    requires ThreadsOk(c, s.threads, s.result) && Counted(s) && Conserved(s) && ResultOk(c, s.done, s.result)
    requires HistoryOk(c, s.history) && (s.threads[0].pc.Waiting? ==> |s.queue| == 0)
    ensures Inv(c, s.(threads := NotifyMaster(s.threads)))
  {
    NotifyMasterSame(s.threads);
  }

  /** The account, before the master is told. */
  function Accounted(s: State, i: nat, t: Thread): State
    requires i < |s.threads|
  {
    s.(nTodo := (s.nTodo - t.nNow) % WORD, threads := s.threads[i := t], done := s.done + multiset(t.batch))
  }

  lemma AccountedCounts(s: State, i: nat, t: Thread)
    requires i < |s.threads| && InFlight(s.threads[i]) && |t.batch| == t.nNow
    requires t.pc.Inside? && t.nNow == s.threads[i].nNow && t.batch == s.threads[i].batch
    requires Counted(s) && Conserved(s)
    ensures Counted(Accounted(s, i, t)) && Conserved(Accounted(s, i, t))
  {
    SumsUpdate(s.threads, i, t);
    ModSub(|s.queue| + Total(s.threads, Held), t.nNow);
  }

  lemma AccountKeeps(c: Config, s: State, i: nat, t: Thread)
    requires i < |s.threads| && ThreadsOk(c, s.threads, s.result) && InFlight(s.threads[i])
    requires Counted(s) && Conserved(s) && MasterOk(s) && HistoryOk(c, s.history)
    requires t.pc.Inside? && t.nNow == s.threads[i].nNow && t.batch == s.threads[i].batch
    requires ResultOk(c, s.done + multiset(t.batch), s.result)
    ensures Inv(c, Account(s, i, t))
  {
    var u := Accounted(s, i, t);
    AccountedCounts(s, i, t);
    assert ThreadsOk(c, u.threads, u.result);
    if u.nTodo == 0 && i != 0 { NotifyMasterKeeps(c, u); }
  }

  lemma CleanUpKeeps(c: Config, s: State, i: nat)
    requires Inv(c, s) && i < |s.threads| && s.threads[i].pc.Top?
    ensures Inv(c, CleanUp(s, i))
  {
    var t := s.threads[i];
    if t.nNow == 0 {
      FirstCleanUpKeeps(c, s, i);
    } else if t.local.Some? && s.result.None? {
      AccountKeeps(c, s.(result := t.local), i, t.(pc := Inside, local := s.result));
    } else {
      AccountKeeps(c, s, i, t.(pc := Inside));
    }
  }

  // ----- the rest of the critical section

  lemma QuotientBelow(a: nat, b: nat)
    requires b >= 1
    ensures 0 <= a / b <= a
  {
  }

  /** A thread that finds work takes at least one check, and no more than there are. */
  lemma BatchInRange(c: Config, s: State)
    requires Counted(s) && |s.queue| > 0
    ensures 1 <= BatchOf(c, s) <= |s.queue| && BatchOf(c, s) <= Max(1, c.batchSize)
  {
    QuotientBelow(|s.queue| % WORD, s.nTotal + s.nIdle + 1);
  }

  /** A thread takes its share of the queue, if all threads were to take one, but at least one
      check and at most as many as a batch may have. */
  lemma BatchExact(c: Config, s: State, n: nat)
    requires |s.queue| < WORD && s.nTotal + s.nIdle >= 0 && n > 1
    ensures n <= BatchOf(c, s) <==> n <= c.batchSize && n * (s.nTotal + s.nIdle + 1) <= |s.queue|
  {
    Shares(|s.queue|, s.nTotal + s.nIdle + 1, n);
  }

  lemma Shares(x: nat, share: nat, n: nat)
    requires share > 0
    ensures n <= x / share <==> n * share <= x
  {
    var q, r := x / share, x % share;
    assert x == q * share + r;
    if n <= q {
      TimesLe(n, q, share);
    } else {
      TimesLe(q + 1, n, share);
    }
  }

  lemma QueueSplit(queue: seq<Check>, rest: nat, x: Check)
    requires rest <= |queue|
    ensures multiset(queue)[x] == multiset(queue[..rest])[x] + multiset(queue[rest..])[x]
  {
    assert queue == queue[..rest] + queue[rest..];
  }

  lemma TakeCounts(s: State, i: nat, n: nat, rest: nat)
    requires i < |s.threads| && s.threads[i].pc.Inside? && rest + n == |s.queue| && n > 0 && Counted(s) && Conserved(s)
    ensures Counted(Take(s, i, n)) && Conserved(Take(s, i, n))
  {
    var t := Loaded(s.threads[i], s.queue[rest..], s.result);
    assert Take(s, i, n) == WithThread(s, i, t).(queue := s.queue[..rest]);
    SumsUpdate(s.threads, i, t);
    TakeConserves(s, i, rest, t);
  }

  lemma TakeConserves(s: State, i: nat, rest: nat, t: Thread)
    requires i < |s.threads| && s.threads[i].pc.Inside? && rest <= |s.queue| && Conserved(s)
    requires t == Loaded(s.threads[i], s.queue[rest..], s.result)
    requires forall x ::
               Copies(s.threads[i := t], x) == Copies(s.threads, x) - CopiesIn(s.threads[i], x) + CopiesIn(t, x)
    ensures Conserved(WithThread(s, i, t).(queue := s.queue[..rest]))
  {
    forall x ensures s.added[x] == multiset(s.queue[..rest])[x] + Copies(s.threads[i := t], x) + s.done[x] {
      QueueSplit(s.queue, rest, x);
    }
  }

  lemma TakeKeeps(c: Config, s: State, i: nat)
    requires Inv(c, s) && i < |s.threads| && s.threads[i].pc.Inside? && |s.queue| > 0
    ensures Inv(c, Take(s, i, BatchOf(c, s)))
  {
    BatchInRange(c, s);
    TakeCounts(s, i, BatchOf(c, s), |s.queue| - BatchOf(c, s));
  }

  lemma WaitKeeps(c: Config, s: State, i: nat)
    requires Inv(c, s) && i < |s.threads| && s.threads[i].pc.Inside? && |s.queue| == 0 && !(i == 0 && s.nTodo == 0)
    ensures Inv(c, Proceed(c, s, i))
  {
    SameLoad(s, i, s.threads[i].(pc := Waiting(false)), Proceed(c, s, i));
  }

  /** All of the batches in flight are counted, so none are when the count is 0. */
  lemma NoneInFlight(c: Config, s: State)
    requires Inv(c, s) && Fits(c) && |s.queue| == 0 && s.nTodo == 0
    ensures forall i :: 0 <= i < |s.threads| ==> !InFlight(s.threads[i])
    ensures forall x :: s.added[x] == s.done[x]
  {
    TotalBound(s.threads, Held, Max(1, c.batchSize));
    assert Total(s.threads, Held) == 0;
    forall i | 0 <= i < |s.threads| ensures !InFlight(s.threads[i]) { TotalAtLeast(s.threads, i, Held); }
    forall x ensures s.added[x] == s.done[x] { NoCopies(s.threads, x); }
  }

  lemma ReturnKeeps(c: Config, s: State)
    requires Inv(c, s) && Fits(c) && s.threads[0].pc.Inside? && |s.queue| == 0 && s.nTodo == 0
    ensures Inv(c, Return(s))
  {
    NoneInFlight(c, s);
    assert s.added == s.done;
    SumsUpdate(s.threads, 0, s.threads[0].(pc := Outside));
    forall x ensures Copies(s.threads, x) == 0 { NoCopies(s.threads, x); }
  }

  lemma ProceedKeeps(c: Config, s: State, i: nat)
    requires Inv(c, s) && Fits(c) && i < |s.threads| && s.threads[i].pc.Inside?
    ensures Inv(c, Proceed(c, s, i))
  {
    if |s.queue| > 0 { TakeKeeps(c, s, i); }
    else if i == 0 && s.nTodo == 0 { ReturnKeeps(c, s); }
    else { WaitKeeps(c, s, i); }
  }

  // ----- the other steps

  /** A thread that keeps its batch, or has none, leaves the checks where they are. */
  lemma SameLoad(s: State, i: nat, t: Thread, u: State)
    requires i < |s.threads| && Counted(s) && Conserved(s)
    requires InFlight(t) == InFlight(s.threads[i]) && (InFlight(t) ==> t.batch == s.threads[i].batch)
    requires u == s.(threads := s.threads[i := t], nIdle := u.nIdle, nTotal := u.nTotal)
    requires u.nIdle == s.nIdle - Idle(s.threads[i]) + Idle(t)
    requires u.nTotal == s.nTotal - Started(s.threads[i]) + Started(t)
    ensures Counted(u) && Conserved(u)
  {
    SumsUpdate(s.threads, i, t);
  }

  lemma AwakeKeeps(c: Config, s: State, i: nat)
    requires Inv(c, s) && i < |s.threads| && s.threads[i].pc.Waiting?
    ensures Inv(c, Awake(s, i))
  {
    SameLoad(s, i, s.threads[i].(pc := Inside), Awake(s, i));
  }

  lemma CallKeepsThread(c: Config, i: nat, t: Thread, result: Option<Failure>)
    requires ThreadOk(c, i, t, result) && t.pc.Running?
    ensures ThreadOk(c, i, CallNext(c, t), result)
  {
    var u := CallNext(c, t);
    if t.doWork {
      if t.next >= |t.batch| {
        forall x | x in multiset(t.batch) ensures c.eval(x) == None {
          var j :| 0 <= j < |t.batch| && t.batch[j] == x;
        }
      } else if u.pc.Top? {
        assert t.batch[t.next] in multiset(t.batch);
      }
    }
  }

  lemma CallKeeps(c: Config, s: State, i: nat)
    requires Inv(c, s) && i < |s.threads| && s.threads[i].pc.Running?
    ensures Inv(c, WithThread(s, i, CallNext(c, s.threads[i])))
  {
    var t := s.threads[i];
    CallKeepsThread(c, i, t, s.result);
    SameLoad(s, i, CallNext(c, t), WithThread(s, i, CallNext(c, t)));
  }

  lemma AddKeeps(c: Config, s: State, checks: seq<Check>)
    requires Inv(c, s) && s.threads[0].pc.Outside?
    ensures Inv(c, Apply(c, s, Add(checks)))
  {
    if |checks| > 0 {
      SumsUpdate(s.threads, 0, s.threads[0].(pc := Notifying(|checks| == 1)));
      ModAdd(|s.queue| + Total(s.threads, Held), |checks|);
    }
  }

  lemma NotifySame(ts: seq<Thread>, one: bool, who: nat)
    ensures SameSums(ts, NotifyWorkers(ts, one, who))
  {
    var ts' := NotifyWorkers(ts, one, who);
    TotalSame(ts, ts', Held);
    TotalSame(ts, ts', Idle);
    TotalSame(ts, ts', Started);
    forall x ensures Copies(ts', x) == Copies(ts, x) { CopiesSame(ts, ts', x); }
  }

  lemma NotifyWorkersKeeps(c: Config, s: State, one: bool, who: nat)
    requires Inv(c, s)
    ensures Inv(c, s.(threads := NotifyWorkers(s.threads, one, who)))
  {
    NotifySame(s.threads, one, who);
  }

  lemma OutsideKeeps(c: Config, s: State)
    requires Inv(c, s) && s.threads[0].pc.Notifying?
    ensures Inv(c, WithThread(s, 0, s.threads[0].(pc := Outside)))
  {
    SumsUpdate(s.threads, 0, s.threads[0].(pc := Outside));
  }

  lemma NotifyKeeps(c: Config, s: State, who: nat)
    requires Inv(c, s) && Enabled(s, Notify(who))
    ensures Inv(c, Apply(c, s, Notify(who)))
  {
    var one := s.threads[0].pc.one;
    NotifyWorkersKeeps(c, s, one, who);
    OutsideKeeps(c, s.(threads := NotifyWorkers(s.threads, one, who)));
  }

  lemma CompleteKeeps(c: Config, s: State)
    requires Inv(c, s) && s.threads[0].pc.Outside?
    ensures Inv(c, Apply(c, s, Complete))
  {
    SumsUpdate(s.threads, 0, NEW_LOOP);
  }

  lemma EnterKeeps(c: Config, s: State, i: nat)
    requires Inv(c, s) && Fits(c) && Enabled(s, Enter(i))
    ensures Inv(c, Apply(c, s, Enter(i)))
  {
    var t := CleanUp(s, i);
    var u := Proceed(c, t, i);
    assert Inv(c, u) by {
      CleanUpGoesOn(s, i);
      CleanUpKeeps(c, s, i);
      ProceedKeeps(c, t, i);
    }
    assert Apply(c, s, Enter(i)) == u;
  }

  lemma CleanUpGoesOn(s: State, i: nat)
    requires i < |s.threads|
    ensures i < |CleanUp(s, i).threads| && CleanUp(s, i).threads[i].pc.Inside?
  {
  }

  lemma WakeKeeps(c: Config, s: State, i: nat)
    requires Inv(c, s) && Fits(c) && Enabled(s, Wake(i))
    ensures Inv(c, Apply(c, s, Wake(i)))
  {
    AwakeKeeps(c, s, i);
    ProceedKeeps(c, Awake(s, i), i);
  }

  lemma StepKeeps(c: Config, s: State, a: Action)
    requires Inv(c, s) && Fits(c) && Enabled(s, a)
    ensures Inv(c, Apply(c, s, a))
  {
    match a
    case Add(checks) => AddKeeps(c, s, checks);
    case Notify(who) => NotifyKeeps(c, s, who);
    case Complete => CompleteKeeps(c, s);
    case Enter(i) => EnterKeeps(c, s, i);
    case Wake(i) => WakeKeeps(c, s, i);
    case Call(i) => CallKeeps(c, s, i);
  }

  lemma {:induction false} ZeroTotal(ts: seq<Thread>, f: Thread -> nat)
    requires forall i :: 0 <= i < |ts| ==> f(ts[i]) == 0
    ensures Total(ts, f) == 0
  {
    if |ts| > 0 {
      var n := |ts| - 1;
      forall i | 0 <= i < n ensures f(ts[..n][i]) == 0 { assert f(ts[i]) == 0; }
      ZeroTotal(ts[..n], f);
    }
  }

  lemma InitialOk(c: Config)
    ensures Inv(c, Initial(c))
  {
    var ts := Initial(c).threads;
    ZeroTotal(ts, Held);
    ZeroTotal(ts, Idle);
    ZeroTotal(ts, Started);
    forall x ensures Copies(ts, x) == 0 { NoCopies(ts, x); }
  }

  lemma {:induction false} RunKeeps(c: Config, s: State, actions: seq<Action>)
    requires Inv(c, s) && Fits(c)
    ensures Inv(c, Run(c, s, actions))
    decreases |actions|
  {
    if |actions| == 0 {
    } else if !Enabled(s, actions[0]) {
      RunKeeps(c, s, actions[1..]);
    } else {
      StepKeeps(c, s, actions[0]);
      RunKeeps(c, Apply(c, s, actions[0]), actions[1..]);
    }
  }
}
