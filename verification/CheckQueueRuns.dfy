/**
 Runs of the verification queue: every Complete returns the right answer, and
 no Complete is held up.
 */
module CheckQueueRuns {
  import opened CheckQueue
  import opened CheckQueueSafety
  import opened Helpers

  // ----- the answers

  /** In every interleaving, Complete returns nothing exactly if all the checks
      of its round pass, and otherwise the failure of one of them, however many
      failures of earlier rounds a worker still has in its local variable. */
  lemma CompleteIsRight(c: Config, actions: seq<Action>, k: nat)
    requires Fits(c) && k < |Run(c, Initial(c), actions).history|
    ensures var r := Run(c, Initial(c), actions).history[k];
            && (r.returned == None <==> forall x :: x in r.checks ==> c.eval(x) == None)
            && (r.returned != None ==> exists x :: x in r.checks && c.eval(x) == r.returned)
  {
    InitialOk(c);
    RunKeeps(c, Initial(c), actions);
    var r := Run(c, Initial(c), actions).history[k];
    assert RoundOk(c, r);
  }

  /** How often `x` is added in a run. */
  ghost function Given(c: Config, s: State, actions: seq<Action>, x: Check): nat
    decreases |actions|
  {
    if |actions| == 0 then 0
    else if !Enabled(s, actions[0]) then Given(c, s, actions[1..], x)
    else (if actions[0].Add? then multiset(actions[0].checks)[x] else 0) +
         Given(c, Apply(c, s, actions[0]), actions[1..], x)
  }

  /** How often `x` is in the rounds completed. */
  ghost function Completed(history: seq<Round>, x: Check): nat {
    if |history| == 0 then 0 else Completed(history[..|history| - 1], x) + history[|history| - 1].checks[x]
  }

  ghost function Seen(s: State, x: Check): nat { Completed(s.history, x) + s.added[x] }

  lemma CleanUpGives(s: State, i: nat, x: Check)
    requires i < |s.threads|
    ensures Seen(CleanUp(s, i), x) == Seen(s, x)
  {
  }

  lemma ProceedGives(c: Config, s: State, i: nat, x: Check)
    requires i < |s.threads|
    ensures Seen(Proceed(c, s, i), x) == Seen(s, x)
  {
    var t := Proceed(c, s, i);
    if |t.history| > |s.history| { assert t.history[..|s.history|] == s.history; }
  }

  lemma StepGives(c: Config, s: State, a: Action, x: Check)
    requires Enabled(s, a)
    ensures Seen(Apply(c, s, a), x) == Seen(s, x) + if a.Add? then multiset(a.checks)[x] else 0
  {
    match a
    case Enter(i) => CleanUpGives(s, i, x); ProceedGives(c, CleanUp(s, i), i, x);
    case Wake(i) => ProceedGives(c, Awake(s, i), i, x);
    case _ =>
  }

  /** The rounds are exactly what was added, cut at the returns of Complete. */
  lemma {:induction false} RoundsPartition(c: Config, s: State, actions: seq<Action>, x: Check)
    ensures Seen(Run(c, s, actions), x) == Seen(s, x) + Given(c, s, actions, x)
    decreases |actions|
  {
    if |actions| == 0 {
    } else if !Enabled(s, actions[0]) {
      RoundsPartition(c, s, actions[1..], x);
    } else {
      StepGives(c, s, actions[0], x);
      RoundsPartition(c, Apply(c, s, actions[0]), actions[1..], x);
    }
  }

  /** At every point of every run, nTodo counts the queued checks and those in
      flight, and every check added is queued, in flight or done, once. */
  lemma Accounted(c: Config, s: State, x: Check)
    requires Inv(c, s) && Fits(c)
    ensures s.nTodo == (|s.queue| + Total(s.threads, Held)) % WORD
    ensures s.nIdle == Total(s.threads, Idle) && s.nTotal == Total(s.threads, Started)
    ensures s.added[x] == multiset(s.queue)[x] + Copies(s.threads, x) + s.done[x]
    ensures |s.queue| > 0 ==> 1 <= BatchOf(c, s) <= |s.queue|
  {
    if |s.queue| > 0 { BatchInRange(c, s); }
  }

  lemma AllAccounted(c: Config, actions: seq<Action>, x: Check)
    requires Fits(c)
    ensures var s := Run(c, Initial(c), actions);
            && s.nTodo == (|s.queue| + Total(s.threads, Held)) % WORD
            && s.nIdle == Total(s.threads, Idle) && s.nTotal == Total(s.threads, Started)
            && s.added[x] == multiset(s.queue)[x] + Copies(s.threads, x) + s.done[x]
            && (|s.queue| > 0 ==> 1 <= BatchOf(c, s) <= |s.queue|)
  {
    InitialOk(c);
    RunKeeps(c, Initial(c), actions);
    Accounted(c, Run(c, Initial(c), actions), x);
  }

  // ----- Complete comes to an end

  /** Between two steps no thread is inside the critical section. */
  ghost predicate Settled(s: State) {
    forall i :: 0 <= i < |s.threads| ==> !s.threads[i].pc.Inside?
  }

  predicate InComplete(s: State) {
    |s.threads| > 0 && !s.threads[0].pc.Outside? && !s.threads[0].pc.Notifying?
  }

  function Weight(t: Thread): nat {
    match t.pc
    case Outside => 0
    case Notifying(one) => 0
    case Inside => 0
    case Top => 2
    case Waiting(notified) => if notified then 1 else 0
    case Running => if t.next <= |t.batch| then 3 + |t.batch| - t.next else 0
  }

  ghost function Measure(s: State): nat {
    10 * |s.queue| + Total(s.threads, Weight)
  }

  /** A thread wakes up without cause and goes back to sleep. */
  predicate IdleWake(s: State, a: Action) {
    a.Wake? && a.i < |s.threads| && s.threads[a.i].pc == Waiting(false) && |s.queue| == 0
  }

  lemma CleanUpWeighs(s: State, i: nat)
    requires i < |s.threads| && s.threads[i].pc.Top?
    ensures Measure(CleanUp(s, i)) < Measure(s)
  {
    var t := s.threads[i];
    var t' := if t.nNow != 0 && t.local.Some? && s.result.None? then t.(pc := Inside, local := s.result)
        else t.(pc := Inside);
    var ts := s.threads[i := t'];
    TotalUpdate(s.threads, i, t', Weight);
    TotalUpdate(ts, 0, ts[0].(pc := Waiting(true)), Weight);
  }

  lemma ProceedWeighs(c: Config, s: State, i: nat)
    requires i < |s.threads| && s.threads[i].pc.Inside? && Counted(s)
    ensures Measure(Proceed(c, s, i)) <= Measure(s)
    ensures |s.queue| > 0 ==> Measure(Proceed(c, s, i)) < Measure(s)
  {
    var u := Proceed(c, s, i);
    if |s.queue| > 0 { BatchInRange(c, s); }
    TotalUpdate(s.threads, i, u.threads[i], Weight);
  }

  lemma AwakeWeighs(s: State, i: nat)
    requires i < |s.threads| && s.threads[i].pc.Waiting?
    ensures Measure(Awake(s, i)) == Measure(s) - if s.threads[i].pc.notified then 1 else 0
  {
    TotalUpdate(s.threads, i, s.threads[i].(pc := Inside), Weight);
  }

  lemma CallWeighs(c: Config, s: State, i: nat)
    requires i < |s.threads| && s.threads[i].pc.Running? && s.threads[i].next <= |s.threads[i].batch|
    ensures Measure(WithThread(s, i, CallNext(c, s.threads[i]))) < Measure(s)
  {
    TotalUpdate(s.threads, i, CallNext(c, s.threads[i]), Weight);
  }

  lemma EnterWeighs(c: Config, s: State, i: nat)
    requires Inv(c, s) && i < |s.threads| && s.threads[i].pc.Top?
    ensures Measure(Proceed(c, CleanUp(s, i), i)) < Measure(s)
  {
    var t := CleanUp(s, i);
    CleanUpWeighs(s, i);
    assert Inv(c, t) by { CleanUpKeeps(c, s, i); }
    CleanUpGoesOn(s, i);
    ProceedWeighs(c, t, i);
  }

  lemma WakeWeighs(c: Config, s: State, i: nat)
    requires Inv(c, s) && i < |s.threads| && s.threads[i].pc.Waiting? && !IdleWake(s, Wake(i))
    ensures Measure(Proceed(c, Awake(s, i), i)) < Measure(s)
  {
    AwakeWeighs(s, i);
    AwakeKeeps(c, s, i);
    ProceedWeighs(c, Awake(s, i), i);
  }

  lemma IdleWakeSame(c: Config, s: State, i: nat)
    requires Inv(c, s) && IdleWake(s, Wake(i))
    ensures Proceed(c, Awake(s, i), i) == s
  {
    assert Proceed(c, Awake(s, i), i).threads == s.threads;
  }

  /** While the master is in Complete, every step but an idle wake-up brings the
      end nearer, and an idle wake-up changes nothing. */
  lemma StepWeighs(c: Config, s: State, a: Action)
    requires Inv(c, s) && InComplete(s) && Enabled(s, a)
    ensures IdleWake(s, a) ==> Apply(c, s, a) == s
    ensures !IdleWake(s, a) ==> Measure(Apply(c, s, a)) < Measure(s)
  {
    match a
    case Enter(i) => EnterWeighs(c, s, i);
    case Wake(i) => if IdleWake(s, a) { IdleWakeSame(c, s, i); } else { WakeWeighs(c, s, i); }
    case Call(i) => CallWeighs(c, s, i);
  }

  /** No thread but `i` is inside. */
  ghost predicate SettledBut(s: State, i: nat) {
    forall j :: 0 <= j < |s.threads| && j != i ==> !s.threads[j].pc.Inside?
  }

  lemma ProceedSettles(c: Config, s: State, i: nat)
    requires Counted(s) && i < |s.threads| && SettledBut(s, i)
    ensures Settled(Proceed(c, s, i))
  {
    if |s.queue| > 0 { BatchInRange(c, s); }
  }

  lemma CleanUpSettles(s: State, i: nat)
    requires Settled(s) && i < |s.threads|
    ensures SettledBut(CleanUp(s, i), i)
  {
  }

  lemma StepSettles(c: Config, s: State, a: Action)
    requires Inv(c, s) && Settled(s) && Enabled(s, a)
    ensures Settled(Apply(c, s, a))
  {
    match a
    case Enter(i) =>
      CleanUpKeeps(c, s, i);
      CleanUpSettles(s, i);
      ProceedSettles(c, CleanUp(s, i), i);
    case Wake(i) =>
      AwakeKeeps(c, s, i);
      ProceedSettles(c, Awake(s, i), i);
    case _ =>
  }

  lemma {:induction false} RunSettles(c: Config, s: State, actions: seq<Action>)
    requires Inv(c, s) && Fits(c) && Settled(s)
    ensures Settled(Run(c, s, actions))
    decreases |actions|
  {
    if |actions| == 0 {
    } else if !Enabled(s, actions[0]) {
      RunSettles(c, s, actions[1..]);
    } else {
      StepKeeps(c, s, actions[0]);
      StepSettles(c, s, actions[0]);
      RunSettles(c, Apply(c, s, actions[0]), actions[1..]);
    }
  }

  /** The master never waits in vain: as long as it is in Complete, it can go
      on, or it waits with an empty queue while a worker holds a batch and can
      go on. */
  lemma NeverStuck(c: Config, s: State) returns (a: Action)
    requires Inv(c, s) && Settled(s) && InComplete(s)
    ensures Enabled(s, a) && !IdleWake(s, a)
    ensures s.threads[0].pc == Waiting(false) ==>
              |s.queue| == 0 && a in {Enter(a.i), Call(a.i)} && 0 < a.i < |s.threads| && InFlight(s.threads[a.i])
  {
    match s.threads[0].pc
    case Top => a := Enter(0);
    case Running => a := Call(0);
    case Waiting(notified) =>
      if notified {
        a := Wake(0);
      } else {
        var i := TotalMember(s.threads, Held);
        a := if s.threads[i].pc.Running? then Call(i) else Enter(i);
      }
  }

  /** A run of steps within Complete, leaving out idle wake-ups. */
  ghost predicate Within(c: Config, s: State, actions: seq<Action>)
    decreases |actions|
  {
    |actions| > 0 ==>
      && InComplete(s) && Enabled(s, actions[0]) && !IdleWake(s, actions[0])
      && Within(c, Apply(c, s, actions[0]), actions[1..])
  }

  /** No run within Complete is longer than the measure of where it starts. */
  lemma {:induction false} CompleteEnds(c: Config, s: State, actions: seq<Action>)
    requires Inv(c, s) && Fits(c) && Within(c, s, actions)
    ensures |actions| <= Measure(s)
    decreases |actions|
  {
    if |actions| > 0 {
      var t := Apply(c, s, actions[0]);
      StepKeeps(c, s, actions[0]);
      StepWeighs(c, s, actions[0]);
      CompleteEnds(c, t, actions[1..]);
    }
  }

  /** Every Complete returns: from any state a run can reach, the steps within
      Complete are bounded in number, and until the master is out some step
      other than an idle wake-up can be taken. */
  lemma CompleteReturns(c: Config, actions: seq<Action>, more: seq<Action>) returns (a: Action)
    requires Fits(c) && Within(c, Run(c, Initial(c), actions), more)
    ensures var s := Run(c, Initial(c), actions);
            && |more| <= Measure(s)
            && (InComplete(Run(c, s, more)) ==> Enabled(Run(c, s, more), a) && !IdleWake(Run(c, s, more), a))
  {
    var s := Run(c, Initial(c), actions);
    InitialOk(c);
    RunKeeps(c, Initial(c), actions);
    RunSettles(c, Initial(c), actions);
    CompleteEnds(c, s, more);
    RunKeeps(c, s, more);
    RunSettles(c, s, more);
    a := Complete;
    if InComplete(Run(c, s, more)) { a := NeverStuck(c, Run(c, s, more)); }
  }
}
