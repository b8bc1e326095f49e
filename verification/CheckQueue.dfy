/**
 The verification queue: a master that adds checks and then joins a pool of
 workers until all of them are done.

 Every critical section of the worker loop is one atomic step, and so is every
 call of a check, every notification and the wait. Threads interleave freely
 and may wake up without having been notified.
 */
module CheckQueue {
  import opened Helpers

  type Check = nat
  type Failure = nat

  /** unsigned int. */
  const WORD: int := 0x1_0000_0000

  /** `eval` is what a check returns when it is called. */
  datatype Config = Config(workers: nat, batchSize: nat, eval: Check -> Option<Failure>)

  /** Where a thread is: the master outside Complete, possibly with a
      notification to send; before the critical section of the loop, or inside
      it with the clean-up done; in the wait; or calling the checks of its
      batch. */
  datatype Pc = Outside | Notifying(one: bool) | Top | Inside | Waiting(notified: bool) | Running

  /** The local variables of the loop. `local` survives from one round of the
      loop to the next, and with it from one Complete to a later one. */
  datatype Thread = Thread(pc: Pc, nNow: nat, local: Option<Failure>, batch: seq<Check>, doWork: bool, next: nat)

  /** The shared fields and the threads, the master being thread 0. The last
      three fields are bookkeeping: the checks added since the last Complete,
      those of them whose batch is accounted for, and what every Complete so
      far was given and returned. */
  datatype State = State(queue: seq<Check>, nIdle: int, nTotal: int, result: Option<Failure>, nTodo: int,
                         threads: seq<Thread>,
                         added: multiset<Check>, done: multiset<Check>, history: seq<Round>)

  datatype Round = Round(checks: multiset<Check>, returned: Option<Failure>)

  datatype Action =
    | Add(checks: seq<Check>)
    | Notify(who: nat)
    | Complete
    | Enter(i: nat)
    | Wake(i: nat)
    | Call(i: nat)

  const NEW_LOOP: Thread := Thread(Top, 0, None, [], false, 0)

  function Initial(c: Config): State {
    State([], 0, 0, None, 0, seq(c.workers + 1, i => if i == 0 then NEW_LOOP.(pc := Outside) else NEW_LOOP),
          multiset{}, multiset{}, [])
  }

  // ----- the steps

  function Min(a: int, b: int): int { if a < b then a else b }

  function BatchOf(c: Config, s: State): int {
    var share := s.nTotal + s.nIdle + 1;
    Max(1, Min(c.batchSize, if share <= 0 then 0 else |s.queue| % WORD / share))
  }

  function WithThread(s: State, i: nat, t: Thread): State
    requires i < |s.threads|
  {
    s.(threads := s.threads[i := t])
  }

  function NotifyMaster(ts: seq<Thread>): seq<Thread>
    requires |ts| > 0
  {
    if ts[0].pc.Waiting? then ts[0 := ts[0].(pc := Waiting(true))] else ts
  }

  /** The clean-up at the start of the critical section. */
  function CleanUp(s: State, i: nat): State
    requires i < |s.threads|
  {
    var t := s.threads[i];
    if t.nNow == 0 then WithThread(s, i, t.(pc := Inside)).(nTotal := s.nTotal + 1)
    else if t.local.Some? && s.result.None? then Account(s.(result := t.local), i, t.(pc := Inside, local := s.result))
    else Account(s, i, t.(pc := Inside))
  }

  /** The batch of thread `i`, now `t`, is done. */
  function Account(s: State, i: nat, t: Thread): State
    requires i < |s.threads|
  {
    var nTodo := (s.nTodo - t.nNow) % WORD;
    var ts := s.threads[i := t];
    s.(nTodo := nTodo, threads := if nTodo == 0 && i != 0 then NotifyMaster(ts) else ts,
       done := s.done + multiset(t.batch))
  }

  /** Back from the wait. */
  function Awake(s: State, i: nat): State
    requires i < |s.threads|
  {
    WithThread(s, i, s.threads[i].(pc := Inside)).(nIdle := s.nIdle - 1)
  }

  /** The rest of the critical section, from the test of the wait loop on. */
  function Proceed(c: Config, s: State, i: nat): State
    requires i < |s.threads|
  {
    var t := s.threads[i];
    if |s.queue| == 0 then
      if i == 0 && s.nTodo == 0 then Return(s)
      else WithThread(s, i, t.(pc := Waiting(false))).(nIdle := s.nIdle + 1)
    else
      Take(s, i, BatchOf(c, s))
  }

  /** The master leaves Complete. */
  function Return(s: State): State
    requires 0 < |s.threads|
  {
    WithThread(s, 0, s.threads[0].(pc := Outside)).(
      nTotal := s.nTotal - 1, result := None, added := multiset{}, done := multiset{},
      history := s.history + [Round(s.added, s.result)])
  }

  /** A thread takes its next batch from the end of the queue. */
  function Take(s: State, i: nat, n: int): State
    requires i < |s.threads|
  {
    if !(0 <= n <= |s.queue|) then s else
      var rest := |s.queue| - n;
      WithThread(s, i, Loaded(s.threads[i], s.queue[rest..], s.result)).(queue := s.queue[..rest])
  }

  function Loaded(t: Thread, batch: seq<Check>, result: Option<Failure>): Thread {
    t.(pc := Running, nNow := |batch|, batch := batch, doWork := result.None?, next := 0)
  }

  /** One call of a check, or the end of the batch. */
  function CallNext(c: Config, t: Thread): Thread {
    if !t.doWork || t.next >= |t.batch| then t.(pc := Top)
    else
      var r := c.eval(t.batch[t.next]);
      if r.Some? then t.(local := r, pc := Top) else t.(local := r, next := t.next + 1)
  }

  /** notify_one chooses `who`, notify_all needs no choice. */
  function NotifyWorkers(ts: seq<Thread>, one: bool, who: nat): seq<Thread> {
    seq(|ts|, i requires 0 <= i < |ts| =>
      if i != 0 && ts[i].pc.Waiting? && (!one || i == who) then ts[i].(pc := Waiting(true)) else ts[i])
  }

  predicate UnnotifiedWorker(s: State, i: nat) {
    0 < i < |s.threads| && s.threads[i].pc == Waiting(false)
  }

  ghost predicate Enabled(s: State, a: Action) {
    0 < |s.threads| &&
    match a
    case Add(checks) => s.threads[0].pc.Outside?
    case Notify(who) =>
      s.threads[0].pc.Notifying? &&
      (s.threads[0].pc.one && (exists i :: UnnotifiedWorker(s, i)) ==> UnnotifiedWorker(s, who))
    case Complete => s.threads[0].pc.Outside?
    case Enter(i) => i < |s.threads| && s.threads[i].pc.Top?
    case Wake(i) => i < |s.threads| && s.threads[i].pc.Waiting?
    case Call(i) => i < |s.threads| && s.threads[i].pc.Running?
  }

  function Apply(c: Config, s: State, a: Action): State
    requires Enabled(s, a)
  {
    match a
    case Add(checks) =>
      if |checks| == 0 then s else
        WithThread(s, 0, s.threads[0].(pc := Notifying(|checks| == 1))).(
          queue := s.queue + checks, nTodo := (s.nTodo + |checks|) % WORD, added := s.added + multiset(checks))
    case Notify(who) =>
      var ts := NotifyWorkers(s.threads, s.threads[0].pc.one, who);
      s.(threads := ts[0 := ts[0].(pc := Outside)])
    case Complete => WithThread(s, 0, NEW_LOOP)
    case Enter(i) => Proceed(c, CleanUp(s, i), i)
    case Wake(i) => Proceed(c, Awake(s, i), i)
    case Call(i) => WithThread(s, i, CallNext(c, s.threads[i]))
  }

  /** The state after a run; an action that is not enabled does not happen. */
  ghost function Run(c: Config, s: State, actions: seq<Action>): State
    decreases |actions|
  {
    if |actions| == 0 then s
    else if !Enabled(s, actions[0]) then Run(c, s, actions[1..])
    else Run(c, Apply(c, s, actions[0]), actions[1..])
  }
}
