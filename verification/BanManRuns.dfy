/**
 What holds in every run of the ban list.
 */
module BanManRuns {
  import opened BanMan
  import opened Helpers

  // ----- the sweep and the disk

  /** Job numbers are never used twice, so at most one job has the current one. */
  ghost predicate JobsOk(s: State) {
    && (forall j :: j in s.jobs ==> j.number <= s.number)
    && (forall j, k :: j in s.jobs && k in s.jobs && j.number == k.number ==> j == k)
  }

  /** The next sweep comes no later than any ban that ends. */
  ghost predicate Covers(s: State) {
    forall sub :: sub in s.banned && s.banned[sub].until < MAX_TIME ==> s.next <= s.banned[sub].until
  }

  /** The current job runs by the time of the next sweep, or is due. */
  ghost predicate Pending(s: State) { exists j :: j in s.jobs && IsLive(s, j) }

  ghost predicate IsLive(s: State, j: Job) { j.number == s.number && j.due <= Max(s.clock, s.next) }

  ghost predicate Timely(s: State) {
    s.started ==> s.scheduler && Covers(s) && (s.next < MAX_TIME ==> Pending(s))
  }

  ghost predicate Saved(s: State) { !s.dirty && s.dump.None? ==> s.disk == s.banned }

  ghost predicate Inv(s: State) { JobsOk(s) && Timely(s) && Saved(s) }

  lemma LoadOk(n: Net, disk: BanMap, readable: bool, now: int)
    ensures Inv(Load(n, disk, readable, now))
  {
  }

  lemma PendingStays(s: State, t: State)
    requires Timely(s) && s.started && s.next < MAX_TIME
    requires t.jobs == s.jobs && t.number == s.number && t.next == s.next && s.clock <= t.clock
    ensures Pending(t)
  {
    var j :| j in s.jobs && IsLive(s, j);
    assert IsLive(t, j);
  }

  lemma SweepKeeps(n: Net, s: State, now: int)
    requires Inv(s) && s.clock <= now
    ensures Inv(Sweep(n, s, now))
  {
    var t := Sweep(n, s, now);
    if s.started && s.next < MAX_TIME { PendingStays(s, t); }
  }

  lemma EnqueueKeeps(s: State, at: int, now: int)
    requires JobsOk(s) && Saved(s) && s.scheduler
    requires forall sub :: sub in s.banned && s.banned[sub].until < MAX_TIME ==> at <= s.banned[sub].until
    ensures Inv(Enqueue(s, at, now))
  {
    var t := Enqueue(s, at, now);
    var j := Job(t.number, Max(now, at));
    assert j in t.jobs && IsLive(t, j);
  }

  lemma ScheduleKeeps(s: State, now: int)
    requires JobsOk(s) && Saved(s) && s.scheduler
    ensures Inv(Schedule(s, now))
  {
    if |s.banned| != 0 { EnqueueKeeps(s, Earliest(s.banned), now); }
  }

  lemma SweepAndScheduleKeeps(n: Net, s: State, now: int, later: int)
    requires JobsOk(s) && Saved(s) && s.scheduler
    ensures Inv(SweepAndSchedule(n, s, now, later))
  {
    ScheduleKeeps(Sweep(n, s, now), later);
  }

  lemma RunJobKeeps(n: Net, s: State, j: Job, now: int, later: int)
    requires Inv(s) && j in s.jobs && s.started && s.clock <= now <= later
    ensures Inv(RunJob(n, s, j, now, later))
  {
    var s1 := s.(jobs := s.jobs - {j});
    if j.number == s.number {
      SweepAndScheduleKeeps(n, s1, now, later);
    } else if s.next < MAX_TIME {
      var t := RunJob(n, s, j, now, later);
      var k :| k in s.jobs && IsLive(s, k);
      assert k in t.jobs && IsLive(t, k);
    }
  }

  lemma BanKeeps(s: State, sub: Subnet, entry: Entry, now: int)
    requires Inv(s) && s.clock <= now && entry.until > 0
    ensures Inv(Ban(s, sub, entry, now))
  {
    var t := Ban(s, sub, entry, now);
    if UntilOf(s.banned, sub) < entry.until && s.started && entry.until < s.next {
      EnqueueKeeps(s.(banned := s.banned[sub := entry], dirty := true, clock := now), entry.until, now);
    } else if s.started && s.next < MAX_TIME {
      PendingStays(s, t);
    }
  }

  /** A ban that ends at 0 or before, on a subnet without one, leaves an empty entry
      that is neither saved nor swept in time. It breaks nothing exactly if the list is
      about to be saved anyway and no sweep is due after the entry. */
  lemma BanKeepsExactly(s: State, sub: Subnet, entry: Entry, now: int)
    requires Inv(s) && s.clock <= now
    ensures Inv(Ban(s, sub, entry, now)) <==>
            || entry.until > 0 || sub in s.banned
            || ((s.dirty || s.dump.Some? || s.disk == s.banned[sub := DEFAULT_ENTRY]) && (s.started ==> s.next <= 0))
  {
    if entry.until > 0 {
      BanKeeps(s, sub, entry, now);
    } else {
      var t := Ban(s, sub, entry, now);
      if UntilOf(s.banned, sub) < entry.until {
        BanAnyKeeps(s, sub, entry, now);
      } else {
        if s.started && s.next < MAX_TIME { PendingStays(s, t); }
        if sub !in s.banned { assert t.banned[sub].until == 0; }
      }
    }
  }

  lemma BanAnyKeeps(s: State, sub: Subnet, entry: Entry, now: int)
    requires Inv(s) && s.clock <= now && UntilOf(s.banned, sub) < entry.until
    ensures Inv(Ban(s, sub, entry, now))
  {
    if s.started && entry.until < s.next {
      EnqueueKeeps(s.(banned := s.banned[sub := entry], dirty := true, clock := now), entry.until, now);
    } else if s.started && s.next < MAX_TIME {
      PendingStays(s, Ban(s, sub, entry, now));
    }
  }

  /** A ban ends at 0 or before exactly if it takes the default time, which is then at most minus the clock. */
  lemma BanEndsByZero(offset: int, sinceEpoch: bool, standard: int, now: int)
    requires now >= 0
    ensures BanEnd(offset, sinceEpoch, standard, now) <= 0 <==> offset <= 0 && now + standard <= 0
  {
  }

  /** The state after a clean start with nothing banned and then one ban. */
  function FirstBan(n: Net, sub: Subnet, offset: int, sinceEpoch: bool, standard: int, now: int): State {
    Ban(Load(n, map[], true, now), sub, Entry(now, BanEnd(offset, sinceEpoch, standard, now)), now)
  }

  /** That ban leaves a list that counts as clean and is not the one on disk exactly if it takes
      the default time and that time is at most minus the clock. */
  lemma EmptyEntryUnsaved(n: Net, sub: Subnet, offset: int, sinceEpoch: bool, standard: int, now: int)
    requires now >= 0
    ensures var s := FirstBan(n, sub, offset, sinceEpoch, standard, now);
            !s.dirty && s.dump.None? && s.disk != s.banned <==> offset <= 0 && now + standard <= 0
  {
    BanEndsByZero(offset, sinceEpoch, standard, now);
    var s := Load(n, map[], true, now);
    assert s.banned == map[];
    assert sub in FirstBan(n, sub, offset, sinceEpoch, standard, now).banned;
  }

  lemma SmallerKeeps(s: State, t: State)
    requires Inv(s) && t.dirty && t == s.(banned := t.banned, dirty := true)
    requires forall sub :: sub in t.banned ==> sub in s.banned && t.banned[sub] == s.banned[sub]
    ensures Inv(t)
  {
    if s.started && s.next < MAX_TIME { PendingStays(s, t); }
  }

  lemma DumpKeeps(n: Net, s: State, now: int)
    requires Inv(s) && s.clock <= now
    ensures Inv(BeginDump(n, s, now))
  {
    SweepKeeps(n, s, now);
    var t := Sweep(n, s, now);
    if t.started && t.next < MAX_TIME { PendingStays(t, BeginDump(n, s, now)); }
  }

  lemma EndDumpKeeps(s: State, ok: bool, junk: BanMap)
    requires Inv(s) && s.dump.Some? && (s.dirty || s.dump.value == s.banned)
    ensures Inv(EndDump(s, ok, junk))
  {
    if s.started && s.next < MAX_TIME { PendingStays(s, EndDump(s, ok, junk)); }
  }

  /** With a dump in flight and nothing dirty since, its copy is the list. */
  ghost predicate CopyOk(s: State) { s.dump.Some? && !s.dirty ==> s.dump.value == s.banned }

  /** Before sweeping starts there is no job. */
  ghost predicate Whole(s: State) { Inv(s) && CopyOk(s) && (!s.started ==> s.jobs == {}) }

  /** Bans end after time 0. */
  predicate Positive(a: Action) { a.AddBan? ==> a.entry.until > 0 }

  lemma SweepingKeeps(n: Net, s: State, a: Action)
    requires Whole(s) && Enabled(s, a) && (a.SetScheduler? || a.StartSweeping? || a.Fire? || a.List?)
    ensures Whole(Apply(n, s, a))
  {
    match a
    case SetScheduler =>
      if s.started && s.next < MAX_TIME { PendingStays(s, s.(scheduler := true)); }
    case StartSweeping(now, later) =>
      if s.scheduler && !s.started { SweepAndScheduleKeeps(n, s.(started := true), now, later); }
    case Fire(job, now, later) => RunJobKeeps(n, s, job, now, later);
    case List(now) => SweepKeeps(n, s, now);
  }

  lemma StepKeeps(n: Net, s: State, a: Action)
    requires Whole(s) && Enabled(s, a) && Positive(a)
    ensures Whole(Apply(n, s, a))
  {
    match a
    case AddBan(sub, entry, now) => BanKeeps(s, sub, entry, now);
    case RemoveBan(sub) => if sub in s.banned { SmallerKeeps(s, Unban(s, sub)); }
    case ClearAll => SmallerKeeps(s, Clear(s));
    case DumpStart(now) => DumpKeeps(n, s, now);
    case DumpFinish(ok, junk) => EndDumpKeeps(s, ok, junk);
    case _ => SweepingKeeps(n, s, a);
  }

  lemma {:induction false} RunKeeps(n: Net, s: State, run: seq<Action>)
    requires Whole(s) && CanRun(n, s, run) && forall a :: a in run ==> Positive(a)
    ensures Whole(Run(n, s, run))
    decreases |run|
  {
    if |run| > 0 {
      StepKeeps(n, s, run[0]);
      RunKeeps(n, Apply(n, s, run[0]), run[1..]);
    }
  }

  /** From start-up on: at most one scheduled sweep will do anything; once sweeping has
      started, one is scheduled no later than the end of any ban, or is due; and a clean
      list with no dump in flight is the list on disk. */
  lemma FromStart(n: Net, disk: BanMap, readable: bool, now: int, run: seq<Action>)
    requires CanRun(n, Load(n, disk, readable, now), run) && forall a :: a in run ==> Positive(a)
    ensures var s := Run(n, Load(n, disk, readable, now), run);
            && (forall j, k :: j in s.jobs && k in s.jobs && j.number == s.number && k.number == s.number ==> j == k)
            && (forall sub :: s.started && sub in s.banned && s.banned[sub].until < MAX_TIME ==>
                  exists j :: j in s.jobs && j.number == s.number && j.due <= Max(s.clock, s.banned[sub].until))
            && (!s.dirty && s.dump.None? ==> s.disk == s.banned)
  {
    LoadOk(n, disk, readable, now);
    RunKeeps(n, Load(n, disk, readable, now), run);
    var s := Run(n, Load(n, disk, readable, now), run);
    forall sub | s.started && sub in s.banned && s.banned[sub].until < MAX_TIME
      ensures exists j :: j in s.jobs && j.number == s.number && j.due <= Max(s.clock, s.banned[sub].until)
    {
      assert s.next <= s.banned[sub].until;
      var j :| j in s.jobs && IsLive(s, j);
    }
  }

  // ----- the answers

  /** From `clock` on, both give the same answer for every valid subnet. */
  ghost predicate SameAnswers(n: Net, a: BanMap, b: BanMap, clock: int) {
    forall sub, t :: n.valid(sub) && clock <= t ==> (IsSubnetBanned(a, sub, t) <==> IsSubnetBanned(b, sub, t))
  }

  /** And so for every address. */
  lemma SameForAddresses(n: Net, a: BanMap, b: BanMap, clock: int, x: Address, t: int)
    requires IsNet(n) && SameAnswers(n, a, b, clock) && clock <= t
    ensures IsBanned(n, a, x, t) <==> IsBanned(n, b, x, t)
  {
    if s :| s in a && t < a[s].until && n.matches(s, x) { assert IsSubnetBanned(a, s, t) && IsSubnetBanned(b, s, t); }
    if s :| s in b && t < b[s].until && n.matches(s, x) { assert IsSubnetBanned(b, s, t) && IsSubnetBanned(a, s, t); }
  }

  lemma SweptAnswers(n: Net, m: BanMap, now: int)
    ensures SameAnswers(n, Swept(n, m, now), m, now)
  {
  }

  /** For a subnet that is not valid, sweeping changes the answer if it was a yes. */
  lemma SweptAnswersExactly(n: Net, m: BanMap, sub: Subnet, now: int, t: int)
    requires now <= t
    ensures (IsSubnetBanned(Swept(n, m, now), sub, t) <==> IsSubnetBanned(m, sub, t)) <==>
            (n.valid(sub) || !IsSubnetBanned(m, sub, t))
  {
  }

  /** A run that shows it: a ban on a subnet that is not valid is gone after the next sweep,
      though it has not ended and nothing removed it. */
  lemma InvalidBanSwept(n: Net, sub: Subnet, end: int, now: int)
    requires !n.valid(sub) && 0 <= now < end
    ensures var s, ban := Load(n, map[], true, now), AddBan(sub, Entry(now, end), now);
            && CanRun(n, s, [ban]) && IsSubnetBanned(Run(n, s, [ban]).banned, sub, now)
            && CanRun(n, s, [ban, List(now)]) && !IsSubnetBanned(Run(n, s, [ban, List(now)]).banned, sub, now)
            && IsSubnetBanned(KeptAll(s.banned, [ban, List(now)]), sub, now)
  {
    var s, ban := Load(n, map[], true, now), AddBan(sub, Entry(now, end), now);
    var t := Apply(n, s, ban);
    assert [ban, List(now)][1..] == [List(now)] && [ban][1..] == [] && [List(now)][1..] == [];
    assert CanRun(n, t, []) && CanRun(n, Apply(n, t, List(now)), []);
    assert CanRun(n, t, [List(now)]) && Run(n, t, [List(now)]) == Run(n, Apply(n, t, List(now)), []);
    assert KeptAll(Kept(s.banned, ban), [List(now)]) == Kept(s.banned, ban);
    SweptAnswersExactly(n, t.banned, sub, now, now);
    assert !IsSubnetBanned(Run(n, t, [List(now)]).banned, sub, now);
  }

  /** The list as it would be if nothing were ever swept. */
  function Kept(m: BanMap, a: Action): BanMap {
    match a
    case AddBan(sub, entry, _) => if UntilOf(m, sub) < entry.until then m[sub := entry] else m
    case RemoveBan(sub) => m - {sub}
    case ClearAll => map[]
    case _ => m
  }

  function KeptAll(m: BanMap, run: seq<Action>): BanMap
    decreases |run|
  {
    if |run| == 0 then m else KeptAll(Kept(m, run[0]), run[1..])
  }

  lemma SweptLater(n: Net, a: BanMap, m: BanMap, clock: int, now: int)
    requires SameAnswers(n, a, m, clock) && clock <= now
    ensures SameAnswers(n, Swept(n, a, now), m, now)
  {
    SweptAnswers(n, a, now);
    forall sub, t | n.valid(sub) && now <= t
      ensures IsSubnetBanned(Swept(n, a, now), sub, t) <==> IsSubnetBanned(m, sub, t)
    {
      assert IsSubnetBanned(Swept(n, a, now), sub, t) <==> IsSubnetBanned(a, sub, t);
    }
  }

  lemma RemovedAnswers(n: Net, a: BanMap, m: BanMap, sub: Subnet, clock: int)
    requires SameAnswers(n, a, m, clock)
    ensures SameAnswers(n, a - {sub}, m - {sub}, clock)
  {
    forall x, t | n.valid(x) && clock <= t
      ensures IsSubnetBanned(a - {sub}, x, t) <==> IsSubnetBanned(m - {sub}, x, t)
    {
      assert IsSubnetBanned(a, x, t) <==> IsSubnetBanned(m, x, t);
    }
  }

  lemma AnswersStay(n: Net, a: BanMap, m: BanMap, clock: int, now: int)
    requires SameAnswers(n, a, m, clock) && clock <= now
    ensures SameAnswers(n, a, m, now)
  {
  }

  lemma ChangeAnswers(n: Net, s: State, m: BanMap, a: Action)
    requires Enabled(s, a) && s.clock >= 0 && SameAnswers(n, s.banned, m, s.clock) &&
             (a.AddBan? || a.RemoveBan? || a.ClearAll?)
    ensures var t := Apply(n, s, a); t.clock >= s.clock && SameAnswers(n, t.banned, Kept(m, a), t.clock)
  {
    match a
    case AddBan(sub, entry, now) => BanAnswers(n, s, m, sub, entry, now);
    case RemoveBan(sub) =>
      RemovedAnswers(n, s.banned, m, sub, s.clock);
      assert sub !in s.banned ==> s.banned - {sub} == s.banned;
    case ClearAll =>
  }

  lemma QuietAnswers(n: Net, s: State, m: BanMap, a: Action)
    requires Enabled(s, a) && SameAnswers(n, s.banned, m, s.clock) && !a.AddBan? && !a.RemoveBan? && !a.ClearAll?
    ensures var t := Apply(n, s, a); t.clock >= s.clock && SameAnswers(n, t.banned, m, t.clock)
  {
    match a
    case List(now) => SweptLater(n, s.banned, m, s.clock, now);
    case DumpStart(now) => SweptLater(n, s.banned, m, s.clock, now);
    case Fire(job, now, later) => SweepAnswers(n, s, m, now, later);
    case StartSweeping(now, later) => SweepAnswers(n, s, m, now, later);
    case SetScheduler =>
    case DumpFinish(_, _) =>
  }

  lemma StepAnswers(n: Net, s: State, m: BanMap, a: Action)
    requires Enabled(s, a) && s.clock >= 0 && SameAnswers(n, s.banned, m, s.clock)
    ensures var t := Apply(n, s, a); t.clock >= s.clock && SameAnswers(n, t.banned, Kept(m, a), t.clock)
  {
    if a.AddBan? || a.RemoveBan? || a.ClearAll? { ChangeAnswers(n, s, m, a); } else { QuietAnswers(n, s, m, a); }
  }

  lemma SweepAnswers(n: Net, s: State, m: BanMap, now: int, later: int)
    requires s.clock <= now <= later && SameAnswers(n, s.banned, m, s.clock)
    ensures SameAnswers(n, Swept(n, s.banned, now), m, later) && SameAnswers(n, s.banned, m, now)
  {
    SweptLater(n, s.banned, m, s.clock, now);
    AnswersStay(n, Swept(n, s.banned, now), m, now, later);
    AnswersStay(n, s.banned, m, s.clock, now);
  }

  lemma BanAnswers(n: Net, s: State, m: BanMap, sub: Subnet, entry: Entry, now: int)
    requires 0 <= s.clock <= now && SameAnswers(n, s.banned, m, s.clock)
    ensures SameAnswers(n, Ban(s, sub, entry, now).banned, Kept(m, AddBan(sub, entry, now)), now)
  {
    var b, k := Ban(s, sub, entry, now).banned, Kept(m, AddBan(sub, entry, now));
    forall x, t | n.valid(x) && now <= t ensures IsSubnetBanned(b, x, t) <==> IsSubnetBanned(k, x, t) {
      assert IsSubnetBanned(s.banned, x, t) <==> IsSubnetBanned(m, x, t);
      if x == sub {
        var u, v := UntilOf(s.banned, sub), UntilOf(m, sub);
        assert IsSubnetBanned(s.banned, x, u - 1) <==> (sub in s.banned);
        assert IsSubnetBanned(m, x, v - 1) <==> (sub in m);
        assert u > now ==> IsSubnetBanned(m, x, u - 1);
        assert v > now ==> IsSubnetBanned(s.banned, x, v - 1);
      }
    }
  }

  /** In every run, whether an address or a valid subnet is banned is decided by the bans
      and their removal alone: sweeping, saving and listing never show. */
  lemma {:induction false} RunAnswers(n: Net, s: State, m: BanMap, run: seq<Action>)
    requires CanRun(n, s, run) && s.clock >= 0 && SameAnswers(n, s.banned, m, s.clock)
    ensures var t := Run(n, s, run); t.clock >= s.clock && SameAnswers(n, t.banned, KeptAll(m, run), t.clock)
    decreases |run|
  {
    if |run| > 0 {
      StepAnswers(n, s, m, run[0]);
      RunAnswers(n, Apply(n, s, run[0]), Kept(m, run[0]), run[1..]);
    }
  }

  /** A clean list with no dump in flight survives a restart. */
  lemma Restart(n: Net, s: State, now: int)
    requires Inv(s) && !s.dirty && s.dump.None? && s.clock <= now
    ensures SameAnswers(n, Load(n, s.disk, true, now).banned, s.banned, now)
  {
    SweptAnswers(n, s.banned, now);
  }
}
