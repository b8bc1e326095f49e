/**
 The ban list: bans with an expiry, a copy on disk, and a sweep that schedules its own
 next run. Every step is one stretch of code under the ban-list mutex; a dump writes the
 disk between two such stretches, so anything can happen while it is in flight.
 */
module BanMan {
  import opened Helpers

  type Subnet = int
  type Address = int

  /** The largest 64-bit time: a ban until then never ends. */
  const MAX_TIME: int := 0x7fff_ffff_ffff_ffff

  datatype Entry = Entry(created: int, until: int)

  type BanMap = map<Subnet, Entry>

  const DEFAULT_ENTRY := Entry(0, 0)

  /** Which subnets are valid, and which addresses they match. */
  datatype Net = Net(valid: Subnet -> bool, matches: (Subnet, Address) -> bool)

  ghost predicate IsNet(n: Net) { forall s, a :: n.matches(s, a) ==> n.valid(s) }

  /** A sweep that the scheduler is to run at `due`. */
  datatype Job = Job(number: nat, due: int)

  datatype State = State(
    banned: BanMap, dirty: bool,
    scheduler: bool, started: bool, next: int, number: nat, jobs: set<Job>,
    disk: BanMap, dump: Option<BanMap>,
    clock: int)

  // ----- the steps

  function Swept(n: Net, m: BanMap, now: int): BanMap {
    map s | s in m && n.valid(s) && now < m[s].until :: m[s]
  }

  function Sweep(n: Net, s: State, now: int): State {
    var m := Swept(n, s.banned, now);
    s.(banned := m, dirty := s.dirty || m != s.banned, clock := now)
  }

  /** The least of the expiries and MAX_TIME. */
  ghost predicate IsEarliest(m: BanMap, e: int) {
    && e <= MAX_TIME && (forall s :: s in m ==> e <= m[s].until)
    && (e == MAX_TIME || exists s :: s in m && m[s].until == e)
  }

  ghost function Earliest(m: BanMap): (e: int)
    ensures IsEarliest(m, e)
  {
    EarliestExists(m);
    var e :| IsEarliest(m, e);
    e
  }

  lemma {:induction false} EarliestExists(m: BanMap)
    ensures exists e :: IsEarliest(m, e)
    decreases |m|
  {
    if |m| == 0 {
      assert IsEarliest(m, MAX_TIME);
    } else {
      var s := Pick(m.Keys);
      var rest := m - {s};
      EarliestExists(rest);
      var e :| IsEarliest(rest, e);
      forall t | t in m && t != s ensures e <= m[t].until { assert t in rest; }
      if m[s].until < e {
        assert IsEarliest(m, m[s].until);
      } else {
        if e != MAX_TIME {
          var t :| t in rest && rest[t].until == e;
          assert t in m;
        }
        assert IsEarliest(m, e);
      }
    }
  }

  lemma EarliestUnique(m: BanMap, e: int)
    requires IsEarliest(m, e)
    ensures e == Earliest(m)
  {
  }

  ghost function Schedule(s: State, now: int): State {
    if !s.scheduler || |s.banned| == 0 then s.(next := MAX_TIME, clock := now)
    else
      var e := Earliest(s.banned);
      Enqueue(s, e, now)
  }

  /** The next sweep, under a new number, at `at` or at once if that is past. */
  function Enqueue(s: State, at: int, now: int): State {
    var k := s.number + 1;
    s.(next := at, number := k, jobs := s.jobs + {Job(k, Max(now, at))}, clock := now)
  }

  ghost function SweepAndSchedule(n: Net, s: State, now: int, later: int): State {
    Schedule(Sweep(n, s, now), later)
  }

  ghost function EnsureSweepScheduled(n: Net, s: State, now: int, later: int): State {
    if !s.scheduler || s.started then s else SweepAndSchedule(n, s.(started := true), now, later)
  }

  /** The scheduler runs a job; only the one with the current number does anything. */
  ghost function RunJob(n: Net, s: State, j: Job, now: int, later: int): State {
    var s1 := s.(jobs := s.jobs - {j});
    if j.number != s.number then s1.(clock := now) else SweepAndSchedule(n, s1, now, later)
  }

  function UntilOf(m: BanMap, sub: Subnet): int { if sub in m then m[sub].until else 0 }

  /** The locked part of banning. A ban that is no longer than the one there changes
      nothing, but a subnet without a ban gets an empty entry all the same. */
  function Ban(s: State, sub: Subnet, entry: Entry, now: int): State {
    if UntilOf(s.banned, sub) < entry.until then
      var s1 := s.(banned := s.banned[sub := entry], dirty := true, clock := now);
      if s.started && entry.until < s.next then Enqueue(s1, entry.until, now) else s1
    else if sub in s.banned then s.(clock := now)
    else s.(banned := s.banned[sub := DEFAULT_ENTRY], clock := now)
  }

  /** When a ban ends. */
  function BanEnd(offset: int, sinceEpoch: bool, standard: int, now: int): int {
    if offset <= 0 then now + standard else if sinceEpoch then offset else now + offset
  }

  /** A ban holds from then on until its end, or for as long as the ban that was there; the
      bans on other subnets are as they were. */
  lemma BanHolds(n: Net, s: State, sub: Subnet, entry: Entry, now: int, last: int, other: Subnet, t: int)
    requires n.valid(other) && last <= t && 0 <= t
    ensures var banned := Ban(s, sub, entry, now).banned;
            && (IsSubnetBanned(banned, other, t) <==>
                IsSubnetBanned(s.banned, other, t) || (other == sub && t < entry.until))
            && (IsSubnetBanned(Swept(n, banned, last), other, t) <==> IsSubnetBanned(banned, other, t))
  {
  }

  lemma BanLasts(n: Net, s: State, sub: Subnet, entry: Entry, now: int, last: int)
    requires n.valid(sub)
    ensures var banned := Ban(s, sub, entry, now).banned;
            forall t :: Max(last, 0) <= t ==>
              && (IsSubnetBanned(banned, sub, t) <==> IsSubnetBanned(s.banned, sub, t) || t < entry.until)
              && (IsSubnetBanned(Swept(n, banned, last), sub, t) <==> IsSubnetBanned(banned, sub, t))
  {
    var banned := Ban(s, sub, entry, now).banned;
    forall t | Max(last, 0) <= t
      ensures IsSubnetBanned(banned, sub, t) <==> IsSubnetBanned(s.banned, sub, t) || t < entry.until
      ensures IsSubnetBanned(Swept(n, banned, last), sub, t) <==> IsSubnetBanned(banned, sub, t)
    {
      BanHolds(n, s, sub, entry, now, last, sub, t);
    }
  }

  function Unban(s: State, sub: Subnet): State {
    if sub in s.banned then s.(banned := s.banned - {sub}, dirty := true) else s
  }

  function Clear(s: State): State { s.(banned := map[], dirty := true) }

  /** A dump begins: it takes its copy. */
  function BeginDump(n: Net, s: State, now: int): State {
    var s1 := Sweep(n, s, now);
    if s1.dirty then s1.(dump := Some(s1.banned), dirty := false) else s1
  }

  /** A dump ends; a failed one leaves anything on the disk. */
  function EndDump(s: State, ok: bool, junk: BanMap): State
    requires s.dump.Some?
  {
    if ok then s.(disk := s.dump.value, dump := None) else s.(disk := junk, dump := None, dirty := true)
  }

  /** Starting up: the list is read from the disk, if it can be. */
  function Load(n: Net, disk: BanMap, readable: bool, now: int): State {
    var empty := State(map[], false, false, false, MAX_TIME, 0, {}, disk, None, now);
    if readable then Sweep(n, empty.(banned := disk), now) else empty.(dirty := true)
  }

  // ----- questions

  ghost predicate IsBanned(n: Net, m: BanMap, a: Address, now: int) {
    exists s :: s in m && now < m[s].until && n.matches(s, a)
  }

  predicate IsSubnetBanned(m: BanMap, sub: Subnet, now: int) { sub in m && now < m[sub].until }

  // ----- runs

  datatype Action =
    | SetScheduler
    | StartSweeping(now: int, later: int)
    | Fire(job: Job, now: int, later: int)
    | AddBan(sub: Subnet, entry: Entry, now: int)
    | RemoveBan(sub: Subnet)
    | ClearAll
    | List(now: int)
    | DumpStart(now: int)
    | DumpFinish(ok: bool, junk: BanMap)

  /** Time never goes back, a job runs when it is due, and one dump at a time. */
  predicate Enabled(s: State, a: Action) {
    match a
    case SetScheduler => true
    case StartSweeping(now, later) => s.clock <= now <= later
    case Fire(job, now, later) => job in s.jobs && job.due <= now && s.clock <= now <= later
    case AddBan(_, _, now) => s.clock <= now
    case RemoveBan(_) => true
    case ClearAll => true
    case List(now) => s.clock <= now
    case DumpStart(now) => s.dump.None? && s.clock <= now
    case DumpFinish(_, _) => s.dump.Some?
  }

  ghost function Apply(n: Net, s: State, a: Action): State
    requires Enabled(s, a)
  {
    match a
    case SetScheduler => s.(scheduler := true)
    case StartSweeping(now, later) => EnsureSweepScheduled(n, s, now, later)
    case Fire(job, now, later) => RunJob(n, s, job, now, later)
    case AddBan(sub, entry, now) => Ban(s, sub, entry, now)
    case RemoveBan(sub) => Unban(s, sub)
    case ClearAll => Clear(s)
    case List(now) => Sweep(n, s, now)
    case DumpStart(now) => BeginDump(n, s, now)
    case DumpFinish(ok, junk) => EndDump(s, ok, junk)
  }

  ghost predicate CanRun(n: Net, s: State, run: seq<Action>)
    decreases |run|
  {
    |run| == 0 || (Enabled(s, run[0]) && CanRun(n, Apply(n, s, run[0]), run[1..]))
  }

  ghost function Run(n: Net, s: State, run: seq<Action>): State
    requires CanRun(n, s, run)
    decreases |run|
  {
    if |run| == 0 then s else Run(n, Apply(n, s, run[0]), run[1..])
  }
}
