/**
 The ban list as an object. Each method is one stretch under the mutex, except that
 `DumpBanlist` and the methods that end with it are the whole call when nothing else runs
 in between. A reading of the clock is an argument.
 */
module BanManImpl {
  import opened BanMan
  import opened Helpers

  lemma SameMap<K, V>(a: map<K, V>, b: map<K, V>)
    requires forall k :: k in a ==> k in b && a[k] == b[k]
    requires forall k :: k in b ==> k in a
    ensures a == b
  {
  }

  class BanList {
    const net: Net
    const standardBanTime: int

    var banned: BanMap
    var dirty: bool
    var scheduler: bool
    var started: bool
    var next: int
    var number: nat
    // the world: what the scheduler holds, what is on disk or on its way there, the time
    var jobs: set<Job>
    var disk: BanMap
    var dump: Option<BanMap>
    var clock: int

    ghost function Snapshot(): State
      reads this
    {
      State(banned, dirty, scheduler, started, next, number, jobs, disk, dump, clock)
    }

    constructor (net: Net, standardBanTime: int, stored: BanMap, readable: bool, now: int)
      ensures Snapshot() == Load(net, stored, readable, now)
      ensures this.net == net && this.standardBanTime == standardBanTime
    {
      this.net, this.standardBanTime := net, standardBanTime;
      banned, dirty := if readable then stored else map[], !readable;
      scheduler, started, next, number, jobs := false, false, MAX_TIME, 0, {};
      disk, dump, clock := stored, None, now;
      new;
      if readable { SweepBanned(now); }
    }

    method SetScheduler()
      modifies this
      ensures Snapshot() == old(Snapshot()).(scheduler := true)
    {
      scheduler := true;
    }

    /** Drops what is expired or not valid, one entry at a time. */
    method SweepBanned(now: int)
      modifies this
      ensures Snapshot() == Sweep(net, old(Snapshot()), now)
    {
      ghost var was := banned;
      var rest := banned.Keys;
      clock := now;
      while |rest| != 0
        invariant rest <= was.Keys && Snapshot() == old(Snapshot()).(banned := banned, dirty := dirty, clock := now)
        invariant forall s :: s in banned <==> s in was && (s in rest || Stays(was, s, now))
        invariant forall s :: s in banned ==> banned[s] == was[s]
        invariant dirty <==> old(dirty) || exists s :: s in was && s !in banned
        decreases |rest|
      {
        ghost var some := Pick(rest);
        var s: Subnet :| s in rest;
        rest := rest - {s};
        if !net.valid(s) || now >= banned[s].until {
          banned := banned - {s};
          dirty := true;
        }
      }
      WhatStays(was, banned, now);
    }

    lemma WhatStays(was: BanMap, m: BanMap, now: int)
      requires forall s :: s in m ==> s in was && Stays(was, s, now) && m[s] == was[s]
      requires forall s :: s in was && Stays(was, s, now) ==> s in m
      ensures m == Swept(net, was, now)
      ensures m != was <==> exists s :: s in was && s !in m
    {
      var kept := Swept(net, was, now);
      forall s | s in kept ensures s in m { assert Stays(was, s, now); }
      forall s | s in m ensures s in kept && m[s] == kept[s] { assert Stays(was, s, now); }
      SameMap(m, kept);
      if forall s :: s in was ==> s in m { SameMap(m, was); }
    }

    predicate Stays(m: BanMap, s: Subnet, now: int) { s in m && net.valid(s) && now < m[s].until }

    /** Schedules the next sweep for the earliest expiry. */
    method ScheduleNextSweep(now: int)
      modifies this
      ensures Snapshot() == Schedule(old(Snapshot()), now)
    {
      next, clock := MAX_TIME, now;
      if !scheduler || |banned| == 0 { return; }
      var earliest := FindEarliest();
      EarliestUnique(banned, earliest);
      AddJob(earliest, now);
    }

    method FindEarliest() returns (earliest: int)
      ensures IsEarliest(banned, earliest)
    {
      earliest := MAX_TIME;
      var rest := banned.Keys;
      while |rest| != 0
        invariant rest <= banned.Keys && earliest <= MAX_TIME
        invariant forall s :: s in banned ==> s in rest || earliest <= banned[s].until
        invariant earliest == MAX_TIME || exists s :: s in banned && banned[s].until == earliest
        decreases |rest|
      {
        ghost var some := Pick(rest);
        var s: Subnet :| s in rest;
        rest := rest - {s};
        if banned[s].until < earliest { earliest := banned[s].until; }
      }
    }

    method AddJob(at: int, now: int)
      modifies this
      ensures Snapshot() == Enqueue(old(Snapshot()), at, now)
    {
      next, number := at, number + 1;
      jobs := jobs + {Job(number, now + Max(0, at - now))};
      clock := now;
    }

    method SweepBannedAndSchedule(now: int, later: int)
      modifies this
      ensures Snapshot() == SweepAndSchedule(net, old(Snapshot()), now, later)
    {
      SweepBanned(now);
      ScheduleNextSweep(later);
    }

    method EnsureSweepScheduled(now: int, later: int)
      modifies this
      ensures Snapshot() == BanMan.EnsureSweepScheduled(net, old(Snapshot()), now, later)
    {
      if !scheduler || started { return; }
      started := true;
      SweepBannedAndSchedule(now, later);
    }

    /** The scheduler takes a job off its queue and runs it. */
    method Fire(job: Job, now: int, later: int)
      modifies this
      ensures Snapshot() == RunJob(net, old(Snapshot()), job, now, later)
    {
      jobs := jobs - {job};
      if job.number != number { clock := now; return; }
      SweepBannedAndSchedule(now, later);
    }

    /** The locked part of `BanSubnet`. */
    method AddBan(sub: Subnet, entry: Entry, now: int) returns (changed: bool)
      modifies this
      ensures Snapshot() == Ban(old(Snapshot()), sub, entry, now)
      ensures changed <==> UntilOf(old(banned), sub) < entry.until
    {
      clock := now;
      if sub !in banned { banned := banned[sub := DEFAULT_ENTRY]; }
      if banned[sub].until >= entry.until { return false; }
      banned := banned[sub := entry];
      assert banned == old(banned)[sub := entry];
      dirty := true;
      if started && entry.until < next { AddJob(entry.until, now); }
      return true;
    }

    method BanSubnet(sub: Subnet, offset: int, sinceEpoch: bool, created: int, now: int, later: int, last: int,
                     ok: bool, junk: BanMap)
      requires dump.None?
      modifies this
      ensures var e := Entry(created, BanEnd(offset, sinceEpoch, standardBanTime, now));
              var s := Ban(old(Snapshot()), sub, e, later);
              Snapshot() == if UntilOf(old(banned), sub) < e.until then Dumped(s, last, ok, junk) else s
      ensures net.valid(sub) ==>
              forall t :: Max(last, 0) <= t ==>
                (IsSubnetBanned(banned, sub, t) <==>
                 IsSubnetBanned(old(banned), sub, t) ||
                 t < if offset <= 0 then now + standardBanTime else if sinceEpoch then offset else now + offset)
    {
      if net.valid(sub) {
        BanLasts(net, Snapshot(), sub, Entry(created, BanEnd(offset, sinceEpoch, standardBanTime, now)), later, last);
      }
      var length, fixed := offset, sinceEpoch;
      if offset <= 0 { length, fixed := standardBanTime, false; }
      var changed := AddBan(sub, Entry(created, (if fixed then 0 else now) + length), later);
      if !changed { return; }
      DumpBanlist(last, ok, junk);
    }

    method UnbanSubnet(sub: Subnet, now: int, ok: bool, junk: BanMap) returns (found: bool)
      requires dump.None?
      modifies this
      ensures (found <==> sub in old(banned)) && sub !in banned
      ensures Snapshot() == if found then Dumped(Unban(old(Snapshot()), sub), now, ok, junk) else old(Snapshot())
    {
      if sub !in banned { return false; }
      banned, dirty := banned - {sub}, true;
      DumpBanlist(now, ok, junk);
      return true;
    }

    method ClearBanned(now: int, ok: bool, junk: BanMap)
      requires dump.None?
      modifies this
      ensures Snapshot() == Dumped(Clear(old(Snapshot())), now, ok, junk) && banned == map[]
    {
      banned, dirty := map[], true;
      DumpBanlist(now, ok, junk);
    }

    /** A dump from beginning to end. */
    function Dumped(s: State, now: int, ok: bool, junk: BanMap): State {
      var t := BeginDump(net, s, now);
      if t.dump.Some? then EndDump(t, ok, junk) else t
    }

    method StartDump(now: int)
      requires dump.None?
      modifies this
      ensures Snapshot() == BeginDump(net, old(Snapshot()), now)
    {
      SweepBanned(now);
      if !dirty { return; }
      dump, dirty := Some(banned), false;
    }

    method FinishDump(ok: bool, junk: BanMap)
      requires dump.Some?
      modifies this
      ensures Snapshot() == EndDump(old(Snapshot()), ok, junk)
    {
      if ok { disk := dump.value; } else { disk, dirty := junk, true; }
      dump := None;
    }

    method DumpBanlist(now: int, ok: bool, junk: BanMap)
      requires dump.None?
      modifies this
      ensures Snapshot() == Dumped(old(Snapshot()), now, ok, junk)
    {
      StartDump(now);
      if dump.Some? { FinishDump(ok, junk); }
    }

    method GetBanned(now: int) returns (m: BanMap)
      modifies this
      ensures Snapshot() == Sweep(net, old(Snapshot()), now) && m == banned
      ensures forall sub :: sub in m <==> net.valid(sub) && IsSubnetBanned(old(banned), sub, now)
    {
      SweepBanned(now);
      m := banned;
    }

    method IsAddressBanned(a: Address, now: int) returns (r: bool)
      ensures r <==> IsBanned(net, banned, a, now)
    {
      var rest := banned.Keys;
      while |rest| != 0
        invariant rest <= banned.Keys
        invariant forall s :: s in banned && s !in rest ==> !(now < banned[s].until && net.matches(s, a))
        decreases |rest|
      {
        ghost var some := Pick(rest);
        var s: Subnet :| s in rest;
        rest := rest - {s};
        if now < banned[s].until && net.matches(s, a) { return true; }
      }
      return false;
    }
  }
}
