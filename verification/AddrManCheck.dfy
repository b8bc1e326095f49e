/**
 CheckAddrman, the run-time consistency check: it returns 0 exactly on
 consistent states, and the index invariant implies consistency.
 */
module AddrManCheck {
  import opened AddrManState
  import opened AddrManInvariant
  import opened AddrManSteps
  import opened AddrManImpl

  /** What the check demands of one entry. */
  predicate EntryOk(m: map<int, Info>, byAddr: map<Service, int>, v: seq<int>, id: int)
    requires id in m
  {
    var info := m[id];
    && (if info.inTried then info.lastSuccess != 0 && info.refCount == 0
        else 0 < info.refCount <= NEW_BUCKETS_PER_ADDRESS)
    && info.addr in byAddr && byAddr[info.addr] == id
    && 0 <= info.randomPos < |v| && v[info.randomPos] == id
    && info.lastTry >= 0 && info.lastSuccess >= 0
  }

  ghost predicate EntriesOk(m: map<int, Info>, byAddr: map<Service, int>, v: seq<int>) {
    forall id :: id in m ==> EntryOk(m, byAddr, v, id)
  }

  ghost function NewIds(m: map<int, Info>): set<int> { set id | id in m && !m[id].inTried }

  ghost predicate NewRefsExact(m: map<int, Info>, table: map<Slot, int>) {
    forall id :: id in m && !m[id].inTried ==> m[id].refCount == |Refs(table, id)|
  }

  ghost function Networks(e: Env, m: map<int, Info>): set<Network> {
    set id | id in m :: NetOf(e, m[id].addr)
  }

  ghost function OfNet(e: Env, m: map<int, Info>, net: Network, inTried: bool): set<int> {
    set id | id in m && m[id].inTried == inTried && NetOf(e, m[id].addr) == net
  }

  ghost function Tally(e: Env, m: map<int, Info>, net: Network): Counts {
    Counts(|OfNet(e, m, net, false)|, |OfNet(e, m, net, true)|)
  }

  ghost predicate CountsOk(e: Env, m: map<int, Info>, counts: map<Network, Counts>) {
    && |counts| >= |Networks(e, m)|
    && forall net :: net in counts ==> counts[net] == Tally(e, m, net)
  }

  ghost predicate Consistent(e: Env, s: State) {
    && |s.vRandom| == s.nTried + s.nNew
    && EntriesOk(s.mapInfo, s.mapAddr, s.vRandom)
    && s.nTried == |TriedIds(s.mapInfo)| && s.nNew == |NewIds(s.mapInfo)|
    && TriedIndexed(e, s.key, Addrs(s.mapInfo), TriedIds(s.mapInfo), s.vvTried)
    && NewIndexed(e, s.key, Addrs(s.mapInfo), TriedIds(s.mapInfo), s.vvNew)
    && NewRefsExact(s.mapInfo, s.vvNew)
    && s.key != 0
    && CountsOk(e, s.mapInfo, s.counts)
  }

  // ----- the loop over the entries

  ghost function Below(m: map<int, Info>, done: set<int>): map<int, Info> {
    map id | id in m && id in done :: m[id]
  }

  ghost function NewRefCounts(m: map<int, Info>): map<int, int> {
    map id | id in m && !m[id].inTried :: m[id].refCount
  }

  /** What the loop has gathered about the entries `m`. */
  ghost predicate Gathered(e: Env, m: map<int, Info>, setTried: set<int>, mapNew: map<int, int>,
                           local: map<Network, Counts>) {
    && setTried == TriedIds(m)
    && mapNew == NewRefCounts(m)
    && local.Keys == Networks(e, m)
    && forall net :: CountOf(local, net) == Tally(e, m, net)
  }

  lemma GatherNext(e: Env, m: map<int, Info>, done: set<int>, id: int,
                   setTried: set<int>, mapNew: map<int, int>, local: map<Network, Counts>)
    requires id in m && id !in done && Gathered(e, Below(m, done), setTried, mapNew, local)
    ensures var info := m[id];
            if info.inTried
            then Gathered(e, Below(m, done + {id}), setTried + {id}, mapNew, Bump(local, NetOf(e, info.addr), 0, 1))
            else Gathered(e, Below(m, done + {id}), setTried, mapNew[id := info.refCount],
                          Bump(local, NetOf(e, info.addr), 1, 0))
  {
    var m0, m1 := Below(m, done), Below(m, done + {id});
    TallyNext(e, m, done, id);
    FieldsOfUpdate(m0, id, m[id]);
    NewRefCountsNext(m0, id, m[id]);
    assert TriedIds(m1) == if m[id].inTried then TriedIds(m0) + {id} else TriedIds(m0);
  }

  lemma NewRefCountsNext(m: map<int, Info>, id: int, info: Info)
    requires id !in m
    ensures NewRefCounts(m[id := info]) ==
            if info.inTried then NewRefCounts(m) else NewRefCounts(m)[id := info.refCount]
  {
  }

  method CheckEntry(m: map<int, Info>, byAddr: map<Service, int>, v: seq<int>, id: int) returns (code: int)
    requires id in m
    ensures code == 0 <==> EntryOk(m, byAddr, v, id)
  {
    var info := m[id];
    if info.inTried {
      if info.lastSuccess == 0 { return -1; }
      if info.refCount != 0 { return -2; }
    } else {
      if info.refCount < 0 || info.refCount > NEW_BUCKETS_PER_ADDRESS { return -3; }
      if info.refCount == 0 { return -4; }
    }
    if info.addr !in byAddr || byAddr[info.addr] != id { return -5; }
    if info.randomPos < 0 || info.randomPos >= |v| || v[info.randomPos] != id { return -14; }
    if info.lastTry < 0 { return -6; }
    if info.lastSuccess < 0 { return -8; }
    return 0;
  }

  method Gather(e: Env, m: map<int, Info>, ghost done: set<int>, id: int,
                setTried: set<int>, mapNew: map<int, int>, local: map<Network, Counts>)
    returns (setTried': set<int>, mapNew': map<int, int>, local': map<Network, Counts>)
    requires id in m && id !in done && Gathered(e, Below(m, done), setTried, mapNew, local)
    ensures Gathered(e, Below(m, done + {id}), setTried', mapNew', local')
  {
    GatherNext(e, m, done, id, setTried, mapNew, local);
    setTried', mapNew' := setTried, mapNew;
    if m[id].inTried {
      setTried' := setTried + {id};
      local' := Bump(local, NetOf(e, m[id].addr), 0, 1);
    } else {
      mapNew' := mapNew[id := m[id].refCount];
      local' := Bump(local, NetOf(e, m[id].addr), 1, 0);
    }
  }

  lemma GatherEnds(e: Env, m: map<int, Info>)
    ensures Below(m, m.Keys) == m
    ensures Gathered(e, Below(m, {}), {}, map[], map[])
  {
    assert Below(m, {}) == map[];
    assert forall net, t :: OfNet(e, map[], net, t) == {};
  }

  method CheckEntries(e: Env, m: map<int, Info>, byAddr: map<Service, int>, v: seq<int>)
    returns (code: int, setTried: set<int>, mapNew: map<int, int>, local: map<Network, Counts>)
    ensures code == 0 <==> EntriesOk(m, byAddr, v)
    ensures code == 0 ==> Gathered(e, m, setTried, mapNew, local)
  {
    GatherEnds(e, m);
    code, setTried, mapNew, local := 0, {}, map[], map[];
    var todo := m.Keys;
    ghost var done: set<int> := {};
    while |todo| != 0
      invariant todo !! done && todo + done == m.Keys && code == 0
      invariant forall id :: id in done ==> EntryOk(m, byAddr, v, id)
      invariant Gathered(e, Below(m, done), setTried, mapNew, local)
    {
      HasElement(todo);
      var id :| id in todo;
      code := CheckEntry(m, byAddr, v, id);
      if code != 0 { return; }
      setTried, mapNew, local := Gather(e, m, done, id, setTried, mapNew, local);
      todo := todo - {id};
      done := done + {id};
    }
    assert done == m.Keys;
  }

  lemma TallyNext(e: Env, m: map<int, Info>, done: set<int>, id: int)
    requires id in m && id !in done
    ensures Below(m, done + {id}) == Below(m, done)[id := m[id]]
    ensures Networks(e, Below(m, done + {id})) == Networks(e, Below(m, done)) + {NetOf(e, m[id].addr)}
    ensures forall net :: Tally(e, Below(m, done + {id}), net) ==
              if net != NetOf(e, m[id].addr) then Tally(e, Below(m, done), net)
              else if m[id].inTried then 
                Counts(Tally(e, Below(m, done), net).nNew, Tally(e, Below(m, done), net).nTried + 1)
              else Counts(Tally(e, Below(m, done), net).nNew + 1, Tally(e, Below(m, done), net).nTried)
  {
    var m0, m1 := Below(m, done), Below(m, done + {id});
    assert m1 == m0[id := m[id]];
    forall net
      ensures Tally(e, m1, net) ==
              if net != NetOf(e, m[id].addr) then Tally(e, m0, net)
              else if m[id].inTried then Counts(Tally(e, m0, net).nNew, Tally(e, m0, net).nTried + 1)
              else Counts(Tally(e, m0, net).nNew + 1, Tally(e, m0, net).nTried)
    {
      CardFollows(OfNet(e, m0, net, false), OfNet(e, m1, net, false), id);
      CardFollows(OfNet(e, m0, net, true), OfNet(e, m1, net, true), id);
    }
  }

  // ----- the loops over the tables

  predicate Before(k: Slot, n: nat, i: nat) { k.bucket < n || (k.bucket == n && k.pos < i) }

  /** The part of a table that the double loop has passed at (n, i). */
  ghost function Passed(table: map<Slot, int>, n: nat, i: nat): map<Slot, int> {
    map k | k in table && Before(k, n, i) :: table[k]
  }

  lemma PassNext(table: map<Slot, int>, n: nat, i: nat)
    ensures var k := Slot(n, i);
            && k !in Passed(table, n, i)
            && Passed(table, n, i + 1) == if k in table then Passed(table, n, i)[k := table[k]] else Passed(table, n, i)
  {
    var k := Slot(n, i);
    forall j | j in table ensures Before(j, n, i + 1) <==> Before(j, n, i) || j == k {}
  }

  lemma PassRow(table: map<Slot, int>, n: nat, width: nat)
    requires forall k :: k in table ==> k.pos < width
    ensures Passed(table, n + 1, 0) == Passed(table, n, width)
  {
  }

  lemma PassAll(table: map<Slot, int>, height: nat)
    requires forall k :: k in table ==> k.bucket < height
    ensures Passed(table, height, 0) == table
  {
  }

  ghost predicate TriedOk(e: Env, key: nat, m: map<int, Info>, k: Slot, id: int) {
    id in m && m[id].inTried && k == TriedSlot(e, key, m[id].addr)
  }

  ghost predicate AllTriedOk(e: Env, key: nat, m: map<int, Info>, table: map<Slot, int>) {
    forall k :: k in table ==> TriedOk(e, key, m, k, table[k])
  }

  lemma TriedBad(e: Env, key: nat, m: map<int, Info>, table: map<Slot, int>, part: map<Slot, int>, k: Slot)
    requires k in table && k !in part && AllTriedOk(e, key, m, part)
    requires table[k] !in TriedIds(m) - part.Values || !TriedOk(e, key, m, k, table[k])
    ensures !TriedIndexed(e, key, Addrs(m), TriedIds(m), table)
  {
    var id := table[k];
    if id in part.Values {
      var j :| j in part && part[j] == id;
      assert TriedOk(e, key, m, j, part[j]);
    }
  }

  lemma TriedDone(e: Env, key: nat, m: map<int, Info>, table: map<Slot, int>)
    requires AllTriedOk(e, key, m, table)
    ensures TriedIds(m) - table.Values == {} <==> TriedIndexed(e, key, Addrs(m), TriedIds(m), table)
  {
    if TriedIds(m) - table.Values == {} {
      forall id | id in TriedIds(m)
        ensures TriedSlot(e, key, Addrs(m)[id]) in table && table[TriedSlot(e, key, Addrs(m)[id])] == id
      {
        assert id !in TriedIds(m) - table.Values;
        var k :| k in table && table[k] == id;
        assert TriedOk(e, key, m, k, id);
      }
      assert forall k :: k in table ==> TriedOk(e, key, m, k, table[k]);
    }
    if TriedIndexed(e, key, Addrs(m), TriedIds(m), table) {
      forall id | id in TriedIds(m) ensures id in table.Values {
        assert id in Addrs(m) && TriedSlot(e, key, Addrs(m)[id]) in table;
      }
    }
  }

  method CheckTried(e: Env, key: nat, m: map<int, Info>, vvTried: array2<int>, setTried: set<int>)
    returns (code: int, rest: set<int>)
    requires setTried == TriedIds(m)
    ensures code == 0 && rest == {} <==> TriedIndexed(e, key, Addrs(m), TriedIds(m), Table(vvTried))
  {
    code, rest := 0, setTried;
    ghost var table := Table(vvTried);
    assert Passed(table, 0, 0) == map[];
    for n := 0 to vvTried.Length0
      invariant code == 0 && rest == TriedIds(m) - Passed(table, n, 0).Values
      invariant AllTriedOk(e, key, m, Passed(table, n, 0))
    {
      for i := 0 to vvTried.Length1
        invariant code == 0 && rest == TriedIds(m) - Passed(table, n, i).Values
        invariant AllTriedOk(e, key, m, Passed(table, n, i))
      {
        PassNext(table, n, i);
        TableAt(vvTried, n, i);
        var id := vvTried[n, i];
        if id != VACANT {
          if id !in rest { code := -11; }
          else if e.triedBucket(key, m[id].addr) != n { code := -17; }
          else if e.position(key, false, n, m[id].addr) != i { code := -18; }
          if code != 0 {
            TriedBad(e, key, m, table, Passed(table, n, i), Slot(n, i));
            return;
          }
          ValuesNext(Passed(table, n, i), Slot(n, i), id);
          rest := rest - {id};
        }
      }
      PassRow(table, n, vvTried.Length1);
    }
    PassAll(table, vvTried.Length0);
    TriedDone(e, key, m, table);
  }

  lemma ValuesNext(part: map<Slot, int>, k: Slot, id: int)
    requires k !in part
    ensures part[k := id].Values == part.Values + {id}
  {
    forall x | x in part.Values + {id} ensures x in part[k := id].Values {
      if x == id {
        assert part[k := id][k] == id;
      } else {
        var j :| j in part && part[j] == x;
        assert part[k := id][j] == x;
      }
    }
  }

  ghost predicate NewOk(e: Env, key: nat, m: map<int, Info>, k: Slot, id: int) {
    id in m && !m[id].inTried && k.bucket < NEW_BUCKET_COUNT && k == NewSlotIn(e, key, m[id].addr, k.bucket)
  }

  ghost predicate AllNewOk(e: Env, key: nat, m: map<int, Info>, table: map<Slot, int>) {
    forall k :: k in table ==> NewOk(e, key, m, k, table[k])
  }

  /** `rest` maps each new entry to the references the passed part of the table
      does not account for, and drops it when there are none. */
  ghost predicate Remaining(m: map<int, Info>, part: map<Slot, int>, rest: map<int, int>) {
    && (forall id :: id in rest ==> id in m && !m[id].inTried && rest[id] == m[id].refCount - |Refs(part, id)| > 0)
    && (forall id :: id in m && !m[id].inTried && id !in rest ==> m[id].refCount == |Refs(part, id)|)
  }

  lemma RemainingNext(m: map<int, Info>, part: map<Slot, int>, k: Slot, id: int, rest: map<int, int>)
    requires k !in part && Remaining(m, part, rest) && id in rest
    ensures Remaining(m, part[k := id], if rest[id] == 1 then rest - {id} else rest[id := rest[id] - 1])
  {
    var rest' := if rest[id] == 1 then rest - {id} else rest[id := rest[id] - 1];
    forall i | i in m && !m[i].inTried
      ensures if i in rest' then rest'[i] == m[i].refCount - |Refs(part[k := id], i)| > 0
              else m[i].refCount == |Refs(part[k := id], i)|
    {
      RefsOfInsertion(part, k, id, i);
    }
  }

  lemma NewBad(e: Env, key: nat, m: map<int, Info>, table: map<Slot, int>, part: map<Slot, int>, k: Slot,
               rest: map<int, int>)
    requires k in table && k !in part && Remaining(m, part, rest)
    requires forall j :: j in part ==> j in table && part[j] == table[j]
    requires table[k] !in rest || !NewOk(e, key, m, k, table[k])
    ensures !(NewIndexed(e, key, Addrs(m), TriedIds(m), table) && NewRefsExact(m, table))
  {
    var id := table[k];
    assert Refs(part, id) + {k} <= Refs(table, id);
    CardLess(Refs(part, id), Refs(table, id), k);
  }

  lemma HasNetwork(a: set<Network>)
    requires |a| != 0
    ensures exists x :: x in a
  {
  }

  lemma CardLess(a: set<Slot>, b: set<Slot>, k: Slot)
    requires a + {k} <= b && k !in a
    ensures |a| < |b|
  {
    assert b == a + {k} + (b - a - {k});
  }

  lemma NewDone(e: Env, key: nat, m: map<int, Info>, table: map<Slot, int>, rest: map<int, int>)
    requires AllNewOk(e, key, m, table) && Remaining(m, table, rest)
    ensures rest == map[] <==> NewIndexed(e, key, Addrs(m), TriedIds(m), table) && NewRefsExact(m, table)
  {
    assert forall k :: k in table ==> NewOk(e, key, m, k, table[k]);
    if |rest.Keys| != 0 {
      HasElement(rest.Keys);
    }
  }

  method CheckNew(e: Env, key: nat, m: map<int, Info>, vvNew: array2<int>, mapNew: map<int, int>)
    returns (code: int, rest: map<int, int>)
    requires vvNew.Length0 == NEW_BUCKET_COUNT
    requires mapNew == NewRefCounts(m) && forall id :: id in mapNew ==> mapNew[id] > 0
    ensures code == 0 && rest == map[] <==>
              NewIndexed(e, key, Addrs(m), TriedIds(m), Table(vvNew)) && NewRefsExact(m, Table(vvNew))
  {
    code, rest := 0, mapNew;
    ghost var table := Table(vvNew);
    assert Passed(table, 0, 0) == map[];
    assert forall id :: Refs(map[], id) == {};
    for n := 0 to vvNew.Length0
      invariant code == 0 && Remaining(m, Passed(table, n, 0), rest)
      invariant AllNewOk(e, key, m, Passed(table, n, 0))
    {
      for i := 0 to vvNew.Length1
        invariant code == 0 && Remaining(m, Passed(table, n, i), rest)
        invariant AllNewOk(e, key, m, Passed(table, n, i))
      {
        PassNext(table, n, i);
        TableAt(vvNew, n, i);
        var id := vvNew[n, i];
        if id != VACANT {
          if id !in rest { code := -12; }
          else if e.position(key, true, n, m[id].addr) != i { code := -19; }
          if code != 0 {
            NewBad(e, key, m, table, Passed(table, n, i), Slot(n, i), rest);
            return;
          }
          RemainingNext(m, Passed(table, n, i), Slot(n, i), id, rest);
          rest := if rest[id] == 1 then rest - {id} else rest[id := rest[id] - 1];
        }
      }
      PassRow(table, n, vvNew.Length1);
    }
    PassAll(table, vvNew.Length0);
    NewDone(e, key, m, table, rest);
  }

  // ----- the check

  method CheckCounts(e: Env, m: map<int, Info>, counts: map<Network, Counts>, local: map<Network, Counts>)
    returns (code: int)
    requires local.Keys == Networks(e, m) && forall net :: CountOf(local, net) == Tally(e, m, net)
    ensures code == 0 <==> CountsOk(e, m, counts)
  {
    assert |counts| == |counts.Keys| && |local| == |local.Keys|;
    if |counts| < |local| { return -20; }
    var todo := counts.Keys;
    while |todo| != 0
      invariant todo <= counts.Keys
      invariant forall net :: net in counts && net !in todo ==> counts[net] == Tally(e, m, net)
    {
      HasNetwork(todo);
      var net :| net in todo;
      if CountOf(local, net) != counts[net] { return -21; }
      todo := todo - {net};
    }
    return 0;
  }

  /** CheckAddrman returns 0 exactly when the state is consistent. */
  method CheckAddrman(am: AddrMan) returns (code: int)
    requires am.Shaped()
    ensures code == 0 <==> Consistent(am.env, am.Snap())
  {
    if |am.vRandom| != am.nTried + am.nNew { return -7; }
    var setTried, mapNew, local;
    code, setTried, mapNew, local := CheckEntries(am.env, am.mapInfo, am.mapAddr, am.vRandom);
    if code != 0 { return; }
    if |setTried| != am.nTried { return -9; }
    assert mapNew.Keys == NewIds(am.mapInfo);
    if |mapNew| != am.nNew { return -10; }
    var restTried, restNew;
    code, restTried := CheckTried(am.env, am.nKey, am.mapInfo, am.vvTried, setTried);
    if code != 0 { return; }
    assert forall id :: id in mapNew ==> EntryOk(am.mapInfo, am.mapAddr, am.vRandom, id);
    code, restNew := CheckNew(am.env, am.nKey, am.mapInfo, am.vvNew, mapNew);
    if code != 0 { return; }
    if restTried != {} { return -13; }
    if restNew != map[] { return -15; }
    if am.nKey == 0 { return -16; }
    code := CheckCounts(am.env, am.mapInfo, am.networkCounts, local);
  }

  // ----- the invariant implies consistency

  lemma {:induction false} DistinctCard(v: seq<int>)
    requires forall i, j :: 0 <= i < j < |v| ==> v[i] != v[j]
    ensures |set x | x in v| == |v|
  {
    if |v| > 0 {
      var w := v[..|v| - 1];
      DistinctCard(w);
      assert (set x | x in v) == (set x | x in w) + {v[|v| - 1]};
    }
  }

  lemma RandomSize(m: map<int, Info>, v: seq<int>)
    requires RandomIndexed(Places(m), v)
    ensures |v| == |m.Keys|
  {
    var places := Places(m);
    forall i, j | 0 <= i < j < |v| ensures v[i] != v[j] {
      assert places[v[i]] == i && places[v[j]] == j;
    }
    DistinctCard(v);
    assert (set x | x in v) == m.Keys by {
      forall id | id in m.Keys ensures id in v {
        assert id in places && v[places[id]] == id;
      }
      forall id | id in v ensures id in m.Keys {
        var i :| 0 <= i < |v| && v[i] == id;
        assert id in places;
      }
    }
  }

  lemma TallyExact(e: Env, m: map<int, Info>, net: Network)
    ensures OfNet(e, m, net, false) == InNet(e, Addrs(m), Addrs(m).Keys - TriedIds(m) - {}, net)
    ensures OfNet(e, m, net, true) == InNet(e, Addrs(m), TriedIds(m), net)
  {
  }

  lemma CountsImplied(e: Env, s: State)
    requires NetExact(e, Addrs(s.mapInfo), Addrs(s.mapInfo).Keys - TriedIds(s.mapInfo) - {}, TriedIds(s.mapInfo),
                      s.counts)
    ensures CountsOk(e, s.mapInfo, s.counts)
  {
    forall net ensures CountOf(s.counts, net) == Tally(e, s.mapInfo, net) {
      TallyExact(e, s.mapInfo, net);
    }
    forall net | net in Networks(e, s.mapInfo) ensures net in s.counts.Keys {
      var id :| id in s.mapInfo && NetOf(e, s.mapInfo[id].addr) == net;
      assert id in OfNet(e, s.mapInfo, net, s.mapInfo[id].inTried);
      assert CountOf(s.counts, net) == Tally(e, s.mapInfo, net) != Counts(0, 0);
    }
    assert s.counts.Keys == Networks(e, s.mapInfo) + (s.counts.Keys - Networks(e, s.mapInfo));
  }

  lemma EntryImplied(e: Env, s: State, id: int)
    requires Core(e, s, {}, {}) && id in s.mapInfo
    ensures EntryOk(s.mapInfo, s.mapAddr, s.vRandom, id)
  {
    var m := s.mapInfo;
    PlaceOf(s, id);
    assert id in Addrs(m) && id in RefCounts(m);
    if m[id].inTried {
      assert id in TriedIds(m);
      TriedTarget(e, s, TriedSlot(e, s.key, Addrs(m)[id]), {}, {});
    }
  }

  lemma EntriesImplied(e: Env, s: State)
    requires Core(e, s, {}, {})
    ensures EntriesOk(s.mapInfo, s.mapAddr, s.vRandom)
  {
    forall id | id in s.mapInfo ensures EntryOk(s.mapInfo, s.mapAddr, s.vRandom, id) {
      EntryImplied(e, s, id);
    }
  }

  lemma SizesImplied(s: State)
    requires RandomIndexed(Places(s.mapInfo), s.vRandom)
    requires Totals(Addrs(s.mapInfo).Keys, TriedIds(s.mapInfo), {}, s.nNew, s.nTried)
    ensures |s.vRandom| == s.nTried + s.nNew
    ensures s.nTried == |TriedIds(s.mapInfo)| && s.nNew == |NewIds(s.mapInfo)|
  {
    var m := s.mapInfo;
    assert |s.vRandom| == |m.Keys| by { RandomSize(m, s.vRandom); }
    IdsSplit(m);
  }

  lemma IdsSplit(m: map<int, Info>)
    ensures NewIds(m) == Addrs(m).Keys - TriedIds(m) - {}
    ensures |m.Keys| == |NewIds(m)| + |TriedIds(m)|
  {
    assert m.Keys == NewIds(m) + TriedIds(m);
  }

  lemma RefsImplied(m: map<int, Info>, table: map<Slot, int>)
    requires RefsExact(RefCounts(m), table)
    ensures NewRefsExact(m, table)
  {
    forall id | id in m ensures m[id].refCount == |Refs(table, id)| { assert id in RefCounts(m); }
  }

  /** In every state the address manager can reach, CheckAddrman returns 0. */
  lemma InvIsConsistent(e: Env, s: State)
    requires Inv(e, s)
    ensures Consistent(e, s)
  {
    SizesImplied(s);
    EntriesImplied(e, s);
    RefsImplied(s.mapInfo, s.vvNew);
    CountsImplied(e, s);
  }
}
