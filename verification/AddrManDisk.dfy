/**
 The disk format of the address manager, as a sequence of typed tokens: what
 Serialize writes and how Unserialize rebuilds the indexes from it.
 */
module AddrManDisk {
  import opened AddrManCheck
  import opened AddrManState
  import opened Helpers

  const FILE_FORMAT: int := 4
  const V1_DETERMINISTIC: int := 1
  const V2_ASMAP: int := 2
  const INCOMPATIBILITY_BASE: int := 32
  const BIT30: int := 0x4000_0000

  /** The fields of an entry that reach the disk. */
  datatype Record = Record(addr: Service, services: set<nat>, time: int, source: NetAddr, lastSuccess: int,
      attempts: int)

  datatype Token = Num(n: int) | Key(key: nat) | Entry(rec: Record) | Checksum(hash: nat)

  datatype Loaded = Ok(state: State) | Corrupt | WrongVersion

  function RecordOf(info: Info): Record {
    Record(info.addr, info.services, info.time, info.source, info.lastSuccess, info.attempts)
  }

  /** A record read back: the fields that are kept in memory only start anew. */
  function FromRecord(r: Record): Info {
    Info(r.addr, r.services, r.time, r.source, 0, 0, r.lastSuccess, r.attempts, 0, false, -1)
  }

  /** n ^ (1 << 30). */
  function FlipBit30(n: int): int {
    if (n / BIT30) % 2 == 1 then n - BIT30 else n + BIT30
  }

  // ----- writing

  /** The entries with a reference, and the tried entries, in the order of the walk. */
  function NewOrder(s: State, order: seq<int>): seq<int> {
    if |order| == 0 then [] else
      var rest := NewOrder(s, order[..|order| - 1]);
      var id := order[|order| - 1];
      if s.At(id).refCount != 0 then rest + [id] else rest
  }

  function TriedOrder(s: State, order: seq<int>): seq<int> {
    if |order| == 0 then [] else
      var rest := TriedOrder(s, order[..|order| - 1]);
      var id := order[|order| - 1];
      if s.At(id).inTried then rest + [id] else rest
  }

  function EntryTokens(s: State, ids: seq<int>): seq<Token> {
    seq(|ids|, i requires 0 <= i < |ids| => Entry(RecordOf(s.At(ids[i]))))
  }

  /** The place of an id in a sequence of ids. */
  function IndexIn(ids: seq<int>, id: int): (i: nat)
    ensures i <= |ids| && (i < |ids| ==> ids[i] == id) && (id in ids ==> i < |ids|)
  {
    if |ids| == 0 then 0 else if ids[0] == id then 0 else 1 + IndexIn(ids[1..], id)
  }

  /** The occupied slots of a bucket from position `i` on. */
  function RowSlots(table: map<Slot, int>, bucket: nat, i: nat): seq<Slot>
    decreases BUCKET_SIZE - i, bucket
  {
    if i >= BUCKET_SIZE then [] else
      (if Slot(bucket, i) in table then [Slot(bucket, i)] else []) + RowSlots(table, bucket, i + 1)
  }

  function IndexToken(table: map<Slot, int>, ids: seq<int>, k: Slot): Token {
    Num(if k in table then IndexIn(ids, table[k]) else 0)
  }

  function IndexTokens(table: map<Slot, int>, ids: seq<int>, slots: seq<Slot>): seq<Token> {
    seq(|slots|, i requires 0 <= i < |slots| => IndexToken(table, ids, slots[i]))
  }

  function RowTokens(table: map<Slot, int>, ids: seq<int>, bucket: nat): seq<Token> {
    var slots := RowSlots(table, bucket, 0);
    [Num(|slots|)] + IndexTokens(table, ids, slots)
  }

  function BucketTokens(table: map<Slot, int>, ids: seq<int>, bucket: nat): seq<Token>
    decreases NEW_BUCKET_COUNT - bucket, |table|
  {
    if bucket >= NEW_BUCKET_COUNT then [] else
      RowTokens(table, ids, bucket) + BucketTokens(table, ids, bucket + 1)
  }

  function HeaderTokens(s: State): seq<Token> {
    [Num(FILE_FORMAT), Num(INCOMPATIBILITY_BASE + FILE_FORMAT), Key(s.key), Num(s.nNew), Num(s.nTried),
     Num(FlipBit30(NEW_BUCKET_COUNT))]
  }

  /** The file for state `s`, when the entries are walked in `order`. */
  function Serialize(e: Env, s: State, order: seq<int>): seq<Token> {
    var ids := NewOrder(s, order);
    HeaderTokens(s) + (EntryTokens(s, ids) + (EntryTokens(s, TriedOrder(s, order)) +
      (BucketTokens(s.vvNew, ids, 0) + [Checksum(e.asmapChecksum)])))
  }

  // ----- reading

  /** An entry of the new table as it is read, before its references are. */
  function LoadNewEntry(e: Env, s: State, id: int, r: Record): State {
    s.(mapInfo := s.mapInfo[id := FromRecord(r).(randomPos := |s.vRandom|)],
       mapAddr := s.mapAddr[r.addr := id],
       vRandom := s.vRandom + [id],
       counts := Bump(s.counts, NetOf(e, r.addr), 1, 0))
  }

  function LoadNew(e: Env, s: State, toks: seq<Token>, n: nat, count: int): Option<(State, seq<Token>)>
    decreases |toks|
  {
    if n >= count then Some((s, toks))
    else if |toks| == 0 || !toks[0].Entry? then None
    else LoadNew(e, LoadNewEntry(e, s, n, toks[0].rec), toks[1..], n + 1, count)
  }

  function LoadTriedEntry(e: Env, s: State, r: Record): State {
    var id, k := s.nIdCount, TriedSlot(e, s.key, r.addr);
    s.(mapInfo := s.mapInfo[id := FromRecord(r).(randomPos := |s.vRandom|, inTried := true)],
       mapAddr := s.mapAddr[r.addr := id],
       vRandom := s.vRandom + [id],
       vvTried := s.vvTried[k := id],
       nIdCount := id + 1,
       counts := Bump(s.counts, NetOf(e, r.addr), 0, 1))
  }

  predicate TriedFits(e: Env, s: State, r: Record) {
    IsValidAddr(e, r.addr) && TriedSlot(e, s.key, r.addr) !in s.vvTried
  }

  function LoadTried(e: Env, s: State, toks: seq<Token>, n: nat, count: int): Option<(State, seq<Token>)>
    decreases |toks|
  {
    if n >= count then Some((s, toks))
    else if |toks| == 0 || !toks[0].Entry? then None
    else
      var r := toks[0].rec;
      LoadTried(e, if TriedFits(e, s, r) then LoadTriedEntry(e, s, r) else s.(nTried := s.nTried - 1),
                toks[1..], n + 1, count)
  }

  /** The (bucket, entry index) pairs of one bucket; indexes out of range are skipped. */
  function ReadRow(toks: seq<Token>, bucket: nat, n: nat, count: int, nNew: int, acc: seq<(nat, nat)>)
    : (r: Option<(seq<(nat, nat)>, seq<Token>)>)
    ensures r.Some? ==> |r.value.1| <= |toks|
    decreases |toks|
  {
    if n >= count then Some((acc, toks))
    else if |toks| == 0 || !toks[0].Num? then None
    else
      var i := toks[0].n;
      ReadRow(toks[1..], bucket, n + 1, count, nNew, if 0 <= i < nNew then acc + [(bucket, i)] else acc)
  }

  function ReadBuckets(toks: seq<Token>, bucket: nat, count: int, nNew: int, acc: seq<(nat, nat)>)
    : Option<(seq<(nat, nat)>, seq<Token>)>
    decreases |toks|
  {
    if bucket >= count then Some((acc, toks))
    else if |toks| == 0 || !toks[0].Num? then None
    else
      var row := ReadRow(toks[1..], bucket, 0, toks[0].n, nNew, acc);
      if row.None? then None
      else ReadBuckets(row.value.1, bucket + 1, count, nNew, row.value.0)
  }

  /** Give an entry its reference in the bucket it had, or else in the one its
      own source selects, if the position there is vacant. */
  function RestoreRef(e: Env, s: State, restore: bool, bucket: nat, id: int): State {
    var info := s.At(id);
    var k := NewSlotIn(e, s.key, info.addr, bucket);
    var home := NewSlot(e, s.key, info.addr, info.source);
    if !IsValidAddr(e, info.addr) || info.refCount >= NEW_BUCKETS_PER_ADDRESS then s
    else if restore && k !in s.vvNew then AddRef(s, k, id)
    else if home !in s.vvNew then AddRef(s, home, id)
    else s
  }

  function RestoreRefs(e: Env, s: State, restore: bool, entries: seq<(nat, nat)>): State {
    if |entries| == 0 then s else
      var t := RestoreRefs(e, s, restore, entries[..|entries| - 1]);
      var (bucket, id) := entries[|entries| - 1];
      RestoreRef(e, t, restore, bucket, id)
  }

  /** Delete the new entries that got no reference, walking the ids in `order`. */
  function Prune(e: Env, s: State, order: seq<int>): State
    decreases |order|
  {
    if |order| == 0 then s else
      var id := order[0];
      Prune(e, if id in s.mapInfo && !s.mapInfo[id].inTried && s.mapInfo[id].refCount == 0
               then Delete(e, s, id) else s, order[1..])
  }

  /** A file whose format this software is too old for. */
  predicate TooNew(toks: seq<Token>) {
    |toks| >= 2 && toks[0].Num? && toks[1].Num? && toks[1].n > INCOMPATIBILITY_BASE + FILE_FORMAT
  }

  /** What the header must be like for the entries to be read. */
  predicate HeaderOk(toks: seq<Token>) {
    && |toks| >= 6 && toks[0].Num? && toks[1].Num? && toks[2].Key? && toks[3].Num? && toks[4].Num? && toks[5].Num?
    && toks[1].n >= INCOMPATIBILITY_BASE && toks[1].n - INCOMPATIBILITY_BASE <= FILE_FORMAT
    && 0 <= toks[3].n <= NEW_BUCKET_COUNT * BUCKET_SIZE
    && 0 <= toks[4].n <= TRIED_BUCKET_COUNT * BUCKET_SIZE
  }

  /** The state before the entries are read. */
  function Blank(key: nat, nNew: int, nTried: int): State {
    Initial(key).(nNew := nNew, nTried := nTried)
  }

  /** Unserialize into a fresh manager; `prune` is the order in which the last
      walk over the entries happens to visit them. */
  ghost function Unserialize(e: Env, toks: seq<Token>, prune: seq<int>): Loaded {
    if TooNew(toks) then WrongVersion
    else if !HeaderOk(toks) then Corrupt
    else
      var format, nNew, nTried := toks[0].n, toks[3].n, toks[4].n;
      var nUBuckets := if format >= V1_DETERMINISTIC then FlipBit30(toks[5].n) else toks[5].n;
      var r1 := LoadNew(e, Blank(toks[2].key, nNew, nTried), toks[6..], 0, nNew);
      if r1.None? then Corrupt else
        var r2 := LoadTried(e, r1.value.0.(nIdCount := nNew), r1.value.1, 0, nTried);
        if r2.None? then Corrupt else
          var r3 := ReadBuckets(r2.value.1, 0, nUBuckets, nNew, []);
          if r3.None? then Corrupt else
            Finish(e, r2.value.0, r3.value.0, r3.value.1, format, nUBuckets, prune)
  }

  ghost function Finish(e: Env, s: State, entries: seq<(nat, nat)>, toks: seq<Token>, format: int, nUBuckets: int,
                        prune: seq<int>): Loaded
  {
    if format >= V2_ASMAP && (|toks| == 0 || !toks[0].Checksum?) then Corrupt else
      var serialized := if format >= V2_ASMAP then toks[0].hash else 0;
      var restore := nUBuckets == NEW_BUCKET_COUNT && serialized == e.asmapChecksum;
      var t := Prune(e, RestoreRefs(e, s, restore, entries), prune);
      if Consistent(e, t) then Ok(t) else Corrupt
  }
}
