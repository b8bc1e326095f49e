/**
 Two endpoints and what is on its way between them. Packets are sent and received in any
 order on both sides; at some point both may rekey, each at the same place in both
 streams of packets.
 */
module Bip324Runs {
  import opened Bip324
  import opened ChaCha20
  import opened Helpers

  datatype Message = Message(contents: Bytes, aad: Bytes, ignore: bool)

  /** What is on its way: packets, and the place where the sender rekeyed first. */
  datatype Item = Packet(wire: Bytes, sent: Message) | Boundary

  datatype Half = Half(end: Endpoint, out: seq<Item>, sent: seq<Message>, got: seq<Option<Message>>)

  datatype System = System(x: Half, y: Half)

  datatype Action = Send(message: Message) | Receive | RekeyFirst | RekeySecond | RekeyAgain(other: Bytes)

  // ----- steps of one half

  function Sending(p: Prims, me: Half, m: Message): Half
    requires |m.contents| <= MAX_CONTENTS
  {
    var k := me.end.send;
    me.(end := me.end.(send := After(p, k)),
        out := me.out + [Packet(PacketBytes(p, k, m.contents, m.aad, m.ignore), m)],
        sent := me.sent + [m])
  }

  /** What the receiver makes of the bytes: first the length, then the rest. */
  function Opened(p: Prims, k: Keys, wire: Bytes, aad: Bytes): Option<Message> {
    if |wire| < EXPANSION || OpenLength(p, k, wire[..LENGTH_LEN]) + EXPANSION != |wire| then None
    else
      match OpenPacket(p, k, wire[LENGTH_LEN..], aad)
      case None => None
      case Some((ignore, contents)) => Some(Message(contents, aad, ignore))
  }

  function Receiving(p: Prims, me: Half, item: Item): Half
    requires item.Packet?
  {
    me.(end := me.end.(recv := After(p, me.end.recv)), 
        got := me.got + [Opened(p, me.end.recv, item.wire, item.sent.aad)])
  }

  /** The first to rekey has received everything. The other sends nothing more, receives
      up to that place, and rekeys. */
  predicate Enabled(me: Half, peer: Half, a: Action) {
    match a
    case Send(m) => |m.contents| <= MAX_CONTENTS && Boundary !in peer.out
    case Receive => |peer.out| > 0 && peer.out[0].Packet?
    case RekeyFirst => !me.end.hybrid && !peer.end.hybrid && |peer.out| == 0
    case RekeySecond => |peer.out| > 0 && peer.out[0].Boundary?
    case RekeyAgain(_) => me.end.hybrid
  }

  function Step(p: Prims, mlkem: Bytes, me: Half, peer: Half, a: Action): (Half, Half)
    requires Enabled(me, peer, a)
  {
    match a
    case Send(m) => (Sending(p, me, m), peer)
    case Receive => (Receiving(p, me, peer.out[0]), peer.(out := peer.out[1..]))
    case RekeyFirst => (me.(end := Rekeyed(p, me.end, mlkem), out := me.out + [Boundary]), peer)
    case RekeySecond => (me.(end := Rekeyed(p, me.end, mlkem)), peer.(out := peer.out[1..]))
    case RekeyAgain(other) => (me.(end := Rekeyed(p, me.end, other)), peer)
  }

  /** An action, and which half does it. */
  type Turn = (bool, Action)

  predicate CanStep(s: System, t: Turn) { if t.0 then Enabled(s.x, s.y, t.1) else Enabled(s.y, s.x, t.1) }

  function Next(p: Prims, mlkem: Bytes, s: System, t: Turn): System
    requires CanStep(s, t)
  {
    if t.0 then
      var (me, peer) := Step(p, mlkem, s.x, s.y, t.1);
      System(me, peer)
    else
      var (me, peer) := Step(p, mlkem, s.y, s.x, t.1);
      System(peer, me)
  }

  predicate CanRun(p: Prims, mlkem: Bytes, s: System, run: seq<Turn>)
    decreases |run|
  {
    |run| == 0 || (CanStep(s, run[0]) && CanRun(p, mlkem, Next(p, mlkem, s, run[0]), run[1..]))
  }

  function Run(p: Prims, mlkem: Bytes, s: System, run: seq<Turn>): System
    requires CanRun(p, mlkem, s, run)
    decreases |run|
  {
    if |run| == 0 then s else Run(p, mlkem, Next(p, mlkem, s, run[0]), run[1..])
  }

  // ----- what holds

  /** Packets made under the keys that the receiver will have when they come, which end at
      the keys of the sender. After the boundary the keys are `renewed`. */
  ghost predicate Carries(p: Prims, recv: Keys, items: seq<Item>, send: Keys, renewed: Keys)
    decreases |items|
  {
    if |items| == 0 then recv == send
    else if items[0].Boundary? then Carries(p, renewed, items[1..], send, renewed)
    else
      var m := items[0].sent;
      && |m.contents| <= MAX_CONTENTS && items[0].wire == PacketBytes(p, recv, m.contents, m.aad, m.ignore)
      && Carries(p, After(p, recv), items[1..], send, renewed)
  }

  lemma {:induction false} CarriesMore(p: Prims, recv: Keys, items: seq<Item>, send: Keys, renewed: Keys, m: Message)
    requires Carries(p, recv, items, send, renewed) && |m.contents| <= MAX_CONTENTS
    ensures Carries(p, recv, items + [Packet(PacketBytes(p, send, m.contents, m.aad, m.ignore), m)], After(p, send),
            renewed)
    decreases |items|
  {
    var item := Packet(PacketBytes(p, send, m.contents, m.aad, m.ignore), m);
    if |items| == 0 {
      assert (items + [item])[1..] == [];
    } else {
      assert (items + [item])[1..] == items[1..] + [item];
      CarriesMore(p, if items[0].Boundary? then renewed else After(p, recv), items[1..], send, renewed, m);
    }
  }

  lemma {:induction false} CarriesBoundary(p: Prims, recv: Keys, items: seq<Item>, send: Keys, renewed: Keys, any: Keys)
    requires Carries(p, recv, items, send, any) && Boundary !in items
    ensures Carries(p, recv, items + [Boundary], renewed, renewed)
    decreases |items|
  {
    if |items| == 0 {
      assert (items + [Boundary])[1..] == [];
    } else {
      assert (items + [Boundary])[1..] == items[1..] + [Boundary];
      assert items[0] in items;
      CarriesBoundary(p, After(p, recv), items[1..], send, renewed, any);
    }
  }

  /** Without a boundary it does not matter what comes after one. */
  lemma {:induction false} CarriesAny(p: Prims, recv: Keys, items: seq<Item>, send: Keys, a: Keys, b: Keys)
    requires Carries(p, recv, items, send, a) && Boundary !in items
    ensures Carries(p, recv, items, send, b)
    decreases |items|
  {
    if |items| > 0 {
      assert items[0] in items;
      CarriesAny(p, After(p, recv), items[1..], send, a, b);
    }
  }

  function InFlight(items: seq<Item>): seq<Message> {
    if |items| == 0 then []
    else (if items[0].Packet? then [items[0].sent] else []) + InFlight(items[1..])
  }

  lemma {:induction false} InFlightSnoc(items: seq<Item>, item: Item)
    ensures InFlight(items + [item]) == InFlight(items) + if item.Packet? then [item.sent] else []
  {
    var more := items + [item];
    if |items| == 0 {
      assert more[1..] == [];
      assert InFlight(items) == [];
    } else {
      var rest := items[1..];
      assert more[1..] == rest + [item] && more[0] == items[0];
      var head := if items[0].Packet? then [items[0].sent] else [];
      assert InFlight(more) == head + InFlight(rest + [item]);
      InFlightSnoc(rest, item);
    }
  }

  function Somes(m: seq<Message>): (r: seq<Option<Message>>)
    ensures |r| == |m|
  {
    seq(|m|, i requires 0 <= i < |m| => Some(m[i]))
  }

  /** Everything sent has arrived as it was, or is on its way, in order. */
  ghost predicate Lossless(me: Half, peer: Half) {
    exists n :: 0 <= n <= |me.sent| && Arrived(me, peer, n)
  }

  ghost predicate Arrived(me: Half, peer: Half, n: int) {
    0 <= n <= |me.sent| && peer.got == Somes(me.sent[..n]) && InFlight(me.out) == me.sent[n..]
  }

  /** The keys that packets from this endpoint get by rekeying. */
  function Renewed(p: Prims, mlkem: Bytes, side: bool, secret: Bytes): Keys {
    KeysFor(p, side, secret + mlkem, HybridSalt(p))
  }

  /** Neither has rekeyed, or both have: both directions are in step. */
  ghost predicate InStep(p: Prims, me: Half, peer: Half) {
    && me.end.hybrid == peer.end.hybrid && (!me.end.hybrid ==> me.end.secret == peer.end.secret)
    && Boundary !in me.out && Boundary !in peer.out
    && Carries(p, peer.end.recv, me.out, me.end.send, me.end.send)
    && Carries(p, me.end.recv, peer.out, peer.end.send, peer.end.send)
  }

  /** One has rekeyed: the boundary is on its way to the other, which sends nothing. */
  ghost predicate Ahead(p: Prims, mlkem: Bytes, me: Half, peer: Half) {
    && me.end.hybrid && !peer.end.hybrid && |peer.out| == 0
    && OneBoundary(me.out)
    && Carries(p, peer.end.recv, me.out, me.end.send, Renewed(p, mlkem, me.end.side, peer.end.secret))
    && me.end.recv == Renewed(p, mlkem, peer.end.side, peer.end.secret)
  }

  ghost predicate OneBoundary(items: seq<Item>) {
    exists i :: 0 <= i < |items| && BoundaryAt(items, i)
  }

  ghost predicate BoundaryAt(items: seq<Item>, i: int) {
    0 <= i < |items| && items[i].Boundary? && Boundary !in items[..i] && Boundary !in items[i + 1..]
  }

  // ----- steps keep it

  /** The invariant, as one half sees it. */
  ghost predicate Pair(p: Prims, mlkem: Bytes, me: Half, peer: Half) {
    && me.end.side != peer.end.side
    && (InStep(p, me, peer) || Ahead(p, mlkem, me, peer) || Ahead(p, mlkem, peer, me))
    && Lossless(me, peer) && Lossless(peer, me)
  }

  ghost predicate Inv(p: Prims, mlkem: Bytes, s: System) { Pair(p, mlkem, s.x, s.y) }

  lemma SentStays(me: Half, peer: Half, m: Message, wire: Bytes, next: Half)
    requires Lossless(me, peer) && Lossless(peer, me)
    requires next.out == me.out + [Packet(wire, m)] && next.sent == me.sent + [m] && next.got == me.got
    ensures Lossless(next, peer) && Lossless(peer, next)
  {
    var n: int :| 0 <= n <= |me.sent| && Arrived(me, peer, n);
    InFlightSnoc(me.out, Packet(wire, m));
    assert next.sent[..n] == me.sent[..n] && next.sent[n..] == me.sent[n..] + [m];
    assert Arrived(next, peer, n);
    var k: int :| 0 <= k <= |peer.sent| && Arrived(peer, me, k);
    assert Arrived(peer, next, k);
  }

  lemma BoundaryAppended(items: seq<Item>, item: Item)
    requires OneBoundary(items) && item.Packet?
    ensures OneBoundary(items + [item])
  {
    var i: int :| 0 <= i < |items| && BoundaryAt(items, i);
    var more := items + [item];
    assert more[..i] == items[..i] && more[i + 1..] == items[i + 1..] + [item];
    assert BoundaryAt(more, i);
  }

  lemma SendKeeps(p: Prims, mlkem: Bytes, me: Half, peer: Half, m: Message)
    requires Pair(p, mlkem, me, peer) && Enabled(me, peer, Send(m))
    ensures Pair(p, mlkem, Sending(p, me, m), peer)
  {
    var next := Sending(p, me, m);
    var wire := PacketBytes(p, me.end.send, m.contents, m.aad, m.ignore);
    SentStays(me, peer, m, wire, next);
    if InStep(p, me, peer) {
      CarriesMore(p, peer.end.recv, me.out, me.end.send, me.end.send, m);
      CarriesAny(p, peer.end.recv, next.out, next.end.send, me.end.send, next.end.send);
      assert InStep(p, next, peer);
    } else if Ahead(p, mlkem, me, peer) {
      CarriesMore(p, peer.end.recv, me.out, me.end.send, Renewed(p, mlkem, me.end.side, peer.end.secret), m);
      BoundaryAppended(me.out, Packet(wire, m));
      assert Ahead(p, mlkem, next, peer);
    } else {
      BoundaryIn(peer.out);
      assert false;
    }
  }

  lemma BoundaryIn(items: seq<Item>)
    requires OneBoundary(items)
    ensures Boundary in items
  {
    var i: int :| 0 <= i < |items| && BoundaryAt(items, i);
    assert items[i] in items;
  }

  lemma OpenedRight(p: Prims, k: Keys, m: Message)
    requires IsPrims(p) && |m.contents| <= MAX_CONTENTS
    ensures Opened(p, k, PacketBytes(p, k, m.contents, m.aad, m.ignore), m.aad) == Some(m)
  {
    PacketOpens(p, k, m.contents, m.aad, m.ignore);
  }

  lemma GotStays(p: Prims, me: Half, peer: Half, next: Half, rest: Half, item: Item)
    requires Lossless(me, peer) && Lossless(peer, me) && |peer.out| > 0 && item == peer.out[0] && item.Packet?
    requires next.out == me.out && next.sent == me.sent && next.got == me.got + [Some(item.sent)]
    requires rest == peer.(out := peer.out[1..])
    ensures Lossless(next, rest) && Lossless(rest, next)
  {
    OwnStays(me, peer, next, rest);
    GotGrows(me, peer, next, rest, item);
  }

  lemma OwnStays(me: Half, peer: Half, next: Half, rest: Half)
    requires Lossless(me, peer) && next.out == me.out && next.sent == me.sent && rest.got == peer.got
    ensures Lossless(next, rest)
  {
    var n: int :| 0 <= n <= |me.sent| && Arrived(me, peer, n);
    assert Arrived(next, rest, n);
  }

  lemma GotGrows(me: Half, peer: Half, next: Half, rest: Half, item: Item)
    requires Lossless(peer, me) && |peer.out| > 0 && item == peer.out[0] && item.Packet?
    requires next.got == me.got + [Some(item.sent)] && rest.sent == peer.sent && rest.out == peer.out[1..]
    ensures Lossless(rest, next)
  {
    var k: int :| 0 <= k <= |peer.sent| && Arrived(peer, me, k);
    OneMore(peer.sent, k, item.sent, InFlight(rest.out));
    assert Arrived(rest, next, k + 1);
  }

  lemma OneMore(sent: seq<Message>, k: nat, m: Message, rest: seq<Message>)
    requires k <= |sent| && sent[k..] == [m] + rest
    ensures k < |sent| && Somes(sent[..k + 1]) == Somes(sent[..k]) + [Some(m)] && sent[k + 1..] == rest
  {
    assert |sent[k..]| > 0 && sent[k..][0] == m;
    assert sent[..k + 1] == sent[..k] + [m];
    assert sent[k..][1..] == rest && sent[k + 1..] == sent[k..][1..];
  }

  lemma BoundaryShift(items: seq<Item>)
    requires OneBoundary(items) && items[0].Packet?
    ensures OneBoundary(items[1..])
  {
    var i: int :| 0 <= i < |items| && BoundaryAt(items, i);
    assert items[1..][..i - 1] == items[..i][1..] && items[1..][i..] == items[i + 1..];
    assert BoundaryAt(items[1..], i - 1);
  }

  lemma ReceiveKeeps(p: Prims, mlkem: Bytes, me: Half, peer: Half)
    requires IsPrims(p) && Pair(p, mlkem, me, peer) && Enabled(me, peer, Receive)
    ensures Pair(p, mlkem, Receiving(p, me, peer.out[0]), peer.(out := peer.out[1..]))
    ensures Receiving(p, me, peer.out[0]).got == me.got + [Some(peer.out[0].sent)]
  {
    var item := peer.out[0];
    var next, rest := Receiving(p, me, item), peer.(out := peer.out[1..]);
    assert !Ahead(p, mlkem, me, peer);
    OpenedRight(p, me.end.recv, item.sent);
    GotStays(p, me, peer, next, rest, item);
    if InStep(p, me, peer) {
      assert InStep(p, next, rest);
    } else {
      BoundaryShift(peer.out);
      assert Ahead(p, mlkem, rest, next);
    }
  }

  lemma RekeyFirstKeeps(p: Prims, mlkem: Bytes, me: Half, peer: Half)
    requires Pair(p, mlkem, me, peer) && Enabled(me, peer, RekeyFirst)
    ensures Pair(p, mlkem, me.(end := Rekeyed(p, me.end, mlkem), out := me.out + [Boundary]), peer)
  {
    var next := me.(end := Rekeyed(p, me.end, mlkem), out := me.out + [Boundary]);
    CarriesBoundary(p, peer.end.recv, me.out, me.end.send, next.end.send, me.end.send);
    assert next.out[..|me.out|] == me.out && next.out[|me.out| + 1..] == [];
    assert BoundaryAt(next.out, |me.out|);
    assert Ahead(p, mlkem, next, peer);
    InFlightSnoc(me.out, Boundary);
    var n: int :| 0 <= n <= |me.sent| && Arrived(me, peer, n);
    assert Arrived(next, peer, n);
    var k: int :| 0 <= k <= |peer.sent| && Arrived(peer, me, k);
    assert Arrived(peer, next, k);
  }

  lemma RekeySecondKeeps(p: Prims, mlkem: Bytes, me: Half, peer: Half)
    requires Pair(p, mlkem, me, peer) && Enabled(me, peer, RekeySecond)
    ensures Pair(p, mlkem, me.(end := Rekeyed(p, me.end, mlkem)), peer.(out := peer.out[1..]))
  {
    var next, rest := me.(end := Rekeyed(p, me.end, mlkem)), peer.(out := peer.out[1..]);
    assert Boundary in peer.out;
    assert Ahead(p, mlkem, peer, me);
    var i: int :| 0 <= i < |peer.out| && BoundaryAt(peer.out, i);
    assert i == 0;
    assert Boundary !in rest.out;
    CarriesAny(p, next.end.recv, rest.out, rest.end.send, Renewed(p, mlkem, peer.end.side, me.end.secret),
        rest.end.send);
    assert InStep(p, next, rest);
    var n: int :| 0 <= n <= |me.sent| && Arrived(me, peer, n);
    assert Arrived(next, rest, n);
    var k: int :| 0 <= k <= |peer.sent| && Arrived(peer, me, k);
    assert Arrived(rest, next, k);
  }

  lemma StepKeeps(p: Prims, mlkem: Bytes, me: Half, peer: Half, a: Action)
    requires IsPrims(p) && Pair(p, mlkem, me, peer) && Enabled(me, peer, a)
    ensures var (n, r) := Step(p, mlkem, me, peer, a); Pair(p, mlkem, n, r)
  {
    match a
    case Send(m) => SendKeeps(p, mlkem, me, peer, m);
    case Receive => ReceiveKeeps(p, mlkem, me, peer);
    case RekeyFirst => RekeyFirstKeeps(p, mlkem, me, peer);
    case RekeySecond => RekeySecondKeeps(p, mlkem, me, peer);
    case RekeyAgain(other) => assert me.(end := Rekeyed(p, me.end, other)) == me;
  }

  lemma {:induction false} RunKeeps(p: Prims, mlkem: Bytes, s: System, run: seq<Turn>)
    requires IsPrims(p) && Inv(p, mlkem, s) && CanRun(p, mlkem, s, run)
    ensures Inv(p, mlkem, Run(p, mlkem, s, run))
    decreases |run|
  {
    if |run| > 0 {
      var t := run[0];
      if t.0 { StepKeeps(p, mlkem, s.x, s.y, t.1); } else { StepKeeps(p, mlkem, s.y, s.x, t.1); }
      RunKeeps(p, mlkem, Next(p, mlkem, s, t), run[1..]);
    }
  }

  function Start(a: Endpoint, b: Endpoint): System { System(Half(a, [], [], []), Half(b, [], [], [])) }

  /** All but what is on its way has arrived as it was sent. */
  ghost predicate Delivered(me: Half, peer: Half) {
    && |InFlight(me.out)| <= |me.sent|
    && var n := |me.sent| - |InFlight(me.out)|;
    peer.got == Somes(me.sent[..n]) && InFlight(me.out) == me.sent[n..]
  }

  lemma LosslessDelivers(me: Half, peer: Half)
    requires Lossless(me, peer)
    ensures Delivered(me, peer)
  {
    var n: int :| 0 <= n <= |me.sent| && Arrived(me, peer, n);
    assert n == |me.sent| - |InFlight(me.out)|;
  }

  lemma StartOk(p: Prims, shared: Bytes, mlkem: Bytes)
    requires IsPrims(p)
    ensures Inv(p, mlkem, Start(Initialized(p, shared, true, false), Initialized(p, shared, false, false)))
  {
    var s := Start(Initialized(p, shared, true, false), Initialized(p, shared, false, false));
    assert Arrived(s.x, s.y, 0) && Arrived(s.y, s.x, 0);
    assert InStep(p, s.x, s.y);
  }

  /** Two endpoints with opposite roles: whatever is sent on either side, in any order and
      across a rekey, arrives in order, with its length, contents and ignore bit. They agree
      on the session and on each other's garbage terminators. */
  lemma Paired(p: Prims, shared: Bytes, mlkem: Bytes, a: Endpoint, b: Endpoint, run: seq<Turn>)
    requires IsPrims(p) && a == Initialized(p, shared, true, false) && b == Initialized(p, shared, false, false)
    requires CanRun(p, mlkem, Start(a, b), run)
    ensures a.session == b.session && a.sendTerminator == b.recvTerminator && a.recvTerminator == b.sendTerminator
    ensures var s := Run(p, mlkem, Start(a, b), run); Delivered(s.x, s.y) && Delivered(s.y, s.x)
  {
    StartOk(p, shared, mlkem);
    RunKeeps(p, mlkem, Start(a, b), run);
    var s := Run(p, mlkem, Start(a, b), run);
    LosslessDelivers(s.x, s.y);
    LosslessDelivers(s.y, s.x);
  }
}
