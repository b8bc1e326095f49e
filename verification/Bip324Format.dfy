/**
 What is on the wire (BIP 324): the bytes of the nth packet, its nonce and its keys, and
 where the keys come from.
 */
module Bip324Format {
  import opened Bip324
  import opened Bip324Runs
  import opened ChaCha20

  // ----- the keys of each generation

  /** The first half of a block of the key stream. */
  ghost function BlockHead(f: BlockFn, key: Bytes, nonce: Nonce, block: nat): Bytes {
    seq(32, i requires 0 <= i => f(key, nonce, block, i))
  }

  /** The key for contents: block 1 under a nonce that no packet has gives the next one. */
  ghost function PacketKey(f: BlockFn, key: Bytes, g: nat): Bytes {
    if g == 0 then key else BlockHead(f, PacketKey(f, key, g - 1), (0xFFFF_FFFF, g - 1), 1)
  }

  /** The key for lengths: the 32 bytes behind the 672 that 224 lengths take. */
  ghost function LengthKey(f: BlockFn, key: Bytes, g: nat): Bytes {
    if g == 0 then key else
      var last := LengthKey(f, key, g - 1);
      seq(32, i requires 0 <= i => f(last, (0, g - 1), 10, 32 + i))
  }

  function AfterMany(p: Prims, k: Keys, n: nat): Keys {
    if n == 0 then k else After(p, AfterMany(p, k, n - 1))
  }

  lemma Counting(n: nat)
    ensures if n % 224 == 223 then (n + 1) % 224 == 0 && (n + 1) / 224 == n / 224 + 1
            else (n + 1) % 224 == n % 224 + 1 && (n + 1) / 224 == n / 224
  {
  }

  /** The keys after `n` packets: 224 packets under each key, counted from 0. */
  ghost function KeysAt(f: BlockFn, lengthKey: Bytes, packetKey: Bytes, n: nat): Keys {
    var c, g := n % 224, n / 224;
    Keys(FsStream(LengthKey(f, lengthKey, g), 3 * c, c, g), FsAead(PacketKey(f, packetKey, g), c, g))
  }

  lemma PacketKeyNext(f: BlockFn, key: Bytes, g: nat)
    ensures KeyStream(f, PacketKey(f, key, g), (0xFFFF_FFFF, g), BLOCK, BLOCK)[..KEY_LENGTH] == PacketKey(f, key, g + 1)
  {
  }

  lemma LengthKeyNext(f: BlockFn, key: Bytes, g: nat)
    ensures KeyStream(f, LengthKey(f, key, g), (0, g), 672, KEY_LENGTH) == LengthKey(f, key, g + 1)
  {
    var a, b := KeyStream(f, LengthKey(f, key, g), (0, g), 672, KEY_LENGTH), LengthKey(f, key, g + 1);
    forall i | 0 <= i < KEY_LENGTH ensures a[i] == b[i] { InBlock(10, 32 + i); }
  }

  lemma AfterAt(p: Prims, lengthKey: Bytes, packetKey: Bytes, n: nat)
    ensures After(p, KeysAt(p.block, lengthKey, packetKey, n)) == KeysAt(p.block, lengthKey, packetKey, n + 1)
  {
    Counting(n);
    PacketKeyNext(p.block, packetKey, n / 224);
    LengthKeyNext(p.block, lengthKey, n / 224);
  }

  lemma {:induction false} PacketsCounted(p: Prims, lengthKey: Bytes, packetKey: Bytes, n: nat)
    ensures AfterMany(p, Keys(NewStream(lengthKey), NewAead(packetKey)), n) ==
            KeysAt(p.block, lengthKey, packetKey, n)
  {
    if n > 0 {
      PacketsCounted(p, lengthKey, packetKey, n - 1);
      AfterAt(p, lengthKey, packetKey, n - 1);
    }
  }

  /** No two packets have the same nonce, and none has the one for the next key. */
  lemma NoncesDiffer(i: nat, j: nat)
    ensures (i % 224, i / 224) == (j % 224, j / 224) ==> i == j
    ensures (i % 224, i / 224) != (0xFFFF_FFFF, j / 224)
  {
  }

  // ----- the bytes of a packet

  /** The lengths are written lowest byte first. */
  lemma LengthLowFirst(n: nat)
    requires n <= MAX_CONTENTS
    ensures var b := LengthBytes(n);
            b[0] as int == n % 256 && b[1] as int == n / 256 % 256 && b[2] as int == n / 65536
  {
    var x, y, z := n % 256, n / 256 % 256, n / 65536;
    TopByte(n);
    assert LengthBytes(n) == [ByteOf(x), ByteOf(y), ByteOf(z)];
    ByteBack(x);
    ByteBack(y);
    ByteBack(z);
  }

  lemma TopByte(n: nat)
    requires n <= MAX_CONTENTS
    ensures n / 65536 < 256 && n / 65536 % 256 == n / 65536
  {
  }

  /** A length under the stream for lengths, at its place. */
  ghost predicate LengthPart(f: BlockFn, key: Bytes, n: nat, length: Bytes, part: Bytes) {
    && |part| == 3 && |length| == 3
    && forall i :: 0 <= i < 3 ==> part[i] == length[i] ^ StreamByte(f, key, (0, n / 224), 3 * (n % 224) + i)
  }

  /** A text under the stream of its packet from block 1 on. */
  ghost predicate BodyPart(f: BlockFn, key: Bytes, n: nat, text: Bytes, part: Bytes) {
    && |part| == |text|
    && forall i :: 0 <= i < |text| ==> part[i] == text[i] ^ StreamByte(f, key, (n % 224, n / 224), 64 + i)
  }

  /** The `n`th packet: the length, then the header byte and the contents, then the tag,
      whose key is the first half of block 0. */
  lemma WireFormat(p: Prims, lengthKey: Bytes, packetKey: Bytes, n: nat, contents: Bytes, aad: Bytes, ignore: bool,
                   w: Bytes)
    requires IsPrims(p) && |contents| <= MAX_CONTENTS
    requires w == PacketBytes(p, AfterMany(p, Keys(NewStream(lengthKey), NewAead(packetKey)), n), contents, aad, ignore)
    ensures |w| == |contents| + 20
    ensures LengthPart(p.block, LengthKey(p.block, lengthKey, n / 224), n, LengthBytes(|contents|), w[..3])
    ensures var key, body := PacketKey(p.block, packetKey, n / 224), w[3..|w| - 16];
            && BodyPart(p.block, key, n, [if ignore then 0x80 else 0] + contents, body)
            && w[|w| - 16..] == p.mac(BlockHead(p.block, key, (n % 224, n / 224), 0), aad, body)
  {
    PacketsCounted(p, lengthKey, packetKey, n);
    var k := KeysAt(p.block, lengthKey, packetKey, n);
    var length, text := StreamOut(p.block, k.l, LengthBytes(|contents|)), [if ignore then 0x80 else 0] + contents;
    var body := Body(p, k.p, text);
    assert w == length + (body + Tag(p, k.p, aad, body));
    LengthPartIs(p.block, k.l, n, LengthBytes(|contents|));
    BodyPartIs(p, k.p, n, text);
    TagKey(p.block, k.p.key, (k.p.packet, k.p.rekeys));
    Parts(w, length, body, Tag(p, k.p, aad, body));
  }

  lemma LengthPartIs(f: BlockFn, c: FsStream, n: nat, length: Bytes)
    requires |length| == 3 && c.pos == 3 * (n % 224) && c.rekeys == n / 224
    ensures LengthPart(f, c.key, n, length, StreamOut(f, c, length))
  {
  }

  lemma BodyPartIs(p: Prims, c: FsAead, n: nat, text: Bytes)
    requires c.packet == n % 224 && c.rekeys == n / 224
    ensures BodyPart(p.block, c.key, n, text, Body(p, c, text))
  {
  }

  /** The highest bit of the header alone says whether a packet is to be ignored. */
  lemma IgnoredExactly(header: bv8)
    ensures IsIgnored(header) <==> header >= 0x80
  {
  }

  lemma TagKey(f: BlockFn, key: Bytes, nonce: Nonce)
    ensures KeyStream(f, key, nonce, 0, BLOCK)[..32] == BlockHead(f, key, nonce, 0)
  {
  }

  lemma Parts(w: Bytes, a: Bytes, b: Bytes, c: Bytes)
    requires w == a + (b + c) && |a| == 3 && |c| == 16
    ensures |w| == |b| + 19 && w[..3] == a && w[3..|w| - 16] == b && w[|w| - 16..] == c
  {
  }

  // ----- where the keys come from

  /** New keys of both directions from one secret. */
  ghost predicate KeysFrom(p: Prims, e: Endpoint, side: bool, secret: Bytes, salt: Bytes) {
    var mine, theirs := if side then "initiator" else "responder", if side then "responder" else "initiator";
    && e.send == Keys(NewStream(p.hkdf(secret, salt, mine + "_L")), NewAead(p.hkdf(secret, salt, mine + "_P")))
    && e.recv == Keys(NewStream(p.hkdf(secret, salt, theirs + "_L")), NewAead(p.hkdf(secret, salt, theirs + "_P")))
  }

  lemma Labels()
    ensures INITIATOR_L == "initiator" + "_L" && INITIATOR_P == "initiator" + "_P"
    ensures RESPONDER_L == "responder" + "_L" && RESPONDER_P == "responder" + "_P"
  {
  }

  /** An endpoint sends under the keys of its role, unless it is to read what it writes. The
      first half of the terminators is the initiator's. */
  lemma SessionKeys(p: Prims, shared: Bytes, initiator: bool, selfDecrypt: bool)
    requires IsPrims(p)
    ensures var e, salt := Initialized(p, shared, initiator, selfDecrypt), Ascii("bitcoin_v2_shared_secret") + p.magic;
            var halves := p.hkdf(shared, salt, "garbage_terminators");
            && KeysFrom(p, e, initiator != selfDecrypt, shared, salt) && e.side == (initiator != selfDecrypt)
            && !e.hybrid && |halves| == 32 && e.session == p.hkdf(shared, salt, "session_id")
            && e.secret == p.hkdf(shared, salt, "btx_hybrid_pq_rekey")
            && (if initiator then e.sendTerminator else e.recvTerminator) == halves[..16]
            && (if initiator then e.recvTerminator else e.sendTerminator) == halves[16..]
  {
    Labels();
  }

  /** The rekey mixes the kept secret and the new one, once; the rest stays. */
  lemma HybridKeys(p: Prims, e: Endpoint, mlkem: Bytes)
    ensures var r := Rekeyed(p, e, mlkem);
            && r.hybrid && Rekeyed(p, r, mlkem) == r
            && r.side == e.side && r.session == e.session
            && r.sendTerminator == e.sendTerminator && r.recvTerminator == e.recvTerminator
            && (e.hybrid ==> r == e)
            && (!e.hybrid ==>
                  && KeysFrom(p, r, e.side, e.secret + mlkem, Ascii("bitcoin_v2_hybrid_pq") + p.magic)
                  && |r.secret| == |e.secret| && forall i :: 0 <= i < |r.secret| ==> r.secret[i] == 0)
  {
    Labels();
  }

  /** The characters of a label are its bytes. */
  lemma AsciiBytes(s: string, i: nat, x: int)
    requires i < |s| && s[i] as int == x < 256
    ensures |Ascii(s)| == |s| && Ascii(s)[i] as int == x
  {
    assert Ascii(s)[i] == ByteOf(x) by { assert x % 256 == x; }
    ByteBack(x);
  }

  // ----- over a run

  /** The next packet is one more than were sent since the keys were new. */
  ghost predicate Numbered(p: Prims, mlkem: Bytes, start: Endpoint, me: Half) {
    && me.end.side == start.side
    && if !me.end.hybrid then me.end.secret == start.secret && Since(p, start, me, 0)
       else exists base :: 0 <= base <= |me.sent| && Since(p, Rekeyed(p, start, mlkem), me, base)
  }

  ghost predicate Since(p: Prims, first: Endpoint, me: Half, base: int) {
    0 <= base <= |me.sent| && me.end.send == AfterMany(p, first.send, |me.sent| - base)
  }

  lemma StepNumbered(p: Prims, mlkem: Bytes, start: Endpoint, me: Half, peer: Half, a: Action)
    requires Numbered(p, mlkem, start, me) && Enabled(me, peer, a) && !start.hybrid
    ensures Numbered(p, mlkem, start, Step(p, mlkem, me, peer, a).0)
  {
    var next := Step(p, mlkem, me, peer, a).0;
    var first := if me.end.hybrid then Rekeyed(p, start, mlkem) else start;
    var base: int :| 0 <= base <= |me.sent| && Since(p, first, me, base) && (!me.end.hybrid ==> base == 0);
    match a
    case Send(m) => assert Since(p, first, next, base);
    case Receive => assert Since(p, first, next, base);
    case RekeyFirst => assert Since(p, Rekeyed(p, start, mlkem), next, |me.sent|);
    case RekeySecond =>
      if me.end.hybrid {
        assert Since(p, first, next, base);
      } else {
        assert Since(p, Rekeyed(p, start, mlkem), next, |me.sent|);
      }
    case RekeyAgain(other) => assert Since(p, first, next, base);
  }

  lemma PeerNumbered(p: Prims, mlkem: Bytes, start: Endpoint, me: Half, peer: Half, a: Action)
    requires Numbered(p, mlkem, start, peer) && Enabled(me, peer, a)
    ensures Numbered(p, mlkem, start, Step(p, mlkem, me, peer, a).1)
  {
    var next := Step(p, mlkem, me, peer, a).1;
    assert next.end == peer.end && next.sent == peer.sent;
    if peer.end.hybrid {
      var base :| 0 <= base <= |peer.sent| && Since(p, Rekeyed(p, start, mlkem), peer, base);
      assert Since(p, Rekeyed(p, start, mlkem), next, base);
    } else {
      assert Since(p, start, next, 0);
    }
  }

  /** In every run both sides number their packets without a gap, from 0 and again from 0
      after the rekey; so `WireFormat` and `NoncesDiffer` hold for each of them. */
  lemma {:induction false} RunNumbered(p: Prims, mlkem: Bytes, a: Endpoint, b: Endpoint, s: System, run: seq<Turn>)
    requires Numbered(p, mlkem, a, s.x) && Numbered(p, mlkem, b, s.y) && !a.hybrid && !b.hybrid
    requires CanRun(p, mlkem, s, run)
    ensures var t := Run(p, mlkem, s, run); Numbered(p, mlkem, a, t.x) && Numbered(p, mlkem, b, t.y)
    decreases |run|
  {
    if |run| > 0 {
      var t := run[0];
      if t.0 {
        StepNumbered(p, mlkem, a, s.x, s.y, t.1);
        PeerNumbered(p, mlkem, b, s.x, s.y, t.1);
      } else {
        StepNumbered(p, mlkem, b, s.y, s.x, t.1);
        PeerNumbered(p, mlkem, a, s.y, s.x, t.1);
      }
      RunNumbered(p, mlkem, a, b, Next(p, mlkem, s, t), run[1..]);
    }
  }

  lemma StartNumbered(p: Prims, mlkem: Bytes, a: Endpoint, b: Endpoint)
    requires !a.hybrid && !b.hybrid
    ensures Numbered(p, mlkem, a, Start(a, b).x) && Numbered(p, mlkem, b, Start(a, b).y)
  {
  }
}
