/**
 The packet cipher of the encrypted transport (BIP 324), with the rekey that mixes in a
 post-quantum secret. The primitives are any functions of the right lengths.
 */
module Bip324 {
  import opened ChaCha20
  import opened Helpers

  const REKEY_INTERVAL: int := 224
  const LENGTH_LEN: int := 3
  const HEADER_LEN: int := 1
  const TAG_LEN: int := 16
  const EXPANSION: int := LENGTH_LEN + HEADER_LEN + TAG_LEN
  const TERMINATOR_LEN: int := 16
  const IGNORE_BIT: bv8 := 0x80
  const MAX_CONTENTS: int := 0xFF_FFFF

  // labels for deriving keys
  const INITIATOR_L: string := "initiator_L"
  const INITIATOR_P: string := "initiator_P"
  const RESPONDER_L: string := "responder_L"
  const RESPONDER_P: string := "responder_P"
  const GARBAGE_TERMINATORS: string := "garbage_terminators"
  const SESSION_ID: string := "session_id"
  const HYBRID_REKEY: string := "btx_hybrid_pq_rekey"

  type PrivateKey = int
  type PublicKey = int

  /** Block function, authenticator, key derivation (secret, salt, label) and key exchange
      (our key, their public key, our public key, whether we are the initiator). */
  datatype Prims = Prims(
    block: BlockFn,
    mac: (Bytes, Bytes, Bytes) -> Bytes,
    hkdf: (Bytes, Bytes, string) -> Bytes,
    ecdh: (PrivateKey, PublicKey, PublicKey, bool) -> Bytes,
    magic: Bytes)

  ghost predicate IsPrims(p: Prims) {
    && (forall k, a, c :: |p.mac(k, a, c)| == TAG_LEN)
    && (forall i, s, l :: |p.hkdf(i, s, l)| == KEY_LENGTH)
  }

  // ----- the cipher for lengths: it takes a new key from its stream after 224 uses

  datatype FsStream = FsStream(key: Bytes, pos: nat, chunk: nat, rekeys: nat)

  function NewStream(key: Bytes): FsStream { FsStream(key, 0, 0, 0) }

  function StreamOut(f: BlockFn, c: FsStream, input: Bytes): (out: Bytes)
    ensures |out| == |input|
  {
    XorBytes(input, KeyStream(f, c.key, (0, c.rekeys), c.pos, |input|))
  }

  function StreamNext(f: BlockFn, c: FsStream, n: nat): FsStream {
    if c.chunk + 1 == REKEY_INTERVAL then
      FsStream(KeyStream(f, c.key, (0, c.rekeys), c.pos + n, KEY_LENGTH), 0, 0, c.rekeys + 1)
    else c.(pos := c.pos + n, chunk := c.chunk + 1)
  }

  // ----- the cipher for contents: a nonce for each packet, a new key after 224

  datatype FsAead = FsAead(key: Bytes, packet: nat, rekeys: nat)

  function NewAead(key: Bytes): FsAead { FsAead(key, 0, 0) }

  function NextPacket(f: BlockFn, c: FsAead): FsAead {
    if c.packet + 1 == REKEY_INTERVAL then
      FsAead(KeyStream(f, c.key, (0xFFFF_FFFF, c.rekeys), BLOCK, BLOCK)[..KEY_LENGTH], 0, c.rekeys + 1)
    else c.(packet := c.packet + 1)
  }

  function Tag(p: Prims, c: FsAead, aad: Bytes, body: Bytes): Bytes {
    p.mac(KeyStream(p.block, c.key, (c.packet, c.rekeys), 0, BLOCK)[..32], aad, body)
  }

  function Body(p: Prims, c: FsAead, text: Bytes): (body: Bytes)
    ensures |body| == |text|
  {
    XorBytes(text, KeyStream(p.block, c.key, (c.packet, c.rekeys), BLOCK, |text|))
  }

  function Seal(p: Prims, c: FsAead, text: Bytes, aad: Bytes): Bytes {
    Body(p, c, text) + Tag(p, c, aad, Body(p, c, text))
  }

  function Unseal(p: Prims, c: FsAead, input: Bytes, aad: Bytes): Option<Bytes>
    requires |input| >= TAG_LEN
  {
    var n := |input| - TAG_LEN;
    if Tag(p, c, aad, input[..n]) == input[n..] then Some(Body(p, c, input[..n])) else None
  }

  lemma SealUnseal(p: Prims, c: FsAead, text: Bytes, aad: Bytes)
    requires IsPrims(p)
    ensures |Seal(p, c, text, aad)| == |text| + TAG_LEN && Unseal(p, c, Seal(p, c, text, aad), aad) == Some(text)
  {
    var body := Body(p, c, text);
    var sealed := Seal(p, c, text, aad);
    assert sealed[..|text|] == body && sealed[|text|..] == Tag(p, c, aad, body);
    XorTwice(text, KeyStream(p.block, c.key, (c.packet, c.rekeys), BLOCK, |text|));
  }

  // ----- an endpoint

  /** The two ciphers of one direction. */
  datatype Keys = Keys(l: FsStream, p: FsAead)

  function FromInitiator(p: Prims, ikm: Bytes, salt: Bytes): Keys {
    Keys(NewStream(p.hkdf(ikm, salt, INITIATOR_L)), NewAead(p.hkdf(ikm, salt, INITIATOR_P)))
  }

  function FromResponder(p: Prims, ikm: Bytes, salt: Bytes): Keys {
    Keys(NewStream(p.hkdf(ikm, salt, RESPONDER_L)), NewAead(p.hkdf(ikm, salt, RESPONDER_P)))
  }

  function KeysFor(p: Prims, initiator: bool, ikm: Bytes, salt: Bytes): Keys {
    if initiator then FromInitiator(p, ikm, salt) else FromResponder(p, ikm, salt)
  }

  datatype Endpoint = Endpoint(
    send: Keys, recv: Keys, side: bool, hybrid: bool, secret: Bytes,
    sendTerminator: Bytes, recvTerminator: Bytes, session: Bytes)

  function Ascii(s: string): Bytes
  {
    seq(|s|, i requires 0 <= i < |s| => ByteOf((s[i] as int) % 256))
  }

  /** From the two hexadecimal digits. */
  function ByteOf(x: int): bv8
    requires 0 <= x < 256
  {
    16 * HexDigit(x / 16) + HexDigit(x % 16)
  }

  function HexDigit(x: int): bv8
    requires 0 <= x < 16
  {
    x as bv8
  }

  function FirstSalt(p: Prims): Bytes { Ascii("bitcoin_v2_shared_secret") + p.magic }

  function HybridSalt(p: Prims): Bytes { Ascii("bitcoin_v2_hybrid_pq") + p.magic }

  function Initialized(p: Prims, shared: Bytes, initiator: bool, selfDecrypt: bool): Endpoint
    requires |p.hkdf(shared, FirstSalt(p), GARBAGE_TERMINATORS)| == KEY_LENGTH
  {
    var salt, side := FirstSalt(p), initiator != selfDecrypt;
    var t := p.hkdf(shared, salt, GARBAGE_TERMINATORS);
    var t0, t1 := t[..TERMINATOR_LEN], t[KEY_LENGTH - TERMINATOR_LEN..];
    Endpoint(KeysFor(p, side, shared, salt), KeysFor(p, !side, shared, salt), side, false,
             p.hkdf(shared, salt, HYBRID_REKEY),
             if initiator then t0 else t1, if initiator then t1 else t0, p.hkdf(shared, salt, SESSION_ID))
  }

  /** New keys from the kept secret and the post-quantum one; only once. */
  function Rekeyed(p: Prims, e: Endpoint, mlkem: Bytes): Endpoint {
    if e.hybrid then e
    else
      var ikm, salt := e.secret + mlkem, HybridSalt(p);
      e.(send := KeysFor(p, e.side, ikm, salt), recv := KeysFor(p, !e.side, ikm, salt), hybrid := true,
         secret := Wiped(|e.secret|))
  }

  function Wiped(n: nat): Bytes { seq(n, i => 0) }

  // ----- packets

  function LengthBytes(n: nat): (b: Bytes)
    requires n <= MAX_CONTENTS
    ensures |b| == LENGTH_LEN
  {
    [ByteOf(n % 256), ByteOf(n / 256 % 256), ByteOf(n / 65536 % 256)]
  }

  function LengthOf(b: Bytes): nat
    requires |b| == LENGTH_LEN
  {
    b[0] as int + b[1] as int * 256 + b[2] as int * 65536
  }

  lemma LengthRoundTrip(n: nat)
    requires n <= MAX_CONTENTS
    ensures LengthOf(LengthBytes(n)) == n
  {
    var x, y, z := n % 256, n / 256 % 256, n / 65536 % 256;
    LengthParts(x, y, z);
    Digits(n);
  }

  lemma LengthParts(x: int, y: int, z: int)
    requires 0 <= x < 256 && 0 <= y < 256 && 0 <= z < 256
    ensures LengthOf([ByteOf(x), ByteOf(y), ByteOf(z)]) == x + y * 256 + z * 65536
  {
    ByteBack(x);
    ByteBack(y);
    ByteBack(z);
  }

  lemma Digits(n: nat)
    requires n <= MAX_CONTENTS
    ensures n == n % 256 + n / 256 % 256 * 256 + n / 65536 % 256 * 65536
  {
  }

  lemma ByteBack(x: int)
    requires 0 <= x < 256
    ensures ByteOf(x) as int == x
  {
    HexBack(x / 16);
    HexBack(x % 16);
    TwoDigits(HexDigit(x / 16), HexDigit(x % 16));
  }

  lemma HexBack(x: int)
    requires 0 <= x < 16
    ensures HexDigit(x) as int == x && HexDigit(x) < 16
  {
  }

  lemma TwoDigits(h: bv8, l: bv8)
    requires h < 16 && l < 16
    ensures (16 * h + l) as int == 16 * (h as int) + l as int
  {
  }

  function Header(ignore: bool): Bytes { [if ignore then IGNORE_BIT else 0] }

  function IsIgnored(header: bv8): bool { header & IGNORE_BIT == IGNORE_BIT }

  function PacketBytes(p: Prims, k: Keys, contents: Bytes, aad: Bytes, ignore: bool): Bytes
    requires |contents| <= MAX_CONTENTS
  {
    StreamOut(p.block, k.l, LengthBytes(|contents|)) + Seal(p, k.p, Header(ignore) + contents, aad)
  }

  /** The keys after one packet, whatever was in it. */
  function After(p: Prims, k: Keys): Keys { Keys(StreamNext(p.block, k.l, LENGTH_LEN), NextPacket(p.block, k.p)) }

  function OpenLength(p: Prims, k: Keys, input: Bytes): nat
    requires |input| == LENGTH_LEN
  {
    LengthOf(StreamOut(p.block, k.l, input))
  }

  function OpenPacket(p: Prims, k: Keys, input: Bytes, aad: Bytes): Option<(bool, Bytes)>
    requires |input| >= EXPANSION - LENGTH_LEN
  {
    match Unseal(p, k.p, input, aad)
    case None => None
    case Some(text) => if |text| == 0 then None else Some((IsIgnored(text[0]), text[1..]))
  }

  /** Under the same keys a packet opens to what was put in. */
  lemma PacketOpens(p: Prims, k: Keys, contents: Bytes, aad: Bytes, ignore: bool)
    requires IsPrims(p) && |contents| <= MAX_CONTENTS
    ensures var w := PacketBytes(p, k, contents, aad, ignore);
            && |w| == |contents| + EXPANSION
            && OpenLength(p, k, w[..LENGTH_LEN]) == |contents|
            && OpenPacket(p, k, w[LENGTH_LEN..], aad) == Some((ignore, contents))
  {
    var w := PacketBytes(p, k, contents, aad, ignore);
    var head, text := StreamOut(p.block, k.l, LengthBytes(|contents|)), Header(ignore) + contents;
    assert w[..LENGTH_LEN] == head && w[LENGTH_LEN..] == Seal(p, k.p, text, aad);
    XorTwice(LengthBytes(|contents|), KeyStream(p.block, k.l.key, (0, k.l.rekeys), k.l.pos, LENGTH_LEN));
    LengthRoundTrip(|contents|);
    SealUnseal(p, k.p, text, aad);
    assert text[1..] == contents;
    HeaderBack(ignore);
  }

  lemma HeaderBack(ignore: bool)
    ensures IsIgnored(Header(ignore)[0]) == ignore
  {
  }
}
