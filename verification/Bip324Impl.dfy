/**
 The ciphers as objects.
 */
module Bip324Impl {
  import opened Bip324
  import opened ChaCha20
  import opened Helpers

  /** The cipher for lengths, over a buffered stream cipher. */
  class StreamCipher {
    const cipher: Cipher
    var chunk: nat
    var rekeys: nat

    ghost predicate Valid()
      reads this, cipher
    {
      cipher.Valid() && cipher.nonce == (0, rekeys)
    }

    ghost function State(): FsStream
      requires Valid()
      reads this, cipher
    {
      FsStream(cipher.key, cipher.Position(), chunk, rekeys)
    }

    constructor (f: BlockFn, key: Bytes)
      ensures Valid() && fresh(cipher) && cipher.f == f && State() == NewStream(key)
    {
      cipher := new Cipher(f, key);
      chunk, rekeys := 0, 0;
    }

    method Crypt(input: Bytes) returns (output: Bytes)
      requires Valid()
      modifies this, cipher
      ensures Valid()
      ensures output == StreamOut(cipher.f, old(State()), input)
      ensures State() == StreamNext(cipher.f, old(State()), |input|)
    {
      output := cipher.Crypt(input);
      chunk := chunk + 1;
      if chunk == REKEY_INTERVAL {
        var key := cipher.Keystream(KEY_LENGTH);
        cipher.SetKey(key);
        rekeys := rekeys + 1;
        cipher.Seek((0, rekeys), 0);
        chunk := 0;
      }
    }
  }

  /** The cipher for contents. The plain text comes in two parts. */
  class PacketCipher {
    const prims: Prims
    const cipher: Cipher
    var packet: nat
    var rekeys: nat

    ghost predicate Valid()
      reads this, cipher
    {
      cipher.Valid() && cipher.f == prims.block
    }

    ghost function State(): FsAead
      reads this, cipher
    {
      FsAead(cipher.key, packet, rekeys)
    }

    constructor (prims: Prims, key: Bytes)
      ensures Valid() && fresh(cipher) && this.prims == prims && State() == NewAead(key)
    {
      this.prims := prims;
      cipher := new Cipher(prims.block, key);
      packet, rekeys := 0, 0;
    }

    method ComputeTag(aad: Bytes, body: Bytes) returns (tag: Bytes)
      requires Valid() && cipher.nonce == (packet, rekeys) && cipher.Position() == 0
      modifies cipher
      ensures Valid() && State() == old(State()) && cipher.nonce == (packet, rekeys) && cipher.Position() == BLOCK
      ensures tag == Tag(prims, State(), aad, body)
    {
      var first := cipher.Keystream(BLOCK);
      tag := prims.mac(first[..32], aad, body);
    }

    method NextPacket()
      requires Valid()
      modifies this, cipher
      ensures Valid() && State() == Bip324.NextPacket(prims.block, old(State()))
    {
      packet := packet + 1;
      if packet == REKEY_INTERVAL {
        cipher.Seek((0xFFFF_FFFF, rekeys), 1);
        var one := cipher.Keystream(BLOCK);
        cipher.SetKey(one[..KEY_LENGTH]);
        packet, rekeys := 0, rekeys + 1;
      }
    }

    method Encrypt(first: Bytes, second: Bytes, aad: Bytes) returns (output: Bytes)
      requires Valid()
      modifies this, cipher
      ensures Valid() && output == Seal(prims, old(State()), first + second, aad)
      ensures State() == Bip324.NextPacket(prims.block, old(State()))
    {
      cipher.Seek((packet, rekeys), 1);
      var a := cipher.Crypt(first);
      var b := cipher.Crypt(second);
      Joined(prims, State(), first, second);
      cipher.Seek((packet, rekeys), 0);
      var tag := ComputeTag(aad, a + b);
      output := a + b + tag;
      NextPacket();
    }

    /** A packet that does not authenticate counts all the same. `n` is the length of the
        first part. */
    method Decrypt(input: Bytes, aad: Bytes, n: nat) returns (r: Option<(Bytes, Bytes)>)
      requires Valid() && n + TAG_LEN <= |input|
      modifies this, cipher
      ensures Valid() && State() == Bip324.NextPacket(prims.block, old(State()))
      ensures r.Some? <==> Unseal(prims, old(State()), input, aad).Some?
      ensures r.Some? ==> |r.value.0| == n && Unseal(prims, old(State()), input, aad) == Some(r.value.0 + r.value.1)
    {
      cipher.Seek((packet, rekeys), 0);
      var body := input[..|input| - TAG_LEN];
      var tag := ComputeTag(aad, body);
      if tag != input[|input| - TAG_LEN..] {
        NextPacket();
        return None;
      }
      var a, b := OpenBody(body, n);
      NextPacket();
      r := Some((a, b));
    }

    method OpenBody(body: Bytes, n: nat) returns (a: Bytes, b: Bytes)
      requires Valid() && n <= |body| && cipher.nonce == (packet, rekeys) && cipher.Position() == BLOCK
      modifies cipher
      ensures Valid() && State() == old(State()) && |a| == n && a + b == Body(prims, State(), body)
    {
      var first, second := body[..n], body[n..];
      assert first + second == body;
      a := cipher.Crypt(first);
      b := cipher.Crypt(second);
      Joined(prims, State(), first, second);
    }
  }

  /** Two parts in a row are encrypted as one. */
  lemma Joined(p: Prims, c: FsAead, first: Bytes, second: Bytes)
    ensures var nonce := (c.packet, c.rekeys);
            Body(p, c, first + second) ==
            XorBytes(first, KeyStream(p.block, c.key, nonce, BLOCK, |first|)) +
            XorBytes(second, KeyStream(p.block, c.key, nonce, BLOCK + |first|, |second|))
  {
    var nonce := (c.packet, c.rekeys);
    StreamSplits(p.block, c.key, nonce, BLOCK, |first|, |second|);
    XorSplits(first, second, KeyStream(p.block, c.key, nonce, BLOCK, |first|),
        KeyStream(p.block, c.key, nonce, BLOCK + |first|, |second|));
  }

  /** The two ciphers of one direction. */
  method NewCiphers(prims: Prims, lengthKey: Bytes, packetKey: Bytes) returns (l: StreamCipher, p: PacketCipher)
    ensures IsStream(l, prims) && IsPacket(p, prims) && fresh({l, l.cipher, p, p.cipher}) && l.cipher != p.cipher
    ensures l.State() == NewStream(lengthKey) && p.State() == NewAead(packetKey)
  {
    l := new StreamCipher(prims.block, lengthKey);
    p := new PacketCipher(prims, packetKey);
  }

  /** An endpoint and its four ciphers. */
  class PacketEndpoint {
    const prims: Prims
    const ourKey: PublicKey
    var key: PrivateKey
    var sendL: StreamCipher?
    var sendP: PacketCipher?
    var recvL: StreamCipher?
    var recvP: PacketCipher?
    var side: bool
    var hybrid: bool
    var secret: Bytes
    var sendTerminator: Bytes
    var recvTerminator: Bytes
    var session: Bytes

    predicate Ready()
      reads this
    {
      sendL != null && sendP != null && recvL != null && recvP != null
    }

    ghost function Parts(): set<object>
      reads this
    {
      if Ready() then {sendL, sendL.cipher, sendP, sendP.cipher, recvL, recvL.cipher, recvP, recvP.cipher} else {}
    }

    /** The ciphers are in order and share nothing. */
    ghost predicate Valid()
      reads this, Parts()
    {
      && Ready()
      && IsStream(sendL, prims) && IsPacket(sendP, prims) && IsStream(recvL, prims) && IsPacket(recvP, prims)
      && sendL != recvL && sendP != recvP && sendL.cipher != sendP.cipher && sendL.cipher != recvL.cipher
      && sendL.cipher != recvP.cipher && sendP.cipher != recvL.cipher && sendP.cipher != recvP.cipher
      && recvL.cipher != recvP.cipher
    }

    ghost function Snapshot(): Endpoint
      requires Valid()
      reads this, Parts()
    {
      Endpoint(Keys(sendL.State(), sendP.State()), Keys(recvL.State(), recvP.State()), side, hybrid, secret,
               sendTerminator, recvTerminator, session)
    }

    constructor (prims: Prims, key: PrivateKey, ourKey: PublicKey)
      ensures this.prims == prims && this.key == key && this.ourKey == ourKey && !Ready() && !hybrid
    {
      this.prims, this.key, this.ourKey := prims, key, ourKey;
      sendL, sendP, recvL, recvP := null, null, null, null;
      side, hybrid, secret := false, false, [];
      sendTerminator, recvTerminator, session := [], [], [];
    }

    method Initialize(theirKey: PublicKey, initiator: bool, selfDecrypt: bool)
      requires IsPrims(prims) && !Ready() && !hybrid
      modifies this
      ensures Valid() && fresh(Parts())
      ensures Snapshot() ==
              Initialized(prims, prims.ecdh(old(key), theirKey, ourKey, initiator), initiator, selfDecrypt)
    {
      var salt := FirstSalt(prims);
      var shared := prims.ecdh(key, theirKey, ourKey, initiator);
      side := initiator != selfDecrypt;
      Derive(shared, salt, initiator);
    }

    /** Everything that comes from the shared secret. */
    method Derive(shared: Bytes, salt: Bytes, initiator: bool)
      requires |prims.hkdf(shared, salt, GARBAGE_TERMINATORS)| == KEY_LENGTH
      modifies this
      ensures Valid() && fresh(Parts()) && side == old(side) && hybrid == old(hybrid)
      ensures Keys(sendL.State(), sendP.State()) == KeysFor(prims, side, shared, salt)
      ensures Keys(recvL.State(), recvP.State()) == KeysFor(prims, !side, shared, salt)
      ensures session == prims.hkdf(shared, salt, SESSION_ID) && secret == prims.hkdf(shared, salt, HYBRID_REKEY)
      ensures var t := prims.hkdf(shared, salt, GARBAGE_TERMINATORS);
              && sendTerminator == (if initiator then t[..TERMINATOR_LEN] else t[KEY_LENGTH - TERMINATOR_LEN..])
              && recvTerminator == (if initiator then t[KEY_LENGTH - TERMINATOR_LEN..] else t[..TERMINATOR_LEN])
    {
      SetTerminators(prims.hkdf(shared, salt, GARBAGE_TERMINATORS), initiator);
      session := prims.hkdf(shared, salt, SESSION_ID);
      secret := prims.hkdf(shared, salt, HYBRID_REKEY);
      key := 0;
      SetCiphers(shared, salt);
    }

    method SetTerminators(t: Bytes, initiator: bool)
      requires |t| == KEY_LENGTH
      modifies this`sendTerminator, this`recvTerminator
      ensures sendTerminator == if initiator then t[..TERMINATOR_LEN] else t[KEY_LENGTH - TERMINATOR_LEN..]
      ensures recvTerminator == if initiator then t[KEY_LENGTH - TERMINATOR_LEN..] else t[..TERMINATOR_LEN]
    {
      var head, tail := t[..TERMINATOR_LEN], t[KEY_LENGTH - TERMINATOR_LEN..];
      if initiator {
        sendTerminator, recvTerminator := head, tail;
      } else {
        recvTerminator, sendTerminator := head, tail;
      }
    }

    /** All four ciphers, from one secret. */
    method SetCiphers(ikm: Bytes, salt: Bytes)
      modifies this`sendL, this`sendP, this`recvL, this`recvP
      ensures Valid() && fresh(Parts())
      ensures Keys(sendL.State(), sendP.State()) == KeysFor(prims, side, ikm, salt)
      ensures Keys(recvL.State(), recvP.State()) == KeysFor(prims, !side, ikm, salt)
    {
      var l, p := NewCiphers(prims, prims.hkdf(ikm, salt, INITIATOR_L), prims.hkdf(ikm, salt, INITIATOR_P));
      var l', p' := NewCiphers(prims, prims.hkdf(ikm, salt, RESPONDER_L), prims.hkdf(ikm, salt, RESPONDER_P));
      if side {
        sendL, sendP, recvL, recvP := l, p, l', p';
      } else {
        sendL, sendP, recvL, recvP := l', p', l, p;
      }
    }

    method RekeyHybridPQ(mlkem: Bytes)
      requires Valid()
      modifies this
      ensures Valid() && fresh(Parts() - old(Parts())) && Snapshot() == Rekeyed(prims, old(Snapshot()), mlkem)
    {
      if !hybrid { Replace(secret + mlkem, HybridSalt(prims)); }
    }

    /** New ciphers instead of the old ones, and the secret is wiped. */
    method Replace(ikm: Bytes, salt: Bytes)
      requires Valid()
      modifies this`sendL, this`sendP, this`recvL, this`recvP, this`hybrid, this`secret
      ensures Valid() && fresh(Parts()) && hybrid && secret == Wiped(|old(secret)|)
      ensures Keys(sendL.State(), sendP.State()) == KeysFor(prims, side, ikm, salt)
      ensures Keys(recvL.State(), recvP.State()) == KeysFor(prims, !side, ikm, salt)
    {
      hybrid, secret := true, Wiped(|secret|);
      SetCiphers(ikm, salt);
    }

    /** The length through one cipher, header and contents as two parts through the other. */
    method Encrypt(contents: Bytes, aad: Bytes, ignore: bool) returns (output: Bytes)
      requires Valid() && |contents| <= MAX_CONTENTS
      modifies Parts()
      ensures Valid() && output == PacketBytes(prims, old(Snapshot()).send, contents, aad, ignore)
      ensures Snapshot() == old(Snapshot()).(send := After(prims, old(Snapshot()).send))
    {
      var length := sendL.Crypt(LengthBytes(|contents|));
      var rest := sendP.Encrypt(Header(ignore), contents, aad);
      output := length + rest;
    }

    method DecryptLength(input: Bytes) returns (n: nat)
      requires Valid() && |input| == LENGTH_LEN
      modifies Parts()
      ensures Valid() && n == OpenLength(prims, old(Snapshot()).recv, input)
      ensures var was := old(Snapshot());
              Snapshot() == was.(recv := was.recv.(l := StreamNext(prims.block, was.recv.l, LENGTH_LEN)))
    {
      var buf := recvL.Crypt(input);
      n := LengthOf(buf);
    }

    method Decrypt(input: Bytes, aad: Bytes) returns (r: Option<(bool, Bytes)>)
      requires Valid() && |input| >= EXPANSION - LENGTH_LEN
      modifies Parts()
      ensures Valid() && r == OpenPacket(prims, old(Snapshot()).recv, input, aad)
      ensures var was := old(Snapshot());
              Snapshot() == was.(recv := was.recv.(p := NextPacket(prims.block, was.recv.p)))
    {
      var parts := recvP.Decrypt(input, aad, HEADER_LEN);
      if parts.None? { return None; }
      var (header, contents) := parts.value;
      assert (header + contents)[1..] == contents;
      r := Some((IsIgnored(header[0]), contents));
    }
  }

  ghost predicate IsStream(c: StreamCipher, p: Prims)
    reads c, c.cipher
  {
    c.Valid() && c.cipher.f == p.block
  }

  ghost predicate IsPacket(c: PacketCipher, p: Prims)
    reads c, c.cipher
  {
    c.Valid() && c.prims == p
  }
}
