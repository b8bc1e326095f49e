/**
 The stream cipher with its buffer: it makes the key stream in blocks of 64 bytes and
 keeps what is left of the last one. The block function is any function.
 */
module ChaCha20 {
  type Bytes = seq<bv8>
  type Nonce = (nat, nat)

  /** The byte at an index in a block of the key stream. */
  type BlockFn = (Bytes, Nonce, nat, nat) -> bv8

  const BLOCK: int := 64
  const KEY_LENGTH: int := 32

  function StreamByte(f: BlockFn, key: Bytes, nonce: Nonce, p: nat): bv8 {
    f(key, nonce, p / BLOCK, p % BLOCK)
  }

  function KeyStream(f: BlockFn, key: Bytes, nonce: Nonce, p: nat, n: nat): (r: Bytes)
    ensures |r| == n && forall i :: 0 <= i < n ==> r[i] == StreamByte(f, key, nonce, p + i)
  {
    seq(n, i requires 0 <= i => StreamByte(f, key, nonce, p + i))
  }

  function XorBytes(a: Bytes, b: Bytes): (r: Bytes)
    requires |a| == |b|
    ensures |r| == |a| && forall i :: 0 <= i < |a| ==> r[i] == a[i] ^ b[i]
  {
    seq(|a|, i requires 0 <= i < |a| => a[i] ^ b[i])
  }

  lemma XorTwice(a: Bytes, b: Bytes)
    requires |a| == |b|
    ensures XorBytes(XorBytes(a, b), b) == a
  {
    forall i | 0 <= i < |a| ensures (a[i] ^ b[i]) ^ b[i] == a[i] { CancelXor(a[i], b[i]); }
  }

  lemma CancelXor(x: bv8, y: bv8)
    ensures (x ^ y) ^ y == x
  {
  }

  lemma StreamSplits(f: BlockFn, key: Bytes, nonce: Nonce, p: nat, m: nat, n: nat)
    ensures KeyStream(f, key, nonce, p, m + n) == KeyStream(f, key, nonce, p, m) + KeyStream(f, key, nonce, p + m, n)
  {
    var a, b := KeyStream(f, key, nonce, p, m + n), KeyStream(f, key, nonce, p + m, n);
    forall i | 0 <= i < n ensures a[m + i] == b[i] { assert p + (m + i) == (p + m) + i; }
  }

  lemma StreamJoins(f: BlockFn, key: Bytes, nonce: Nonce, p: nat, a: Bytes, b: Bytes)
    requires a == KeyStream(f, key, nonce, p, |a|) && b == KeyStream(f, key, nonce, p + |a|, |b|)
    ensures a + b == KeyStream(f, key, nonce, p, |a + b|)
  {
    StreamSplits(f, key, nonce, p, |a|, |b|);
  }

  lemma XorSplits(a: Bytes, b: Bytes, c: Bytes, d: Bytes)
    requires |a| == |c| && |b| == |d|
    ensures XorBytes(a + b, c + d) == XorBytes(a, c) + XorBytes(b, d)
  {
  }

  lemma InBlock(block: nat, i: nat)
    requires i < BLOCK
    ensures (BLOCK * block + i) / BLOCK == block && (BLOCK * block + i) % BLOCK == i
  {
  }

  class Cipher {
    const f: BlockFn
    var key: Bytes
    var nonce: Nonce
    var block: nat
    var buffer: Bytes
    var left: nat

    ghost predicate Valid()
      reads this
    {
      && left < BLOCK && |buffer| == BLOCK
      && (left > 0 ==> block > 0 && forall i :: 0 <= i < BLOCK ==> buffer[i] == f(key, nonce, block - 1, i))
    }

    /** How much of the key stream has been used. */
    ghost function Position(): (p: nat)
      requires Valid()
      reads this
    {
      BLOCK * block - left
    }

    constructor (f: BlockFn, key: Bytes)
      ensures Valid() && this.f == f && this.key == key && nonce == (0, 0) && Position() == 0
    {
      this.f, this.key, nonce, block, left := f, key, (0, 0), 0, 0;
      buffer := seq(BLOCK, i => 0);
    }

    method SetKey(key: Bytes)
      modifies this
      ensures Valid() && this.key == key && nonce == (0, 0) && Position() == 0
    {
      this.key, nonce, block, left := key, (0, 0), 0, 0;
      buffer := seq(BLOCK, i => 0);
    }

    method Seek(nonce: Nonce, block: nat)
      requires Valid()
      modifies this
      ensures Valid() && key == old(key) && this.nonce == nonce && Position() == BLOCK * block
    {
      this.nonce, this.block, left := nonce, block, 0;
    }

    /** The next `n` bytes of the key stream: first what is left in the buffer, then whole
        blocks, then the beginning of one more. */
    method Keystream(n: nat) returns (out: Bytes)
      requires Valid()
      modifies this
      ensures Valid() && key == old(key) && nonce == old(nonce)
      ensures out == KeyStream(f, key, nonce, old(Position()), n) && Position() == old(Position()) + n
    {
      ghost var p := Position();
      out := TakeLeft(n);
      if |out| < n {
        var more := TakeBlocks((n - |out|) / BLOCK);
        StreamJoins(f, key, nonce, p, out, more);
        out := out + more;
        if |out| < n {
          var last := TakePart(n - |out|);
          StreamJoins(f, key, nonce, p, out, last);
          out := out + last;
        }
      }
    }

    method TakeLeft(n: nat) returns (out: Bytes)
      requires Valid()
      modifies this
      ensures Valid() && key == old(key) && nonce == old(nonce) && |out| <= n
      ensures out == KeyStream(f, key, nonce, old(Position()), |out|) && Position() == old(Position()) + |out|
      ensures |out| < n ==> left == 0
    {
      var k := if left <= n then left else n;
      out := buffer[BLOCK - left..BLOCK - left + k];
      forall i | 0 <= i < k ensures out[i] == StreamByte(f, key, nonce, old(Position()) + i) {
        InBlock(block - 1, BLOCK - left + i);
      }
      left := left - k;
    }

    method TakeBlocks(n: nat) returns (out: Bytes)
      requires Valid() && left == 0
      modifies this
      ensures Valid() && left == 0 && key == old(key) && nonce == old(nonce)
      ensures |out| == BLOCK * n && out == KeyStream(f, key, nonce, old(Position()), |out|) &&
              Position() == old(Position()) + |out|
    {
      out := [];
      for j := 0 to n
        invariant Valid() && left == 0 && key == old(key) && nonce == old(nonce)
        invariant |out| == BLOCK * j && out == KeyStream(f, key, nonce, old(Position()), |out|) &&
                  Position() == old(Position()) + |out|
      {
        StreamSplits(f, key, nonce, old(Position()), |out|, BLOCK);
        var fresh64 := NextBlock();
        out := out + fresh64;
      }
    }

    method TakePart(n: nat) returns (out: Bytes)
      requires Valid() && left == 0 && 0 < n < BLOCK
      modifies this
      ensures Valid() && key == old(key) && nonce == old(nonce)
      ensures out == KeyStream(f, key, nonce, old(Position()), n) && Position() == old(Position()) + n
    {
      buffer := NextBlock();
      out := buffer[..n];
      left := BLOCK - n;
      forall i | 0 <= i < BLOCK ensures buffer[i] == f(key, nonce, block - 1, i) { InBlock(block - 1, i); }
    }

    /** One whole block, past the buffer. */
    method NextBlock() returns (out: Bytes)
      requires Valid() && left == 0
      modifies this
      ensures Valid() && left == 0 && key == old(key) && nonce == old(nonce) && block == old(block) + 1
      ensures out == KeyStream(f, key, nonce, old(Position()), BLOCK)
    {
      var k, m, b := key, nonce, block;
      out := seq(BLOCK, i requires 0 <= i => f(k, m, b, i));
      forall i | 0 <= i < BLOCK ensures out[i] == StreamByte(f, key, nonce, old(Position()) + i) { InBlock(b, i); }
      block := block + 1;
    }

    /** Encrypts or decrypts: it does not show how a message was cut into calls. */
    method Crypt(input: Bytes) returns (output: Bytes)
      requires Valid()
      modifies this
      ensures Valid() && key == old(key) && nonce == old(nonce) && Position() == old(Position()) + |input|
      ensures output == XorBytes(input, KeyStream(f, key, nonce, old(Position()), |input|))
    {
      ghost var p := Position();
      var first := TakeLeft(|input|);
      var used := |first|;
      output := XorBytes(input[..used], first);
      assert output == Made(f, key, nonce, p, input, used);
      if used < |input| {
        var n := |input| - used;
        output := CryptWhole(input, used, n / BLOCK, output, p);
        used := used + BLOCK * (n / BLOCK);
        if used < |input| { output := CryptPart(input, used, output, p); }
      }
      assert input[..|input|] == input;
    }

    method CryptWhole(input: Bytes, used: nat, n: nat, output: Bytes, ghost p: nat) returns (more: Bytes)
      requires Valid() && left == 0 && Position() == p + used && used + BLOCK * n <= |input|
      requires output == Made(f, key, nonce, p, input, used)
      modifies this
      ensures Valid() && left == 0 && key == old(key) && nonce == old(nonce) && Position() == p + used + BLOCK * n
      ensures more == Made(f, key, nonce, p, input, used + BLOCK * n)
    {
      var stream := TakeBlocks(n);
      XorGrows(f, key, nonce, p, input, used, BLOCK * n);
      more := output + XorBytes(input[used..used + BLOCK * n], stream);
    }

    method CryptPart(input: Bytes, used: nat, output: Bytes, ghost p: nat) returns (more: Bytes)
      requires Valid() && left == 0 && Position() == p + used && used < |input| < used + BLOCK
      requires output == Made(f, key, nonce, p, input, used)
      modifies this
      ensures Valid() && key == old(key) && nonce == old(nonce) && Position() == p + |input|
      ensures more == Made(f, key, nonce, p, input, |input|)
    {
      var n := |input| - used;
      var stream := TakePart(n);
      XorGrows(f, key, nonce, p, input, used, n);
      more := output + XorBytes(input[used..used + n], stream);
    }
  }

  /** What has been made so far. */
  ghost function Made(f: BlockFn, key: Bytes, nonce: Nonce, p: nat, input: Bytes, used: nat): Bytes
    requires used <= |input|
  {
    XorBytes(input[..used], KeyStream(f, key, nonce, p, used))
  }

  lemma XorGrows(f: BlockFn, key: Bytes, nonce: Nonce, p: nat, input: Bytes, used: nat, n: nat)
    requires used + n <= |input|
    ensures Made(f, key, nonce, p, input, used + n) ==
            Made(f, key, nonce, p, input, used) + XorBytes(input[used..used + n], KeyStream(f, key, nonce, p + used, n))
  {
    StreamSplits(f, key, nonce, p, used, n);
    XorSplits(input[..used], input[used..used + n], KeyStream(f, key, nonce, p, used),
        KeyStream(f, key, nonce, p + used, n));
    assert input[..used + n] == input[..used] + input[used..used + n];
  }
}
