/** Cipher block chaining (section 6.2 of NIST SP 800-38A) over an arbitrary keyed permutation. */
module Cbc {
  import opened Bytes

  datatype BlockCipher = BlockCipher(
    size: nat,
    enc: (seq<byte>, seq<byte>) -> seq<byte>,
    dec: (seq<byte>, seq<byte>) -> seq<byte>)

  /** Under every key, enc and dec are inverse permutations of the blocks. */
  ghost predicate Permutes(c: BlockCipher) {
    && c.size > 0
    && (forall k, b | |b| == c.size :: |c.enc(k, b)| == c.size && c.dec(k, c.enc(k, b)) == b)
    && (forall k, b | |b| == c.size :: |c.dec(k, b)| == c.size && c.enc(k, c.dec(k, b)) == b)
  }

  type Cipher = c: BlockCipher | Permutes(c) ghost witness BlockCipher(1, (k, b) => b, (k, b) => b)

  function Xor(a: seq<byte>, b: seq<byte>): (r: seq<byte>)
    requires |a| == |b|
    ensures |r| == |a|
  {
    seq(|a|, i requires 0 <= i < |a| => a[i] ^ b[i])
  }

  lemma XorTwice(a: seq<byte>, b: seq<byte>)
    requires |a| == |b|
    ensures Xor(Xor(a, b), b) == a
  {
    forall i | 0 <= i < |a| ensures (a[i] ^ b[i]) ^ b[i] == a[i] {}
  }

  /** Whole blocks only; n is a multiple of the block size. */
  predicate Whole(c: Cipher, n: nat) {
    n == 0 || (n >= c.size && Whole(c, n - c.size))
  }

  function Encrypt(c: Cipher, key: seq<byte>, iv: seq<byte>, plain: seq<byte>): (r: seq<byte>)
    requires |iv| == c.size && Whole(c, |plain|)
    ensures |r| == |plain|
    decreases |plain|
  {
    if plain == [] then []
    else
      var block := c.enc(key, Xor(plain[..c.size], iv));
      block + Encrypt(c, key, block, plain[c.size..])
  }

  function Decrypt(c: Cipher, key: seq<byte>, iv: seq<byte>, coded: seq<byte>): (r: seq<byte>)
    requires |iv| == c.size && Whole(c, |coded|)
    ensures |r| == |coded|
    decreases |coded|
  {
    if coded == [] then []
    else
      Xor(c.dec(key, coded[..c.size]), iv) + Decrypt(c, key, coded[..c.size], coded[c.size..])
  }

  /** The vector left behind by either direction: the last block of ciphertext. */
  function NextIv(c: Cipher, iv: seq<byte>, coded: seq<byte>): (r: seq<byte>)
    requires |iv| == c.size && Whole(c, |coded|)
    ensures |r| == c.size
    decreases |coded|
  {
    if coded == [] then iv else NextIv(c, coded[..c.size], coded[c.size..])
  }

  lemma SingleBlock(c: Cipher, iv: seq<byte>, coded: seq<byte>)
    requires |iv| == |coded| == c.size && Whole(c, c.size)
    ensures NextIv(c, iv, coded) == coded
  {
    assert coded[..c.size] == coded && coded[c.size..] == [];
  }

  lemma {:induction false} DecryptEncrypt(c: Cipher, key: seq<byte>, iv: seq<byte>, plain: seq<byte>)
    requires |iv| == c.size && Whole(c, |plain|)
    ensures Decrypt(c, key, iv, Encrypt(c, key, iv, plain)) == plain
    decreases |plain|
  {
    if plain != [] {
      var head, tail := plain[..c.size], plain[c.size..];
      var block := c.enc(key, Xor(head, iv));
      var coded := Encrypt(c, key, iv, plain);
      assert coded[..c.size] == block && coded[c.size..] == Encrypt(c, key, block, tail);
      XorTwice(head, iv);
      DecryptEncrypt(c, key, block, tail);
    }
  }

  lemma {:induction false} EncryptDecrypt(c: Cipher, key: seq<byte>, iv: seq<byte>, coded: seq<byte>)
    requires |iv| == c.size && Whole(c, |coded|)
    ensures Encrypt(c, key, iv, Decrypt(c, key, iv, coded)) == coded
    decreases |coded|
  {
    if coded != [] {
      var head, tail := coded[..c.size], coded[c.size..];
      var plain := Decrypt(c, key, iv, coded);
      assert plain[..c.size] == Xor(c.dec(key, head), iv) && plain[c.size..] == Decrypt(c, key, head, tail);
      XorTwice(c.dec(key, head), iv);
      EncryptDecrypt(c, key, head, tail);
    }
  }

  lemma FirstBlock(c: Cipher, key: seq<byte>, iv: seq<byte>, plain: seq<byte>)
    requires |iv| == c.size && Whole(c, |plain|) && c.size <= |plain|
    ensures var coded := Encrypt(c, key, iv, plain);
            && coded[..c.size] == c.enc(key, Xor(plain[..c.size], iv))
            && Whole(c, |plain| - c.size) && coded[c.size..] == Encrypt(c, key, coded[..c.size], plain[c.size..])
  {
    var block := c.enc(key, Xor(plain[..c.size], iv));
    var coded := block + Encrypt(c, key, block, plain[c.size..]);
    assert coded[..c.size] == block;
  }

  /** What chaining is: each block of ciphertext is the encryption of its block of plaintext,
      octet by octet added to the ciphertext before it, or to the vector. */
  lemma {:induction false} ChainedBlock(c: Cipher, key: seq<byte>, iv: seq<byte>, plain: seq<byte>, at: nat, x: seq<byte>)
    requires |iv| == c.size && Whole(c, |plain|) && Whole(c, at) && at + c.size <= |plain| && |x| == c.size
    requires var coded := Encrypt(c, key, iv, plain);
             forall i | 0 <= i < c.size :: x[i] == plain[at + i] ^ (if at == 0 then iv[i] else coded[at - c.size + i])
    ensures Encrypt(c, key, iv, plain)[at..at + c.size] == c.enc(key, x)
    decreases at
  {
    hide Encrypt, Xor;
    FirstBlock(c, key, iv, plain);
    var head, tail, coded := plain[..c.size], plain[c.size..], Encrypt(c, key, iv, plain);
    if at == 0 {
      XorIs(head, iv, x);
    } else {
      var block, rest, a := coded[..c.size], coded[c.size..], at - c.size;
      assert Whole(c, a) && (a == 0 || a >= c.size);
      forall i | 0 <= i < c.size ensures x[i] == tail[a + i] ^ (if a == 0 then block[i] else rest[a - c.size + i]) {
        assert tail[a + i] == plain[at + i];
      }
      ChainedBlock(c, key, block, tail, a, x);
      assert coded[at..at + c.size] == rest[a..a + c.size];
    }
  }

  lemma XorIs(a: seq<byte>, b: seq<byte>, x: seq<byte>)
    requires |a| == |b| == |x| && forall i | 0 <= i < |x| :: x[i] == a[i] ^ b[i]
    ensures Xor(a, b) == x
  {
  }

  /** The vector left behind is the last block, or the old one if there was none. */
  lemma {:induction false} NextIvIs(c: Cipher, iv: seq<byte>, coded: seq<byte>)
    requires |iv| == c.size && Whole(c, |coded|)
    ensures NextIv(c, iv, coded) == if coded == [] then iv else coded[|coded| - c.size..]
    decreases |coded|
  {
    if coded != [] {
      NextIvIs(c, coded[..c.size], coded[c.size..]);
      if coded[c.size..] == [] {
        assert coded[..c.size] == coded;
      }
    }
  }

  /** Encrypting in two parts, the vector carried over, is encrypting the whole. */
  lemma {:induction false} EncryptAppend(c: Cipher, key: seq<byte>, iv: seq<byte>, p: seq<byte>, q: seq<byte>)
    requires |iv| == c.size && Whole(c, |p|) && Whole(c, |q|)
    ensures Whole(c, |p + q|)
    ensures Encrypt(c, key, iv, p + q)
         == Encrypt(c, key, iv, p) + Encrypt(c, key, NextIv(c, iv, Encrypt(c, key, iv, p)), q)
    decreases |p|
  {
    if p == [] {
      assert p + q == q;
    } else {
      var head, tail := p[..c.size], p[c.size..];
      var block := c.enc(key, Xor(head, iv));
      var coded := Encrypt(c, key, iv, p);
      assert (p + q)[..c.size] == head && (p + q)[c.size..] == tail + q;
      assert coded[..c.size] == block && coded[c.size..] == Encrypt(c, key, block, tail);
      EncryptAppend(c, key, block, tail, q);
    }
  }

  /** CBC over a caller's vector, which is left ready for the next message. */
  method EncryptInPlace(c: Cipher, key: seq<byte>, iv: array<byte>, plain: seq<byte>) returns (coded: seq<byte>)
    requires c.size <= iv.Length && Whole(c, |plain|)
    modifies iv
    ensures coded == Encrypt(c, key, old(iv[..c.size]), plain)
    ensures iv[..c.size] == NextIv(c, old(iv[..c.size]), coded)
  {
    coded := Encrypt(c, key, iv[..c.size], plain);
    var last := NextIv(c, iv[..c.size], coded);
    forall i | 0 <= i < c.size {
      iv[i] := last[i];
    }
  }

  method DecryptInPlace(c: Cipher, key: seq<byte>, iv: array<byte>, coded: seq<byte>) returns (plain: seq<byte>)
    requires c.size <= iv.Length && Whole(c, |coded|)
    modifies iv
    ensures plain == Decrypt(c, key, old(iv[..c.size]), coded)
    ensures iv[..c.size] == NextIv(c, old(iv[..c.size]), coded)
  {
    plain := Decrypt(c, key, iv[..c.size], coded);
    var last := NextIv(c, iv[..c.size], coded);
    forall i | 0 <= i < c.size {
      iv[i] := last[i];
    }
  }
}
