/** SHA-1 as FIPS 180-4 defines it: functions, schedule, compression, padding and hash computation. */
module Sha1Spec {
  import opened Bytes

  type word = bv32

  datatype Hash = Hash(a: word, b: word, c: word, d: word, e: word)

  /** Section 5.3.1. */
  const INITIAL := Hash(0x67452301, 0xEFCDAB89, 0x98BADCFE, 0x10325476, 0xC3D2E1F0)

  /** Section 3.2: rotation to the left, by the three amounts in use. */
  function Rotl1(x: word): word { (x << 1) | (x >> 31) }
  function Rotl5(x: word): word { (x << 5) | (x >> 27) }
  function Rotl30(x: word): word { (x << 30) | (x >> 2) }

  /** Section 3.2: addition modulo 2^32, of two words and of the five of a round. */
  function Add(x: word, y: word): word { x + y }
  function Sum(p: word, f: word, e: word, k: word, w: word): word { p + f + e + k + w }

  /** Section 4.1.1, in the exclusive-or forms. */
  function Ch(x: word, y: word, z: word): word { (x & y) ^ (!x & z) }
  function Parity(x: word, y: word, z: word): word { x ^ y ^ z }
  function Maj(x: word, y: word, z: word): word { (x & y) ^ (x & z) ^ (y & z) }

  function F(t: nat, x: word, y: word, z: word): word {
    if t < 20 then Ch(x, y, z) else if t < 40 then Parity(x, y, z) else if t < 60 then Maj(x, y, z) else Parity(x, y, z)
  }

  /** Section 4.2.1. */
  function K(t: nat): word {
    if t < 20 then 0x5A827999 else if t < 40 then 0x6ED9EBA1 else if t < 60 then 0x8F1BBCDC else 0xCA62C1D6
  }

  /** The constants are the roots of 2, 3, 5 and 10, as 30 binary places hold them. */
  lemma KIsRoot(t: nat)
    ensures var q, k := if t < 20 then 2 else if t < 40 then 3 else if t < 60 then 5 else 10, K(t) as int;
      k * k <= q * 0x1000_0000_0000_0000 < (k + 1) * (k + 1)
  {
    assert K(t) as int == if t < 20 then 0x5A827999 else if t < 40 then 0x6ED9EBA1 else if t < 60 then 0x8F1BBCDC
                          else 0xCA62C1D6;
  }

  /** Four octets as a word, most significant octet first. */
  function Word(b0: byte, b1: byte, b2: byte, b3: byte): word {
    (b0 as word) * 0x100_0000 + (b1 as word) * 0x1_0000 + (b2 as word) * 0x100 + b3 as word
  }

  /** Word t of a block. */
  function WordAt(block: seq<byte>, t: nat): word
    requires 4 * t + 3 < |block|
  {
    Word(block[4 * t], block[4 * t + 1], block[4 * t + 2], block[4 * t + 3])
  }

  /** Section 6.1.2, step 1: the message schedule. */
  function Schedule(block: seq<byte>, t: nat): word
    requires |block| == 64
  {
    if t < 16 then WordAt(block, t)
    else Rotl1(Schedule(block, t - 3) ^ Schedule(block, t - 8) ^ Schedule(block, t - 14) ^ Schedule(block, t - 16))
  }

  /** Step 3, for one t, from the values of the round function, the constant and the schedule. */
  function Round(h: Hash, f: word, k: word, w: word): Hash {
    Hash(Sum(Rotl5(h.a), f, h.e, k, w), h.a, Rotl30(h.b), h.c, h.d)
  }

  function Rounds(h: Hash, block: seq<byte>, t: nat): Hash
    requires |block| == 64
    decreases block, t
  {
    if t == 0 then h else
    var r := Rounds(h, block, t - 1);
    Round(r, F(t - 1, r.b, r.c, r.d), K(t - 1), Schedule(block, t - 1))
  }

  /** Steps 2 to 4: one block. */
  function Compress(h: Hash, block: seq<byte>): Hash
    requires |block| == 64
  {
    var r := Rounds(h, block, 80);
    Hash(Add(h.a, r.a), Add(h.b, r.b), Add(h.c, r.c), Add(h.d, r.d), Add(h.e, r.e))
  }

  /** The hash value after the first n blocks of m. */
  function Chain(m: seq<byte>, n: nat): Hash
    requires 64 * n <= |m|
  {
    if n == 0 then INITIAL else Compress(Chain(m, n - 1), m[64 * (n - 1)..64 * n])
  }

  function Zeros(n: nat): seq<byte> {
    seq(n, _ => 0 as byte)
  }

  /** How many zero octets follow the 0x80 octet of a message of n octets. */
  function Gap(n: nat): nat {
    (119 - n % 64) % 64
  }

  /** Section 5.1.1: a one bit, zeros, and the length in bits as a 64-bit number. */
  function Pad(m: seq<byte>): (p: seq<byte>)
    requires 8 * |m| < Pow256(8)
  {
    m + [0x80] + Zeros(Gap(|m|)) + BigEndian(8 * |m|, 8)
  }

  /** Octet k of a word, most significant first. */
  function OctetOf(x: word, k: nat): byte {
    if k == 0 then ((x >> 24) & 0xff) as byte
    else if k == 1 then ((x >> 16) & 0xff) as byte
    else if k == 2 then ((x >> 8) & 0xff) as byte
    else (x & 0xff) as byte
  }

  /** The five words of a hash value as twenty octets. */
  function HashOctets(h: Hash): (s: seq<byte>)
    ensures |s| == 20
  {
    var words := [h.a, h.b, h.c, h.d, h.e];
    seq(20, i requires 0 <= i < 20 => OctetOf(words[i / 4], i % 4))
  }

  /** Section 6.1: the digest. */
  function Digest(m: seq<byte>): seq<byte>
    requires 8 * |m| < Pow256(8)
  {
    HashOctets(Chain(Pad(m), |Pad(m)| / 64))
  }

  /** The padded message is a whole number of blocks, and the padding the shortest that makes it so. */
  lemma PadIsWhole(m: seq<byte>)
    requires 8 * |m| < Pow256(8)
    ensures |Pad(m)| % 64 == 0 && |m| + 9 <= |Pad(m)| < |m| + 9 + 64
  {
    assert |Pad(m)| == |m| + 1 + Gap(|m|) + 8;
    GapFits(|m|);
  }

  lemma GapFits(n: nat)
    ensures (n + 1 + Gap(n)) % 64 == 56 && (n + 1 + Gap(n) + 8) % 64 == 0 && Gap(n) < 64
  {
    var q, r := n / 64, n % 64;
    assert n == 64 * q + r;
    if r <= 55 {
      assert Gap(n) == 55 - r;
    } else {
      assert Gap(n) == 119 - r;
    }
  }

  /** Chaining looks at the blocks it covers only. */
  lemma {:induction false} ChainPrefix(m: seq<byte>, m2: seq<byte>, n: nat)
    requires 64 * n <= |m| && 64 * n <= |m2| && m[..64 * n] == m2[..64 * n]
    ensures Chain(m, n) == Chain(m2, n)
  {
    if n > 0 {
      var k := 64 * (n - 1);
      assert m[..k] == m[..64 * n][..k] == m2[..64 * n][..k] == m2[..k];
      ChainPrefix(m, m2, n - 1);
      assert m[k..64 * n] == m[..64 * n][k..] == m2[..64 * n][k..] == m2[k..64 * n];
    }
  }

  /** The OR forms that the code computes are the functions of section 4.1.1. */
  lemma OrForms(x: word, y: word, z: word)
    ensures (x & y) | (!x & z) == Ch(x, y, z)
    ensures (x & y) | (x & z) | (y & z) == Maj(x, y, z)
  {
  }

  /** Shifting octets into place and or-ing them is the big-endian word. */
  lemma OrWord(b0: byte, b1: byte, b2: byte, b3: byte)
    ensures ((b0 as word) << 24) | ((b1 as word) << 16) | ((b2 as word) << 8) | (b3 as word)
         == Word(b0, b1, b2, b3)
  {
  }
}
