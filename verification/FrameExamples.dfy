/** The examples of section 5.7 of RFC 6455, and the laws of masking and of the length forms. */
module FrameExamples {
  import opened Bytes
  import opened Frames

  // ---------- masking, section 5.3 -----------------------------------------

  /** Masking zeros shows the key, over and over; and it keeps the differences between payloads. */
  lemma MaskLaws(s: seq<byte>, t: seq<byte>, key: seq<byte>, i: nat)
    requires |key| == 4 && i < |s| == |t|
    ensures s[i] == 0 ==> Mask(s, key)[i] == key[i % 4]
    ensures Mask(s, key)[i] ^ Mask(t, key)[i] == s[i] ^ t[i]
  {
    MaskAt(s, key, i, i % 4);
    MaskAt(t, key, i, i % 4);
    XorLaws(s[i], t[i], key[i % 4]);
  }

  lemma MaskAt(s: seq<byte>, key: seq<byte>, i: nat, j: nat)
    requires |key| == 4 && i < |s| && j == i % 4
    ensures Mask(s, key)[i] == s[i] ^ key[j]
  {
  }

  lemma XorLaws(a: byte, b: byte, k: byte)
    ensures (a ^ k) ^ (b ^ k) == a ^ b && (a == 0 ==> a ^ k == k)
  {
  }

  // ---------- length, section 5.2 ------------------------------------------

  lemma {:induction false} ValueBelow(s: seq<byte>)
    ensures Value(s) < Pow256(|s|)
  {
    if s != [] { ValueBelow(s[..|s| - 1]); }
  }

  /** No field that a receiver reads as the same length is shorter than the one the encoder writes. */
  lemma ShortestForm(mask: byte, n: nat, l: seq<byte>)
    requires n < SIZE_LIMIT && |l| >= 1 && |l| == 1 + ExtraLength(l[0] & 0x7f)
    requires n == if |l| == 1 then (l[0] & 0x7f) as int else Value(l[1..])
    ensures |LengthField(mask, n)| <= |l|
  {
    ValueBelow(l[1..]);
    assert Pow256(1) == 256 && Pow256(2) == 0x1_0000;
    if |l| == 1 { ShortBelow(l[0] & 0x7f); }
  }

  lemma ShortBelow(short: byte)
    requires short < 128 && ExtraLength(short) == 0
    ensures short as int <= 125
  {
    assert short <= 125;
  }

  // ---------- section 5.7 --------------------------------------------------

  const HELLO: seq<byte> := [0x48, 0x65, 0x6c, 0x6c, 0x6f]
  const KEY: seq<byte> := [0x37, 0xfa, 0x21, 0x3d]

  lemma ShortField(mask: byte, n: nat, b: byte)
    requires n <= 125 && b as int == n
    ensures LengthField(mask, n) == [mask | b]
  {
    SameByte(ToByte(n), b);
  }

  /** A single-frame unmasked text message. */
  lemma UnmaskedText()
    ensures Wire(Frame(true, OP_TEXT, HELLO), None).Octets() == [0x81, 0x05] + HELLO
  {
    ShortField(0, 5, 5);
  }

  lemma MaskedHello()
    ensures Mask(HELLO, KEY) == [0x7f, 0x9f, 0x4d, 0x51, 0x58]
  {
  }

  /** A single-frame masked text message, as the client encodes it. */
  lemma MaskedText()
    ensures Encode(OP_TEXT, HELLO, KEY) == [0x81, 0x85] + KEY + [0x7f, 0x9f, 0x4d, 0x51, 0x58]
  {
    ShortField(0x80, 5, 5);
    MaskedHello();
  }

  /** A fragmented unmasked text message. */
  lemma FragmentedText()
    ensures Wire(Frame(false, OP_TEXT, HELLO[..3]), None).Octets() == [0x01, 0x03] + HELLO[..3]
    ensures Wire(Frame(true, OP_CONTINUATION, HELLO[3..]), None).Octets() == [0x80, 0x02] + HELLO[3..]
  {
    ShortField(0, 3, 3);
    ShortField(0, 2, 2);
  }

  /** An unmasked Ping and its masked Pong. */
  lemma PingAndPong()
    ensures Wire(Frame(true, OP_PING, HELLO), None).Octets() == [0x89, 0x05] + HELLO
    ensures Encode(OP_PONG, HELLO, KEY) == [0x8a, 0x85] + KEY + [0x7f, 0x9f, 0x4d, 0x51, 0x58]
  {
    ShortField(0, 5, 5);
    ShortField(0x80, 5, 5);
    MaskedHello();
  }

  lemma Field256()
    ensures LengthField(0, 256) == [0x7e, 0x01, 0x00]
  {
    ValueOfTwo(1, 0);
    BigEndianOfValue([1, 0]);
  }

  lemma ValueOfTwo(a: byte, b: byte)
    ensures Value([a, b]) == 256 * a as int + b as int
  {
    ValueSnoc([], a);
    ValueSnoc([a], b);
    assert [] + [a] == [a] && [a] + [b] == [a, b];
  }

  /** 256 octets of binary data in a single unmasked frame. */
  lemma Binary256(data: seq<byte>)
    requires |data| == 256
    ensures Wire(Frame(true, OP_BINARY, data), None).Octets() == [0x82, 0x7e, 0x01, 0x00] + data
  {
    Field256();
  }

  lemma Value64K()
    ensures Value([0, 0, 0, 0, 0, 1, 0, 0]) == 65536
  {
    var s: seq<byte> := [0, 0, 0, 0, 0];
    ZeroValue(s);
    ValueSnoc(s, 1);
    ValueSnoc(s + [1], 0);
    ValueSnoc(s + [1] + [0], 0);
    assert s + [1] + [0] + [0] == [0, 0, 0, 0, 0, 1, 0, 0];
  }

  lemma {:induction false} ZeroValue(s: seq<byte>)
    requires forall i :: 0 <= i < |s| ==> s[i] == 0
    ensures Value(s) == 0
  {
    if s != [] { ZeroValue(s[..|s| - 1]); }
  }

  /** 64 KiB of binary data in a single unmasked frame. */
  lemma Binary64K(data: seq<byte>)
    requires |data| == 65536
    ensures Wire(Frame(true, OP_BINARY, data), None).Octets() == [0x82, 0x7f, 0, 0, 0, 0, 0, 1, 0, 0] + data
  {
    Value64K();
    BigEndianOfValue([0, 0, 0, 0, 0, 1, 0, 0]);
  }

  /** A Close frame with status code 1000 and a reason, and the empty one. */
  lemma CloseFrames(reason: seq<byte>, key: seq<byte>)
    requires 0 !in reason && |reason| <= 123 && |key| == 4
    ensures ClosePayload(1000, reason) == [0x03, 0xe8] + reason
    ensures Encode(OP_CLOSE, [], key) == [0x88, 0x80] + key
  {
    ValueOfTwo(3, 0xe8);
    BigEndianOfValue([3, 0xe8]);
    UpToNulPrefix(reason);
    ShortField(0x80, 0, 0);
  }
}
