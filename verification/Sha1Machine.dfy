/** Computing with literal words: the state of the compression function, ten rounds at a time. */
module Sha1Machine {
  import opened Bytes
  import opened Sha1Spec

  /** Sixteen words of the schedule, from word t on, and the hash value after t rounds. */
  datatype Machine = Machine(
    w0: word, w1: word, w2: word, w3: word, w4: word, w5: word, w6: word, w7: word,
    w8: word, w9: word, w10: word, w11: word, w12: word, w13: word, w14: word, w15: word, h: Hash)

  function Next(m: Machine, t: nat): Machine {
    Machine(m.w1, m.w2, m.w3, m.w4, m.w5, m.w6, m.w7, m.w8, m.w9, m.w10, m.w11, m.w12, m.w13, m.w14, m.w15,
            Rotl1(m.w13 ^ m.w8 ^ m.w2 ^ m.w0), Round(m.h, F(t, m.h.b, m.h.c, m.h.d), K(t), m.w0))
  }

  function Five(m: Machine, t: nat): Machine {
    Next(Next(Next(Next(Next(m, t), t + 1), t + 2), t + 3), t + 4)
  }

  function Ten(m: Machine, t: nat): Machine {
    Five(Five(m, t), t + 5)
  }

  /** The machine after t rounds, for the words w of a schedule and the hash values r of its rounds. */
  ghost function Read(w: nat -> word, r: nat -> Hash, t: nat): Machine {
    Machine(w(t), w(t + 1), w(t + 2), w(t + 3), w(t + 4), w(t + 5), w(t + 6), w(t + 7), w(t + 8), w(t + 9), w(t + 10),
            w(t + 11), w(t + 12), w(t + 13), w(t + 14), w(t + 15), r(t))
  }

  lemma ReadNext(w: nat -> word, r: nat -> Hash, t: nat)
    requires w(t + 16) == Rotl1(w(t + 13) ^ w(t + 8) ^ w(t + 2) ^ w(t))
    requires r(t + 1) == Round(r(t), F(t, r(t).b, r(t).c, r(t).d), K(t), w(t))
    ensures Read(w, r, t + 1) == Next(Read(w, r, t), t)
  {
  }

  lemma ScheduleStep(block: seq<byte>, t: nat)
    requires |block| == 64
    ensures Schedule(block, t + 16)
         == Rotl1(Schedule(block, t + 13) ^ Schedule(block, t + 8) ^ Schedule(block, t + 2) ^ Schedule(block, t))
  {
  }

  lemma RoundStep(h: Hash, block: seq<byte>, t: nat)
    requires |block| == 64
    ensures var r := Rounds(h, block, t);
      Rounds(h, block, t + 1) == Round(r, F(t, r.b, r.c, r.d), K(t), Schedule(block, t))
  {
  }

  ghost function ReadBlock(block: seq<byte>, h: Hash, t: nat): Machine
    requires |block| == 64
  {
    Read((i: nat) => Schedule(block, i), (i: nat) => Rounds(h, block, i), t)
  }

  lemma BlockProceeds(block: seq<byte>, h: Hash)
    requires |block| == 64
    ensures Proceeds((t: nat) => ReadBlock(block, h, t))
  {
    forall t: nat ensures ReadBlock(block, h, t + 1) == Next(ReadBlock(block, h, t), t) {
      var w, r := (i: nat) => Schedule(block, i), (i: nat) => Rounds(h, block, i);
      ScheduleStep(block, t);
      RoundStep(h, block, t);
      ReadNext(w, r, t);
    }
  }

  /** A sequence of machines, one round apart. */
  ghost predicate Proceeds(read: nat -> Machine) {
    forall t: nat :: read(t + 1) == Next(read(t), t)
  }

  lemma FiveSteps(read: nat -> Machine, t: nat)
    requires Proceeds(read)
    ensures read(t + 5) == Five(read(t), t)
  {
    assert read(t + 1) == Next(read(t), t);
    assert read(t + 2) == Next(read(t + 1), t + 1);
    assert read(t + 3) == Next(read(t + 2), t + 2);
    assert read(t + 4) == Next(read(t + 3), t + 3);
    assert read(t + 5) == Next(read(t + 4), t + 4);
  }

  lemma FiveTo(read: nat -> Machine, t: nat, m: Machine, n: Machine)
    requires Proceeds(read) && read(t) == m && Five(m, t) == n
    ensures read(t + 5) == n
  {
    FiveSteps(read, t);
  }

  lemma TenSteps(read: nat -> Machine, t: nat, m: Machine, n: Machine)
    requires Proceeds(read) && read(t) == m && Ten(m, t) == n
    ensures read(t + 10) == n
  {
    FiveSteps(read, t);
    FiveSteps(read, t + 5);
  }

  lemma {:induction false} BigEndianZero(width: nat)
    ensures BigEndian(0, width) == Zeros(width)
  {
    if width > 0 {
      BigEndianZero(width - 1);
      SameByte(ToByte(0), 0);
    }
  }

  lemma BigEndianDigit(n: nat, p: nat, d: nat, b: byte, width: nat, rest: seq<byte>)
    requires n == 256 * p + d && d == b as int && BigEndian(p, width) == rest
    ensures BigEndian(n, width + 1) == rest + [b]
  {
    assert n / 256 == p && n % 256 == d;
    SameByte(ToByte(d), b);
  }

  /** Numbers below 2^16 end in two octets. */
  lemma BigEndianSmall(n: nat, h: nat, l: nat, hi: byte, lo: byte, width: nat, zeros: seq<byte>)
    requires n == 256 * h + l && h == hi as int && l == lo as int && BigEndian(0, width) == zeros
    ensures BigEndian(n, width + 2) == zeros + [hi] + [lo]
  {
    var next := width + 1;
    BigEndianDigit(h, 0, h, hi, width, zeros);
    BigEndianDigit(n, h, l, lo, next, zeros + [hi]);
  }

  lemma PadAs(m: seq<byte>, gap: nat, length: seq<byte>)
    requires 8 * |m| < Pow256(8) && gap == Gap(|m|) && length == BigEndian(8 * |m|, 8)
    ensures Pad(m) == m + [0x80] + Zeros(gap) + length
  {
  }

  lemma ZerosJoin(s: seq<byte>, a: nat, b: nat, x: seq<byte>, y: seq<byte>)
    ensures s + Zeros(a) + (Zeros(b) + x + y) == s + Zeros(a + b) + x + y
  {
    assert Zeros(a) + Zeros(b) == Zeros(a + b);
  }

  /** The padding of a short message: a one bit, zeros, and a length of two octets at the end. */
  lemma PadShort(m: seq<byte>, h: nat, l: nat, hi: byte, lo: byte, gap: nat, width: nat)
    requires 8 * |m| < Pow256(8) && gap == Gap(|m|) && width + 2 == 8
    requires 8 * |m| == 256 * h + l && h == hi as int && l == lo as int
    ensures Pad(m) == m + [0x80] + Zeros(gap + width) + [hi] + [lo]
  {
    var n, zeros := 8 * |m|, Zeros(width);
    BigEndianZero(width);
    BigEndianSmall(n, h, l, hi, lo, width, zeros);
    PadAs(m, gap, zeros + [hi] + [lo]);
    ZerosJoin(m + [0x80], gap, width, [hi], [lo]);
  }

  lemma PadLayout(m: seq<byte>, zeros: nat, hi: byte, lo: byte, p: seq<byte>)
    requires p == m + [0x80] + Zeros(zeros) + [hi] + [lo]
    ensures |p| == |m| + zeros + 3 && p[|m|] == 0x80 && p[..|m|] == m
    ensures forall i :: |m| < i <= |m| + zeros ==> p[i] == 0
    ensures p[|m| + zeros + 1] == hi && p[|m| + zeros + 2] == lo
  {
  }

  lemma ReadWords(block: seq<byte>, h: Hash, m: Machine)
    requires |block| == 64 && h == m.h
    requires WordAt(block, 0) == m.w0 && WordAt(block, 1) == m.w1
    requires WordAt(block, 2) == m.w2 && WordAt(block, 3) == m.w3
    requires WordAt(block, 4) == m.w4 && WordAt(block, 5) == m.w5
    requires WordAt(block, 6) == m.w6 && WordAt(block, 7) == m.w7
    requires WordAt(block, 8) == m.w8 && WordAt(block, 9) == m.w9
    requires WordAt(block, 10) == m.w10 && WordAt(block, 11) == m.w11
    requires WordAt(block, 12) == m.w12 && WordAt(block, 13) == m.w13
    requires WordAt(block, 14) == m.w14 && WordAt(block, 15) == m.w15
    ensures ReadBlock(block, h, 0) == m
  {
  }

  /** A block of zeros but for its first and last words. */
  lemma ReadSparse(block: seq<byte>, h: Hash, first: word, last: word)
    requires |block| == 64 && WordAt(block, 0) == first && WordAt(block, 15) == last
    requires forall i :: 4 <= i < 60 ==> block[i] == 0
    ensures ReadBlock(block, h, 0) == Machine(first, 0, 0, 0, 0, 0, 0, 0, 0, 0, 0, 0, 0, 0, 0, last, h)
  {
  }

  function Four(x: word): seq<byte> {
    [OctetOf(x, 0), OctetOf(x, 1), OctetOf(x, 2), OctetOf(x, 3)]
  }

  lemma HashOctetAt(h: Hash, i: nat, j: nat, k: nat, x: word)
    requires i < 5 && j < 4 && k == 4 * i + j && x == [h.a, h.b, h.c, h.d, h.e][i]
    ensures HashOctets(h)[k] == OctetOf(x, j)
  {
    assert k / 4 == i && k % 4 == j;
  }

  lemma HashOctetsAt(h: Hash, i: nat, x: word)
    requires i < 5 && x == [h.a, h.b, h.c, h.d, h.e][i]
    ensures HashOctets(h)[4 * i..4 * i + 4] == Four(x)
  {
    HashOctetAt(h, i, 0, 4 * i, x);
    HashOctetAt(h, i, 1, 4 * i + 1, x);
    HashOctetAt(h, i, 2, 4 * i + 2, x);
    HashOctetAt(h, i, 3, 4 * i + 3, x);
    FourOf(HashOctets(h), 4 * i, x);
  }

  lemma FourOf(s: seq<byte>, k: nat, x: word)
    requires k + 4 <= |s|
    requires s[k] == OctetOf(x, 0) && s[k + 1] == OctetOf(x, 1)
    requires s[k + 2] == OctetOf(x, 2) && s[k + 3] == OctetOf(x, 3)
    ensures s[k..k + 4] == Four(x)
  {
  }

  lemma FiveFours(s: seq<byte>)
    requires |s| == 20
    ensures s == s[0..4] + s[4..8] + s[8..12] + s[12..16] + s[16..20]
  {
  }

  lemma HashOctetsByWord(h: Hash)
    ensures HashOctets(h) == Four(h.a) + Four(h.b) + Four(h.c) + Four(h.d) + Four(h.e)
  {
    HashOctetsAt(h, 0, h.a);
    HashOctetsAt(h, 1, h.b);
    HashOctetsAt(h, 2, h.c);
    HashOctetsAt(h, 3, h.d);
    HashOctetsAt(h, 4, h.e);
    FiveFours(HashOctets(h));
  }

  lemma ReadHash(block: seq<byte>, h: Hash, t: nat)
    requires |block| == 64
    ensures ReadBlock(block, h, t).h == Rounds(h, block, t)
  {
  }
}
