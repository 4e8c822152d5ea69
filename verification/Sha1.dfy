/** sha1_transform: the in-place schedule and the four round loops, against the compression function. */
module Sha1 {
  import opened Bytes
  import opened Sha1Spec

  ghost function HashOf(st: array<word>): Hash
    requires st.Length == 5
    reads st
  {
    Hash(st[0], st[1], st[2], st[3], st[4])
  }

  /** The first sixteen words of the schedule, read from the block. */
  method LoadBlock(w: array<word>, blk: array<byte>, at: nat)
    requires w.Length == 80 && at + 64 <= blk.Length
    modifies w
    ensures forall t :: 0 <= t < 16 ==> w[t] == WordAt(blk[at..at + 64], t)
  {
    ghost var block := blk[at..at + 64];
    for i := 0 to 16
      invariant forall t :: 0 <= t < i ==> w[t] == WordAt(block, t)
    {
      var b0, b1, b2, b3 := blk[at + i * 4], blk[at + i * 4 + 1], blk[at + i * 4 + 2], blk[at + i * 4 + 3];
      OrWord(b0, b1, b2, b3);
      w[i] := ((b0 as word) << 24) | ((b1 as word) << 16) | ((b2 as word) << 8) | (b3 as word);
    }
  }

  /** The 80-word schedule, extended in place. */
  method FillSchedule(w: array<word>, ghost block: seq<byte>)
    requires w.Length == 80 && |block| == 64 && forall t :: 0 <= t < 16 ==> w[t] == WordAt(block, t)
    modifies w
    ensures forall t :: 0 <= t < 80 ==> w[t] == Schedule(block, t)
  {
    for i := 16 to 80
      invariant forall t :: 0 <= t < i ==> w[t] == Schedule(block, t)
    {
      w[i] := Rotl1(w[i - 3] ^ w[i - 8] ^ w[i - 14] ^ w[i - 16]);
    }
  }

  method Rounds0To20(h0: Hash, w: array<word>, ghost h: Hash, ghost block: seq<byte>) returns (r: Hash)
    requires w.Length == 80 && |block| == 64 && (forall t :: 0 <= t < 80 ==> w[t] == Schedule(block, t))
    requires h0 == Rounds(h, block, 0)
    ensures r == Rounds(h, block, 20)
  {
    var a, b, c, d, e := h0.a, h0.b, h0.c, h0.d, h0.e;
    for i := 0 to 20
      invariant Hash(a, b, c, d, e) == Rounds(h, block, i)
    {
      OrForms(b, c, d);
      var t := Sum(Rotl5(a), (b & c) | (!b & d), e, 0x5A827999, w[i]);
      e, d, c, b, a := d, c, Rotl30(b), a, t;
    }
    return Hash(a, b, c, d, e);
  }

  method Rounds20To40(h0: Hash, w: array<word>, ghost h: Hash, ghost block: seq<byte>) returns (r: Hash)
    requires w.Length == 80 && |block| == 64 && (forall t :: 0 <= t < 80 ==> w[t] == Schedule(block, t))
    requires h0 == Rounds(h, block, 20)
    ensures r == Rounds(h, block, 40)
  {
    var a, b, c, d, e := h0.a, h0.b, h0.c, h0.d, h0.e;
    for i := 20 to 40
      invariant Hash(a, b, c, d, e) == Rounds(h, block, i)
    {
      var t := Sum(Rotl5(a), b ^ c ^ d, e, 0x6ED9EBA1, w[i]);
      e, d, c, b, a := d, c, Rotl30(b), a, t;
    }
    return Hash(a, b, c, d, e);
  }

  method Rounds40To60(h0: Hash, w: array<word>, ghost h: Hash, ghost block: seq<byte>) returns (r: Hash)
    requires w.Length == 80 && |block| == 64 && (forall t :: 0 <= t < 80 ==> w[t] == Schedule(block, t))
    requires h0 == Rounds(h, block, 40)
    ensures r == Rounds(h, block, 60)
  {
    var a, b, c, d, e := h0.a, h0.b, h0.c, h0.d, h0.e;
    for i := 40 to 60
      invariant Hash(a, b, c, d, e) == Rounds(h, block, i)
    {
      OrForms(b, c, d);
      var t := Sum(Rotl5(a), (b & c) | (b & d) | (c & d), e, 0x8F1BBCDC, w[i]);
      e, d, c, b, a := d, c, Rotl30(b), a, t;
    }
    return Hash(a, b, c, d, e);
  }

  method Rounds60To80(h0: Hash, w: array<word>, ghost h: Hash, ghost block: seq<byte>) returns (r: Hash)
    requires w.Length == 80 && |block| == 64 && (forall t :: 0 <= t < 80 ==> w[t] == Schedule(block, t))
    requires h0 == Rounds(h, block, 60)
    ensures r == Rounds(h, block, 80)
  {
    var a, b, c, d, e := h0.a, h0.b, h0.c, h0.d, h0.e;
    for i := 60 to 80
      invariant Hash(a, b, c, d, e) == Rounds(h, block, i)
    {
      var t := Sum(Rotl5(a), b ^ c ^ d, e, 0xCA62C1D6, w[i]);
      e, d, c, b, a := d, c, Rotl30(b), a, t;
    }
    return Hash(a, b, c, d, e);
  }

  /** The four round loops one after the other. */
  method EightyRounds(h: Hash, w: array<word>, ghost block: seq<byte>) returns (r: Hash)
    requires w.Length == 80 && |block| == 64 && (forall t :: 0 <= t < 80 ==> w[t] == Schedule(block, t))
    ensures r == Rounds(h, block, 80)
  {
    r := Rounds0To20(h, w, h, block);
    r := Rounds20To40(r, w, h, block);
    r := Rounds40To60(r, w, h, block);
    r := Rounds60To80(r, w, h, block);
  }

  /** The hash value that a block turns h into. */
  method CompressBlock(h: Hash, blk: array<byte>, at: nat) returns (r: Hash)
    requires at + 64 <= blk.Length
    ensures r == Rounds(h, blk[at..at + 64], 80)
  {
    ghost var block := blk[at..at + 64];
    var w := new word[80];
    LoadBlock(w, blk, at);
    FillSchedule(w, block);
    r := EightyRounds(h, w, block);
  }

  /** sha1_transform is the compression function. */
  method Transform(st: array<word>, blk: array<byte>, at: nat)
    requires st.Length == 5 && at + 64 <= blk.Length
    modifies st
    ensures HashOf(st) == Compress(old(HashOf(st)), blk[at..at + 64])
  {
    var r := CompressBlock(Hash(st[0], st[1], st[2], st[3], st[4]), blk, at);
    st[0], st[1], st[2], st[3], st[4] :=
      Add(st[0], r.a), Add(st[1], r.b), Add(st[2], r.c), Add(st[3], r.d), Add(st[4], r.e);
  }
}
