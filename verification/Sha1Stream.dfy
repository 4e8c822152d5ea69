/** The streaming interface of SHA-1: a two-word bit counter and a 64-byte carry-over block, updated in place. */
module Sha1Stream {
  import opened Bytes
  import opened Sha1Spec
  import opened Sha1

  const TWO29: nat := 0x2000_0000
  const TWO32: nat := 0x1_0000_0000
  const TWO64: nat := 0x1_0000_0000_0000_0000

  /** The two words as one 64-bit counter. */
  ghost predicate Counts(cnt0: nat, cnt1: nat, octets: nat) {
    cnt0 < TWO32 && cnt1 < TWO32 && cnt1 * TWO32 + cnt0 == 8 * octets % TWO64
  }

  lemma CountBelow(octets: nat)
    requires 8 * octets < TWO64
    ensures 8 * octets % TWO64 == 8 * octets
  {
  }

  /** The low word tells where in a block the message ends. */
  lemma Position(cnt0: nat, cnt1: nat, octets: nat)
    requires Counts(cnt0, cnt1, octets)
    ensures cnt0 / 8 % 64 == octets % 64
  {
    var q := 8 * octets / TWO64;
    assert 8 * octets == TWO64 * q + (cnt1 * TWO32 + cnt0);
    var k := TWO32 * q + cnt1;
    var m := octets - TWO29 * k;
    assert cnt0 == 8 * m;
    assert octets == 64 * (0x80_0000 * k) + m;
    SameInBlock(0x80_0000 * k, m);
  }

  lemma SameInBlock(x: nat, m: nat)
    ensures (64 * x + m) % 64 == m % 64
  {
  }

  /** Two 32-bit additions with carry are one 64-bit addition. */
  lemma AddWithCarry(cnt0: nat, cnt1: nat, octets: nat, n: nat)
    requires Counts(cnt0, cnt1, octets)
    ensures var lo := 8 * n % TWO32;
            var c0 := (cnt0 + lo) % TWO32;
            var c1 := (cnt1 + if c0 < lo then 1 else 0) % TWO32;
            Counts(c0, (c1 + n / TWO29 % TWO32) % TWO32, octets + n)
  {
    var lo, hi := 8 * n % TWO32, n / TWO29;
    assert 8 * n == TWO32 * hi + lo;
    var c0 := (cnt0 + lo) % TWO32;
    var carry := if c0 < lo then 1 else 0;
    assert cnt0 + lo == carry * TWO32 + c0;
    var c1 := ((cnt1 + carry) % TWO32 + hi % TWO32) % TWO32;
    ModSum(cnt1 + carry, hi);
    var w := (cnt1 + carry + hi) / TWO32;
    assert cnt1 + carry + hi == TWO32 * w + c1;
    var q := 8 * octets / TWO64;
    assert 8 * (octets + n) == TWO64 * (q + w) + (c1 * TWO32 + c0);
    SmallRemainder(8 * (octets + n), q + w, c1 * TWO32 + c0);
  }

  lemma ModSum(a: nat, b: nat)
    ensures (a % TWO32 + b % TWO32) % TWO32 == (a + b) % TWO32
  {
  }

  lemma SmallRemainder(x: nat, q: nat, r: nat)
    requires x == TWO64 * q + r && r < TWO64
    ensures x % TWO64 == r
  {
  }

  lemma BlocksAndRest(n: nat, k: nat, r: nat)
    requires n == 64 * k + r && r < 64
    ensures n / 64 == k && n % 64 == r
  {
  }

  /** The first place after a message where the length octets end a block. */
  lemma GapUnique(n: nat, z: nat)
    requires z <= Gap(n) && (n + 1 + z) % 64 == 56
    ensures z == Gap(n)
  {
    GapFits(n);
    var d := Gap(n) - z;
    assert (n + 1 + z + d) % 64 == 56;
    var a, b := (n + 1 + z) / 64, (n + 1 + z + d) / 64;
    assert d == 64 * (b - a);
  }

  lemma Pow256Of8()
    ensures Pow256(4) == TWO32 && Pow256(8) == TWO64
  {
    assert Pow256(2) == 0x1_0000;
    assert Pow256(6) == 0x1_0000_0000_0000;
  }

  /** Below 2^64 bits the two words written out are the length. */
  lemma LengthParts(cnt0: nat, cnt1: nat, octets: nat)
    requires Counts(cnt0, cnt1, octets) && 8 * octets < Pow256(8)
    ensures BigEndian(8 * octets, 8) == BigEndian(cnt1, 4) + BigEndian(cnt0, 4)
  {
    Pow256Of8();
    CountBelow(octets);
    BigEndianOfParts(cnt1, cnt0, 4, 4);
  }

  /** What was absorbed of a message stays absorbed when the message grows. */
  lemma Extended(m: seq<byte>, data: seq<byte>)
    ensures (m + data)[|m|..] == data && Chain(m + data, |m| / 64) == Chain(m, |m| / 64)
    ensures (m + data)[|m| - |m| % 64..|m|] == m[|m| - |m| % 64..]
  {
    assert (m + data)[..|m|] == m;
    ChainPrefix(m, m + data, |m| / 64);
  }

  lemma LengthOctet(hi: nat, lo: nat, i: nat)
    requires i < 8
    ensures (BigEndian(hi, 4) + BigEndian(lo, 4))[i] ==
      ToByte((if i >= 4 then lo else hi) / Pow256(3 - i % 4) % 256)
  {
    BigEndianAt(if i >= 4 then lo else hi, 4, i % 4);
  }

  lemma MoreZeros(m: seq<byte>, z: nat)
    ensures m + [0x80] + Zeros(z) + [0] == m + [0x80] + Zeros(z + 1)
  {
  }

  class Sha1Ctx {
    const st: array<word>
    const buf: array<byte>
    var cnt0: nat
    var cnt1: nat
    ghost var msg: seq<byte>   // everything absorbed so far

    ghost predicate Shaped()
    {
      st.Length == 5 && buf.Length == 64
    }

    /** The counter counts, the state has absorbed all whole blocks, the buffer holds exactly the rest. */
    ghost predicate Valid()
      reads this, st, buf
    {
      Shaped() && Counts(cnt0, cnt1, |msg|) && Absorbed(msg)
    }

    ghost predicate Absorbed(m: seq<byte>)
      requires Shaped()
      reads st, buf
    {
      HashOf(st) == Chain(m, |m| / 64) && buf[..|m| % 64] == m[|m| - |m| % 64..]
    }

    constructor Init()
      ensures Valid() && msg == [] && fresh(st) && fresh(buf)
    {
      st, buf := new word[5], new byte[64];
      cnt0, cnt1, msg := 0, 0, [];
      new;
      st[0], st[1], st[2], st[3], st[4] := 0x67452301, 0xEFCDAB89, 0x98BADCFE, 0x10325476, 0xC3D2E1F0;
    }

    /** The counter part of sha1_update. */
    method Count(n: nat)
      requires n < TWO64 && Counts(cnt0, cnt1, |msg|)
      modifies `cnt0, `cnt1
      ensures Counts(cnt0, cnt1, |msg| + n)
    {
      AddWithCarry(cnt0, cnt1, |msg|, n);
      var lo := 8 * n % TWO32;
      cnt0 := (cnt0 + lo) % TWO32;
      cnt1 := (cnt1 + if cnt0 < lo then 1 else 0) % TWO32;
      cnt1 := (cnt1 + n / TWO29 % TWO32) % TWO32;
    }

    /** One more whole block of the message all goes into the state. */
    method Absorb(blk: array<byte>, at: nat, ghost all: seq<byte>, ghost k: nat)
      requires Shaped() && at + 64 <= blk.Length && 64 * k + 64 <= |all|
      requires HashOf(st) == Chain(all, k) && blk[at..at + 64] == all[64 * k..64 * k + 64]
      modifies st
      ensures HashOf(st) == Chain(all, k + 1)
    {
      Transform(st, blk, at);
    }

    /** The carry-over block is completed from the new data and absorbed. */
    method FirstBlock(d: array<byte>, j: nat, ghost all: seq<byte>, ghost k: nat)
      requires Shaped() && d != buf && j < 64 && 64 - j <= d.Length && 64 * k + 64 <= |all|
      requires HashOf(st) == Chain(all, k)
      requires buf[..j] == all[64 * k..64 * k + j] && d[..64 - j] == all[64 * k + j..64 * k + 64]
      modifies st, buf
      ensures HashOf(st) == Chain(all, k + 1)
    {
      Memcpy(buf, j, d, 0, 64 - j);
      assert buf[0..64] == all[64 * k..64 * k + j] + all[64 * k + j..64 * k + 64];
      Absorb(buf, 0, all, k);
    }

    /** Whole blocks are absorbed straight from the new data. */
    method MoreBlocks(d: array<byte>, from: nat, n: nat, ghost l: nat, ghost all: seq<byte>, ghost done: nat)
      returns (i: nat, ghost k: nat)
      requires Shaped() && from <= n <= d.Length && l + from == 64 * done && |all| == l + n
      requires all[l..] == d[..n] && HashOf(st) == Chain(all, done)
      modifies st
      ensures i <= n < i + 64 && l + i == 64 * k && HashOf(st) == Chain(all, k)
    {
      i, k := from, done;
      while i + 63 < n
        invariant i <= n && l + i == 64 * k && HashOf(st) == Chain(all, k)
      {
        assert d[i..i + 64] == all[l..][i..i + 64] == all[l + i..l + i + 64];
        Absorb(d, i, all, k);
        i, k := i + 64, k + 1;
      }
    }

    /** The branch of sha1_update that completes at least one block; what is left of the data starts at i. */
    method CrossBlocks(d: array<byte>, n: nat, j: nat, ghost l: nat, ghost all: seq<byte>, ghost done: nat)
      returns (i: nat, ghost k: nat)
      requires Shaped() && n <= d.Length && d != buf && l == 64 * done + j && j < 64 && j + n > 63
      requires |all| == l + n && all[l..] == d[..n]
      requires HashOf(st) == Chain(all, done) && buf[..j] == all[l - j..l]
      modifies st, buf
      ensures i <= n < i + 64 && l + i == 64 * k && HashOf(st) == Chain(all, k)
    {
      i := 64 - j;
      assert d[..i] == all[l..][..i];
      FirstBlock(d, j, all, done);
      i, k := MoreBlocks(d, i, n, l, all, done + 1);
    }

    /** All of sha1_update but the counter. */
    method Take(d: array<byte>, n: nat, j: nat, ghost l: nat, ghost all: seq<byte>, ghost done: nat)
      requires Shaped() && n <= d.Length && d != buf && l == 64 * done + j && j < 64
      requires |all| == l + n && all[l..] == d[..n]
      requires HashOf(st) == Chain(all, done) && buf[..j] == all[l - j..l]
      modifies st, buf
      ensures Absorbed(all)
    {
      var i, at := 0, j;
      ghost var k := done;
      if j + n > 63 {
        i, k := CrossBlocks(d, n, j, l, all, done);
        at := 0;
      }
      CarryOver(d, i, n, at, l, all, k);
    }

    /** The rest of the data is kept for the next block. */
    method CarryOver(d: array<byte>, i: nat, n: nat, at: nat, ghost l: nat, ghost all: seq<byte>, ghost k: nat)
      requires Shaped() && i <= n <= d.Length && d != buf && at + n - i < 64 && l + i == 64 * k + at
      requires |all| == l + n && all[l..] == d[..n] && buf[..at] == all[l + i - at..l + i]
      requires HashOf(st) == Chain(all, k)
      modifies buf
      ensures Absorbed(all)
    {
      BlocksAndRest(|all|, k, at + n - i);
      assert d[i..n] == all[l..][i..n] == all[l + i..];
      Memcpy(buf, at, d, i, n - i);
      assert buf[..at + n - i] == all[l + i - at..l + i] + all[l + i..];
    }

    method Grow(d: array<byte>, n: nat, j: nat, ghost m: seq<byte>)
      requires Shaped() && Absorbed(m) && n <= d.Length && d != buf && j == |m| % 64
      modifies st, buf
      ensures Absorbed(m + d[..n])
    {
      Extended(m, d[..n]);
      Take(d, n, j, |m|, m + d[..n], |m| / 64);
    }

    /** sha1_update: the message grows by the n octets, wherever the cut falls. */
    method Update(d: array<byte>, n: nat)
      requires Valid() && n <= d.Length && n < TWO64 && d != buf
      modifies `cnt0, `cnt1, `msg, st, buf
      ensures Valid() && msg == old(msg) + d[..n]
    {
      ghost var all := msg + d[..n];
      Position(cnt0, cnt1, |msg|);
      var j := cnt0 / 8 % 64;
      Count(n);
      Grow(d, n, j, msg);
      msg := all;
    }

    method UpdateOne(b: byte)
      requires Valid()
      modifies `cnt0, `cnt1, `msg, st, buf
      ensures Valid() && msg == old(msg) + [b]
    {
      var ch := new byte[1];
      ch[0] := b;
      Update(ch, 1);
      assert ch[..1] == [b];
    }

    /** The eight length octets, most significant word first. */
    method LengthOctets() returns (fc: array<byte>)
      requires cnt0 < TWO32 && cnt1 < TWO32
      ensures fresh(fc) && fc.Length == 8 && fc[..8] == BigEndian(cnt1, 4) + BigEndian(cnt0, 4)
    {
      fc := new byte[8];
      ghost var hi, lo := BigEndian(cnt1, 4), BigEndian(cnt0, 4);
      for i := 0 to 8
        invariant forall k :: 0 <= k < i ==> fc[k] == (hi + lo)[k]
      {
        LengthOctet(cnt1, cnt0, i);
        fc[i] := ToByte((if i >= 4 then cnt0 else cnt1) / Pow256(3 - i % 4) % 256);
      }
      assert fc[..8] == hi + lo;
    }

    /** (cnt[0] & 504) == 448: the place for the length octets has been reached. */
    method AtLength(ghost m: seq<byte>, ghost z: nat) returns (full: bool)
      requires Counts(cnt0, cnt1, |msg|) && msg == m + [0x80] + Zeros(z) && z <= Gap(|m|)
      ensures full == (z == Gap(|m|))
    {
      Position(cnt0, cnt1, |msg|);
      GapFits(|m|);
      if (|m| + 1 + z) % 64 == 56 { GapUnique(|m|, z); }
      full := cnt0 / 8 % 64 * 8 == 448;
    }

    /** The padding loop of sha1_final. */
    method PadZeros(ghost m: seq<byte>)
      requires Valid() && msg == m + [0x80]
      modifies `cnt0, `cnt1, `msg, st, buf
      ensures Valid() && msg == m + [0x80] + Zeros(Gap(|m|))
    {
      ghost var z := 0;
      var full := AtLength(m, z);
      while !full
        invariant Valid() && z <= Gap(|m|) && msg == m + [0x80] + Zeros(z) && full == (z == Gap(|m|))
        decreases Gap(|m|) - z
      {
        UpdateOne(0);
        MoreZeros(m, z);
        z := z + 1;
        full := AtLength(m, z);
      }
    }

    /** The one bit and the zeros. */
    method PadBits()
      requires Valid()
      modifies `cnt0, `cnt1, `msg, st, buf
      ensures Valid() && msg == old(msg) + [0x80] + Zeros(Gap(|old(msg)|))
    {
      ghost var m := msg;
      UpdateOne(0x80);
      PadZeros(m);
    }

    method AppendLength(fc: array<byte>)
      requires Valid() && fc.Length == 8 && fc != buf
      modifies `cnt0, `cnt1, `msg, st, buf
      ensures Valid() && msg == old(msg) + fc[..8]
    {
      Update(fc, 8);
    }

    /** Everything in sha1_final but the output: the padded message has been absorbed. */
    method Finish()
      requires Valid() && 8 * |msg| < Pow256(8)
      modifies `cnt0, `cnt1, `msg, st, buf
      ensures Valid() && msg == Pad(old(msg))
    {
      LengthParts(cnt0, cnt1, |msg|);
      var fc := LengthOctets();
      PadBits();
      AppendLength(fc);
    }

    /** The state as octets, word by word. */
    method WriteDigest(out: array<byte>)
      requires Shaped() && out.Length >= 20 && out != buf
      modifies out
      ensures out[..20] == HashOctets(HashOf(st))
    {
      ghost var words := st[..];
      for i := 0 to 20
        invariant st[..] == words
        invariant forall k :: 0 <= k < i ==> out[k] == OctetOf(words[k / 4], k % 4)
      {
        out[i] := OctetOf(st[i / 4], i % 4);
      }
      assert words == [st[0], st[1], st[2], st[3], st[4]];
    }

    /** sha1_final: the digest of everything absorbed. */
    method Final(out: array<byte>)
      requires Valid() && 8 * |msg| < Pow256(8) && out.Length >= 20 && out != buf
      modifies this, st, buf, out
      ensures out[..20] == Digest(old(msg))
    {
      Finish();
      WriteDigest(out);
    }
  }

  lemma {:induction false} FlattenPrefix(pieces: seq<seq<byte>>, n: nat)
    requires n <= |pieces|
    ensures |Flatten(pieces[..n])| <= |Flatten(pieces)|
  {
    if n < |pieces| {
      FlattenPrefix(pieces[..|pieces| - 1], n);
      assert pieces[..|pieces| - 1][..n] == pieces[..n];
    } else {
      assert pieces[..n] == pieces;
    }
  }

  lemma FlattenNext(pieces: seq<seq<byte>>, k: nat)
    requires k < |pieces|
    ensures Flatten(pieces[..k + 1]) == Flatten(pieces[..k]) + pieces[k] && |pieces[k]| <= |Flatten(pieces)|
  {
    FlattenPrefix(pieces, k + 1);
    assert pieces[..k + 1][..k] == pieces[..k];
  }

  /** One call of sha1_update with a piece of its own. */
  method Feed(ctx: Sha1Ctx, piece: seq<byte>)
    requires ctx.Valid() && |piece| < TWO64
    modifies ctx`cnt0, ctx`cnt1, ctx`msg, ctx.st, ctx.buf
    ensures ctx.Valid() && ctx.msg == old(ctx.msg) + piece
  {
    var d := new byte[|piece|](i requires 0 <= i < |piece| => piece[i]);
    assert d[..|piece|] == piece;
    ctx.Update(d, |piece|);
  }

  method FeedAll(pieces: seq<seq<byte>>) returns (ctx: Sha1Ctx)
    requires |Flatten(pieces)| < TWO64
    ensures ctx.Valid() && ctx.msg == Flatten(pieces) && fresh(ctx) && fresh(ctx.st) && fresh(ctx.buf)
  {
    ctx := new Sha1Ctx.Init();
    for k := 0 to |pieces|
      invariant ctx.Valid() && fresh(ctx) && fresh(ctx.st) && fresh(ctx.buf) && ctx.msg == Flatten(pieces[..k])
    {
      FlattenNext(pieces, k);
      Feed(ctx, pieces[k]);
    }
    assert pieces[..|pieces|] == pieces;
  }

  /** However a message below 2^61 octets is cut into updates, the result is its digest. */
  method DigestOfPieces(pieces: seq<seq<byte>>) returns (out: array<byte>)
    requires 8 * |Flatten(pieces)| < Pow256(8)
    ensures out.Length == 20 && out[..] == Digest(Flatten(pieces))
  {
    Pow256Of8();
    var ctx := FeedAll(pieces);
    out := new byte[20];
    ctx.Final(out);
    assert out[..] == out[..20];
  }
}
