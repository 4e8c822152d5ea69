/** Octets, big-endian numbers, C strings and memcpy: the vocabulary every other module shares. */
module Bytes {

  type byte = bv8

  datatype Option<+T> = None | Some(value: T)

  const NUL: char := '\0'

  /** The octet with a given value; the recursion keeps integer-to-bit-vector casts out of every proof. */
  function ToByte(n: nat): (b: byte)
    requires n < 256
    ensures b as int == n
  {
    if n == 0 then 0 else ToByte(n - 1) + 1
  }

  function Pow256(k: nat): (p: nat)
    ensures p > 0
  {
    if k == 0 then 1 else 256 * Pow256(k - 1)
  }

  /** The low `width` octets of n, most significant first. */
  function BigEndian(n: nat, width: nat): (s: seq<byte>)
    ensures |s| == width
  {
    if width == 0 then [] else BigEndian(n / 256, width - 1) + [ToByte(n % 256)]
  }

  /** The number that an octet string denotes, most significant octet first. */
  function Value(s: seq<byte>): nat {
    if s == [] then 0 else 256 * Value(s[..|s| - 1]) + s[|s| - 1] as int
  }

  lemma ValueSnoc(s: seq<byte>, b: byte)
    ensures Value(s + [b]) == 256 * Value(s) + b as int
  {
    assert (s + [b])[..|s|] == s;
  }

  lemma {:induction false} ValueOfBigEndian(n: nat, width: nat)
    requires n < Pow256(width)
    ensures Value(BigEndian(n, width)) == n
  {
    if width > 0 {
      ValueOfBigEndian(n / 256, width - 1);
      ValueSnoc(BigEndian(n / 256, width - 1), ToByte(n % 256));
    }
  }

  /** A number is written in one way only. */
  lemma {:induction false} BigEndianOfValue(s: seq<byte>)
    ensures BigEndian(Value(s), |s|) == s
  {
    if s != [] {
      var init, b := s[..|s| - 1], s[|s| - 1];
      BigEndianOfValue(init);
      LastDigit(Value(init), b as int);
      SameByte(ToByte(b as int), b);
    }
  }

  lemma LastDigit(n: nat, d: nat)
    requires d < 256
    ensures (256 * n + d) / 256 == n && (256 * n + d) % 256 == d
  {
  }

  lemma ShiftOut(p: nat, lo: nat)
    ensures (256 * p + lo) / 256 == p + lo / 256 && (256 * p + lo) % 256 == lo % 256
  {
  }

  lemma BigEndianLast(p: nat, lo: nat, width: nat)
    ensures BigEndian(256 * p + lo, width + 1) == BigEndian(p + lo / 256, width) + [ToByte(lo % 256)]
  {
    ShiftOut(p, lo);
  }

  lemma TimesPow(n: nat, k: nat)
    requires k > 0
    ensures n * Pow256(k) == 256 * (n * Pow256(k - 1)) && n * Pow256(0) == n
  {
  }

  /** Octets above the width do not show, and a number made of two parts is written part by part. */
  lemma {:induction false} BigEndianOfParts(hi: nat, lo: nat, width: nat, k: nat)
    requires lo < Pow256(k)
    ensures BigEndian(hi * Pow256(k) + lo, width + k) == BigEndian(hi, width) + BigEndian(lo, k)
  {
    if k == 0 {
      TimesPow(hi, 1);
    } else {
      TimesPow(hi, k);
      BigEndianLast(hi * Pow256(k - 1), lo, width + k - 1);
      BigEndianLast(0, lo, k - 1);
      BigEndianOfParts(hi, lo / 256, width, k - 1);
    }
  }

  lemma DivTwice(n: nat, p: nat)
    requires p > 0
    ensures n / 256 / p == n / (256 * p)
  {
    var q, b := n / 256 / p, n / 256 % p;
    assert n / 256 == q * p + b;
    assert n == (256 * p) * q + (256 * b + n % 256);
    QuotientUnique(n, 256 * p, q, 256 * b + n % 256);
  }

  lemma AtLeastOnce(d: nat, k: nat)
    requires k >= 1
    ensures d * k >= d
  {
    assert d * k == d + d * (k - 1);
  }

  lemma QuotientUnique(n: nat, d: nat, q: nat, r: nat)
    requires n == d * q + r && r < d
    ensures n / d == q
  {
    var p := n / d;
    assert n == d * p + n % d;
    if p < q {
      assert d * q == d * p + d * (q - p);
      AtLeastOnce(d, q - p);
    } else if q < p {
      assert d * p == d * q + d * (p - q);
      AtLeastOnce(d, p - q);
    }
  }

  /** Octet k of a big-endian number, as a shift and a mask pick it out. */
  lemma {:induction false} BigEndianAt(n: nat, width: nat, k: nat)
    requires k < width
    ensures BigEndian(n, width)[k] == ToByte(n / Pow256(width - 1 - k) % 256)
  {
    if k == width - 1 {
      assert n / Pow256(0) == n;
    } else {
      BigEndianAt(n / 256, width - 1, k);
      DivTwice(n, Pow256(width - 2 - k));
    }
  }

  /** The bytes of a C string: everything before its first NUL. */
  function UpToNul(s: seq<byte>): seq<byte> {
    if s == [] || s[0] == 0 then [] else [s[0]] + UpToNul(s[1..])
  }

  lemma {:induction false} UpToNulPrefix(s: seq<byte>)
    ensures UpToNul(s) <= s && 0 !in UpToNul(s)
    ensures 0 !in s ==> UpToNul(s) == s
    ensures UpToNul(s) < s ==> s[|UpToNul(s)|] == 0
  {
    if s == [] || s[0] == 0 {
    } else {
      UpToNulPrefix(s[1..]);
    }
  }

  /** All the pieces one after the other. */
  function Flatten<T>(pieces: seq<seq<T>>): seq<T> {
    if pieces == [] then [] else Flatten(pieces[..|pieces| - 1]) + pieces[|pieces| - 1]
  }

  lemma FlattenSnoc<T>(pieces: seq<seq<T>>, last: seq<T>)
    ensures Flatten(pieces + [last]) == Flatten(pieces) + last
  {
    assert (pieces + [last])[..|pieces|] == pieces;
  }

  lemma {:induction false} FlattenCons<T>(pieces: seq<seq<T>>)
    requires pieces != []
    ensures Flatten(pieces) == pieces[0] + Flatten(pieces[1..])
  {
    var init, last := pieces[..|pieces| - 1], pieces[|pieces| - 1];
    if init == [] {
      assert pieces[1..] == [];
    } else {
      FlattenCons(init);
      assert pieces[1..] == init[1..] + [last];
      FlattenSnoc(init[1..], last);
    }
  }

  function Min(a: nat, b: nat): nat {
    if a < b then a else b
  }

  /** What a char buffer of `capacity` bytes holds after snprintf(buffer, capacity, "%s", s). */
  function Snprintf(s: seq<byte>, capacity: nat): seq<byte>
    requires capacity > 0
  {
    var c := UpToNul(s);
    c[..Min(|c|, capacity - 1)]
  }

  lemma SnprintfKeeps(s: seq<byte>, capacity: nat)
    requires capacity > 0
    ensures |Snprintf(s, capacity)| < capacity && Snprintf(s, capacity) <= s && 0 !in Snprintf(s, capacity)
    ensures 0 !in s && |s| < capacity ==> Snprintf(s, capacity) == s
  {
    UpToNulPrefix(s);
  }

  /** The octets of an ASCII literal. */
  function Ascii(s: string): (r: seq<byte>)
    ensures |r| == |s|
  {
    seq(|s|, i requires 0 <= i < |s| => ToByte(s[i] as int % 256))
  }

  lemma SameByte(x: byte, y: byte)
    requires x as int == y as int
    ensures x == y
  {
  }

  lemma SmallRemainder(n: nat, b: nat)
    requires n < b
    ensures n % b == n
  {
  }

  lemma AsciiByte(s: string, i: nat, b: byte)
    requires i < |s| && s[i] as int == b as int
    ensures Ascii(s)[i] == b
  {
    AsciiAt(s, i);
    var n := s[i] as int;
    SmallRemainder(n, 256);
    SameByte(Ascii(s)[i], b);
  }

  lemma AsciiAt(s: string, i: nat)
    requires i < |s|
    ensures Ascii(s)[i] as int == s[i] as int % 256
  {
  }

  lemma AsciiFits(s: string, capacity: nat)
    requires |s| < capacity && forall i :: 0 <= i < |s| ==> ' ' <= s[i] <= '~'
    ensures Snprintf(Ascii(s), capacity) == Ascii(s)
  {
    forall i | 0 <= i < |s| ensures Ascii(s)[i] != 0 {
      assert Ascii(s)[i] as int == s[i] as int;
    }
    SnprintfKeeps(Ascii(s), capacity);
  }

  /** memcpy between two distinct buffers. */
  method Memcpy<T>(dst: array<T>, at: nat, src: array<T>, from: nat, n: nat)
    requires dst != src
    requires at + n <= dst.Length && from + n <= src.Length
    modifies dst
    ensures dst[..] == old(dst[..at]) + src[from..from + n] + old(dst[at + n..])
  {
    for i := 0 to n
      invariant forall k :: 0 <= k < dst.Length ==>
        dst[k] == if at <= k < at + i then src[from + k - at] else old(dst[k])
    {
      dst[at + i] := src[from + i];
    }
  }
}
