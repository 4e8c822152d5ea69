/** The base64 encoder of the handshake, section 4 of RFC 4648, and the decoder that inverts it. */
module Base64 {
  import opened Bytes

  const UPPER: string := "ABCDEFGHIJKLMNOPQRSTUVWXYZ"
  const LOWER: string := "abcdefghijklmnopqrstuvwxyz"
  const OTHERS: string := "0123456789+/"
  const ALPHABET: string := UPPER + LOWER + OTHERS

  /** The character code of a letter, by ranges. */
  function Code(v: nat): int {
    if v < 26 then 'A' as int + v
    else if v < 52 then 'a' as int + v - 26
    else if v < 62 then '0' as int + v - 52
    else if v == 62 then '+' as int else '/' as int
  }

  lemma UpperCodes(v: nat)
    requires v < 26
    ensures |UPPER| == 26 && UPPER[v] as int == 'A' as int + v
  {
  }

  lemma LowerCodes(v: nat)
    requires v < 26
    ensures |LOWER| == 26 && LOWER[v] as int == 'a' as int + v
  {
  }

  lemma OtherCodes(v: nat)
    requires v < 12
    ensures |OTHERS| == 12 && OTHERS[v] as int == Code(v + 52)
  {
  }

  lemma AlphabetCodes(v: nat)
    requires v < 64
    ensures |ALPHABET| == 64 && ALPHABET[v] as int == Code(v)
  {
    UpperCodes(if v < 26 then v else 0);
    LowerCodes(if 26 <= v < 52 then v - 26 else 0);
    OtherCodes(if 52 <= v then v - 52 else 0);
    Join3At(UPPER, LOWER, OTHERS, v);
  }

  lemma Join3At(a: string, b: string, c: string, k: nat)
    requires k < |a| + |b| + |c|
    ensures (a + b + c)[k] ==
      if k < |a| then a[k] else if k < |a| + |b| then b[k - |a|] else c[k - |a| - |b|]
  {
  }

  lemma AlphabetSize()
    ensures |ALPHABET| == 64
  {
    AlphabetCodes(0);
  }

  function Letter(b: byte): char
    requires b < 64
  {
    AlphabetSize();
    ALPHABET[b as int]
  }

  /** The first place at or after i where the alphabet holds c. */
  function Find(c: char, i: nat): (v: Option<byte>)
    requires i <= 64
    ensures v.Some? ==> i <= v.value as int < 64 && Letter(v.value) == c
    decreases 64 - i
  {
    AlphabetSize();
    if i == 64 then None else if ALPHABET[i] == c then Some(ToByte(i)) else Find(c, i + 1)
  }

  function LetterValue(c: char): (v: Option<byte>)
    ensures v.Some? ==> v.value < 64 && Letter(v.value) == c
  {
    Find(c, 0)
  }

  lemma {:induction false} FindLetter(b: byte, i: nat)
    requires b < 64 && i <= b as int
    ensures Find(Letter(b), i) == Some(b)
    decreases b as int - i
  {
    AlphabetCodes(b as int);
    AlphabetCodes(i);
    if i < b as int {
      FindLetter(b, i + 1);
    }
  }

  lemma LetterRoundTrip(b: byte)
    requires b < 64
    ensures LetterValue(Letter(b)) == Some(b) && Letter(b) != '='
  {
    AlphabetCodes(b as int);
    FindLetter(b, 0);
  }

  // How three octets split into four sextets.

  function First(a: byte): (v: byte)
    ensures v < 64
  {
    a >> 2
  }

  function Second(a: byte, b: byte): (v: byte)
    ensures v < 64
  {
    ((a & 3) << 4) | (b >> 4)
  }

  function Third(b: byte, c: byte): (v: byte)
    ensures v < 64
  {
    ((b & 15) << 2) | (c >> 6)
  }

  function Fourth(c: byte): (v: byte)
    ensures v < 64
  {
    c & 63
  }

  function Group(a: byte, b: byte, c: byte): (t: string)
    ensures |t| == 4
  {
    [Letter(First(a)), Letter(Second(a, b)), Letter(Third(b, c)), Letter(Fourth(c))]
  }

  /** The last group: one octet leaves two pad characters, two octets leave one. */
  function Tail(s: seq<byte>): (t: string)
    requires |s| < 3
    ensures |t| == if s == [] then 0 else 4
  {
    if |s| == 0 then ""
    else if |s| == 1 then [Letter(First(s[0])), Letter(Second(s[0], 0)), '=', '=']
    else [Letter(First(s[0])), Letter(Second(s[0], s[1])), Letter(Third(s[1], 0)), '=']
  }

  function Encode(s: seq<byte>): (t: string)
    ensures |t| == (|s| + 2) / 3 * 4
  {
    if |s| < 3 then Tail(s) else Group(s[0], s[1], s[2]) + Encode(s[3..])
  }

  // The decoder, which refuses letters outside the alphabet, misplaced padding and stray low bits.

  function JoinFirst(v: byte, w: byte): byte {
    (v << 2) | (w >> 4)
  }

  function JoinSecond(w: byte, x: byte): byte {
    (w << 4) | (x >> 2)
  }

  function JoinThird(x: byte, y: byte): byte {
    (x << 6) | y
  }

  function OneOctet(v: Option<byte>, w: Option<byte>): Option<seq<byte>> {
    if v.Some? && w.Some? && w.value & 15 == 0 then Some([JoinFirst(v.value, w.value)]) else None
  }

  function TwoOctets(v: Option<byte>, w: Option<byte>, x: Option<byte>): Option<seq<byte>> {
    if v.Some? && w.Some? && x.Some? && x.value & 3 == 0
    then Some([JoinFirst(v.value, w.value), JoinSecond(w.value, x.value)])
    else None
  }

  function ThreeOctets(v: Option<byte>, w: Option<byte>, x: Option<byte>, y: Option<byte>): Option<seq<byte>> {
    if v.Some? && w.Some? && x.Some? && y.Some?
    then Some([JoinFirst(v.value, w.value), JoinSecond(w.value, x.value), JoinThird(x.value, y.value)])
    else None
  }

  function Ungroup(t: string): (s: Option<seq<byte>>)
    requires |t| == 4
  {
    var v, w := LetterValue(t[0]), LetterValue(t[1]);
    if t[2] == '=' then if t[3] == '=' then OneOctet(v, w) else None
    else if t[3] == '=' then TwoOctets(v, w, LetterValue(t[2]))
    else ThreeOctets(v, w, LetterValue(t[2]), LetterValue(t[3]))
  }

  function Decode(t: string): (s: Option<seq<byte>>) {
    if t == "" then Some([])
    else if |t| < 4 then None
    else
      match (Ungroup(t[..4]), Decode(t[4..]))
      case (Some(g), Some(rest)) => if |g| == 3 || |t| == 4 then Some(g + rest) else None
      case _ => None
  }

  // The sextets determine the octets, and the octets the sextets.

  lemma Split(a: byte, b: byte, c: byte)
    ensures JoinFirst(First(a), Second(a, b)) == a
    ensures JoinSecond(Second(a, b), Third(b, c)) == b
    ensures JoinThird(Third(b, c), Fourth(c)) == c
    ensures Second(a, 0) & 15 == 0 && Third(b, 0) & 3 == 0
  {
  }

  lemma Joined(v: byte, w: byte, x: byte, y: byte)
    requires v < 64 && w < 64 && x < 64 && y < 64
    ensures First(JoinFirst(v, w)) == v
    ensures Second(JoinFirst(v, w), JoinSecond(w, x)) == w
    ensures Third(JoinSecond(w, x), JoinThird(x, y)) == x
    ensures Fourth(JoinThird(x, y)) == y
    ensures w & 15 == 0 ==> Second(JoinFirst(v, w), 0) == w
    ensures x & 3 == 0 ==> Third(JoinSecond(w, x), 0) == x
  {
  }

  lemma UngroupGroup(a: byte, b: byte, c: byte)
    ensures Ungroup(Group(a, b, c)) == Some([a, b, c])
    ensures Ungroup(Tail([a])) == Some([a]) && Ungroup(Tail([a, b])) == Some([a, b])
  {
    Split(a, b, c);
    Split(a, 0, 0);
    Split(a, b, 0);
    LetterRoundTrip(First(a));
    LetterRoundTrip(Second(a, b));
    LetterRoundTrip(Third(b, c));
    LetterRoundTrip(Fourth(c));
    LetterRoundTrip(Second(a, 0));
    LetterRoundTrip(Third(b, 0));
  }

  lemma DecodeFour(t: string)
    requires |t| == 4
    ensures Decode(t) == Ungroup(t)
  {
    assert t[..4] == t && t[4..] == "";
    assert Decode("") == Some([]);
    if Ungroup(t).Some? {
      assert Ungroup(t).value + [] == Ungroup(t).value;
    }
  }

  /** Decoding inverts encoding on every byte string. */
  lemma {:induction false} DecodeEncode(s: seq<byte>)
    ensures Decode(Encode(s)) == Some(s)
  {
    if |s| >= 3 {
      UngroupGroup(s[0], s[1], s[2]);
      DecodeEncode(s[3..]);
      DecodeGroup(Group(s[0], s[1], s[2]), Encode(s[3..]));
      assert s == [s[0], s[1], s[2]] + s[3..];
    } else {
      DecodeTail(s);
    }
  }

  lemma DecodeGroup(g: string, t: string)
    requires |g| == 4 && Ungroup(g).Some? && |Ungroup(g).value| == 3 && Decode(t).Some?
    ensures Decode(g + t) == Some(Ungroup(g).value + Decode(t).value)
  {
    assert (g + t)[..4] == g && (g + t)[4..] == t;
  }

  lemma DecodeTail(s: seq<byte>)
    requires |s| < 3
    ensures Decode(Tail(s)) == Some(s)
  {
    if s != [] {
      UngroupGroup(s[0], if |s| == 2 then s[1] else 0, 0);
      assert s == if |s| == 1 then [s[0]] else [s[0], s[1]];
      DecodeFour(Tail(s));
    }
  }

  lemma GroupJoined(v: byte, w: byte, x: byte, y: byte)
    requires v < 64 && w < 64 && x < 64 && y < 64
    ensures Group(JoinFirst(v, w), JoinSecond(w, x), JoinThird(x, y)) == [Letter(v), Letter(w), Letter(x), Letter(y)]
    ensures w & 15 == 0 ==> Tail([JoinFirst(v, w)]) == [Letter(v), Letter(w), '=', '=']
    ensures x & 3 == 0 ==> Tail([JoinFirst(v, w), JoinSecond(w, x)]) == [Letter(v), Letter(w), Letter(x), '=']
  {
    Joined(v, w, x, y);
  }

  lemma OneBack(c: char, d: char)
    requires OneOctet(LetterValue(c), LetterValue(d)).Some?
    ensures Tail(OneOctet(LetterValue(c), LetterValue(d)).value) == [c, d, '=', '=']
  {
    GroupJoined(LetterValue(c).value, LetterValue(d).value, 0, 0);
  }

  lemma TwoBack(c: char, d: char, e: char)
    requires TwoOctets(LetterValue(c), LetterValue(d), LetterValue(e)).Some?
    ensures Tail(TwoOctets(LetterValue(c), LetterValue(d), LetterValue(e)).value) == [c, d, e, '=']
  {
    GroupJoined(LetterValue(c).value, LetterValue(d).value, LetterValue(e).value, 0);
  }

  lemma ThreeBack(c: char, d: char, e: char, f: char)
    requires ThreeOctets(LetterValue(c), LetterValue(d), LetterValue(e), LetterValue(f)).Some?
    ensures var g := ThreeOctets(LetterValue(c), LetterValue(d), LetterValue(e), LetterValue(f)).value;
      |g| == 3 && Group(g[0], g[1], g[2]) == [c, d, e, f]
  {
    GroupJoined(LetterValue(c).value, LetterValue(d).value, LetterValue(e).value, LetterValue(f).value);
  }

  lemma GroupUngroup(t: string)
    requires |t| == 4 && Ungroup(t).Some?
    ensures var g := Ungroup(t).value;
      1 <= |g| <= 3 && t == if |g| == 3 then Group(g[0], g[1], g[2]) else Tail(g)
  {
    assert t == [t[0], t[1], t[2], t[3]];
    if t[2] == '=' {
      OneBack(t[0], t[1]);
    } else if t[3] == '=' {
      TwoBack(t[0], t[1], t[2]);
    } else {
      ThreeBack(t[0], t[1], t[2], t[3]);
    }
  }

  /** Whatever the decoder accepts is exactly what the encoder writes for the octets it finds. */
  lemma {:induction false} EncodeDecode(t: string)
    requires Decode(t).Some?
    ensures Encode(Decode(t).value) == t
  {
    if t != "" {
      var g, rest := Ungroup(t[..4]).value, Decode(t[4..]).value;
      GroupUngroup(t[..4]);
      EncodeDecode(t[4..]);
      assert t == t[..4] + t[4..];
      if |g| == 3 {
        assert (g + rest)[3..] == rest;
      } else {
        assert t[4..] == "" && rest == [];
        assert g + rest == g;
      }
    }
  }

  /** The encoder's outputs are exactly the strings that decode, each from one byte string only. */
  lemma Bijection(s: seq<byte>, t: string)
    ensures Decode(t) == Some(s) <==> t == Encode(s)
  {
    DecodeEncode(s);
    if Decode(t) == Some(s) {
      EncodeDecode(t);
    }
  }

  function Padding(n: nat): (k: nat)
  {
    if n % 3 == 0 then 0 else 3 - n % 3
  }

  /** Alphabet letters up to the padding, and pad characters from there on. */
  lemma {:induction false} LettersThenPadding(s: seq<byte>, k: nat)
    requires k < |Encode(s)|
    ensures if k < |Encode(s)| - Padding(|s|) then Encode(s)[k] in ALPHABET else Encode(s)[k] == '='
  {
    AlphabetSize();
    if |s| >= 3 {
      assert Padding(|s|) == Padding(|s| - 3);
      if k >= 4 {
        LettersThenPadding(s[3..], k - 4);
      }
    }
  }

  // The definition of section 4 of RFC 4648: the bits of the octets, regrouped by six.

  predicate Bit(b: byte, mask: byte) {
    b & mask != 0
  }

  function SextetBits(v: byte): (r: seq<bool>)
    ensures |r| == 6
  {
    [Bit(v, 32), Bit(v, 16), Bit(v, 8), Bit(v, 4), Bit(v, 2), Bit(v, 1)]
  }

  function OctetBits(b: byte): (r: seq<bool>)
    ensures |r| == 8
  {
    [Bit(b, 128), Bit(b, 64), Bit(b, 32), Bit(b, 16), Bit(b, 8), Bit(b, 4), Bit(b, 2), Bit(b, 1)]
  }

  function Bits(s: seq<byte>): (r: seq<bool>)
    ensures |r| == 8 * |s|
  {
    if s == [] then [] else OctetBits(s[0]) + Bits(s[1..])
  }

  /** The bits that a string of letters spells; a pad character spells none. */
  function Spelled(t: string): seq<bool> {
    if t == "" then []
    else (if LetterValue(t[0]).Some? then SextetBits(LetterValue(t[0]).value) else []) + Spelled(t[1..])
  }

  lemma {:induction false} SpelledConcat(t: string, u: string)
    ensures Spelled(t + u) == Spelled(t) + Spelled(u)
  {
    if t == "" {
      assert t + u == u;
    } else {
      assert (t + u)[1..] == t[1..] + u;
      SpelledConcat(t[1..], u);
    }
  }

  lemma SpelledFour(c: char, d: char, e: char, f: char)
    ensures Spelled([c, d, e, f]) == Spelled([c]) + Spelled([d]) + Spelled([e]) + Spelled([f])
  {
    assert [c, d, e, f] == [c] + [d] + [e] + [f];
    SpelledConcat([c] + [d] + [e], [f]);
    SpelledConcat([c] + [d], [e]);
    SpelledConcat([c], [d]);
  }

  lemma SpelledLetter(b: byte)
    requires b < 64
    ensures Spelled([Letter(b)]) == SextetBits(b)
  {
    LetterRoundTrip(b);
    assert Spelled("") == [];
  }

  lemma SpelledPad()
    ensures Spelled("=") == []
  {
    var v := LetterValue('=');
    if v.Some? {
      LetterRoundTrip(v.value);
      assert false;
    }
  }

  lemma Shuffle(u: seq<bool>, v: seq<bool>, w: seq<bool>)
    requires |u| == |v| == |w| == 8
    ensures u[..6] + (u[6..] + v[..4]) + (v[4..] + w[..2]) + w[2..] == u + v + w
  {
    assert u == u[..6] + u[6..];
    assert v == v[..4] + v[4..];
    assert w == w[..2] + w[2..];
  }

  lemma ShuffleTwo(u: seq<bool>, v: seq<bool>, w: seq<bool>)
    requires |u| == |v| == |w| == 8
    ensures u[..6] + (u[6..] + v[..4]) + (v[4..] + w[..2]) == u + v + w[..2]
  {
    assert u == u[..6] + u[6..];
    assert v == v[..4] + v[4..];
  }

  lemma Slices(u: seq<bool>, v: seq<bool>)
    requires |u| == |v| == 8
    ensures u[..6] == [u[0], u[1], u[2], u[3], u[4], u[5]]
    ensures u[6..] + v[..4] == [u[6], u[7], v[0], v[1], v[2], v[3]]
    ensures u[4..] + v[..2] == [u[4], u[5], u[6], u[7], v[0], v[1]]
    ensures u[2..] == [u[2], u[3], u[4], u[5], u[6], u[7]]
  {
  }

  lemma FirstBits(a: byte)
    ensures SextetBits(First(a)) == OctetBits(a)[..6]
  {
    Slices(OctetBits(a), OctetBits(a));
  }

  lemma SecondBits(a: byte, b: byte)
    ensures SextetBits(Second(a, b)) == OctetBits(a)[6..] + OctetBits(b)[..4]
  {
    Slices(OctetBits(a), OctetBits(b));
  }

  lemma ThirdBits(b: byte, c: byte)
    ensures SextetBits(Third(b, c)) == OctetBits(b)[4..] + OctetBits(c)[..2]
  {
    Slices(OctetBits(b), OctetBits(c));
  }

  lemma FourthBits(c: byte)
    ensures SextetBits(Fourth(c)) == OctetBits(c)[2..]
  {
    Slices(OctetBits(c), OctetBits(c));
  }

  lemma RegroupedBits(a: byte, b: byte, c: byte)
    ensures SextetBits(First(a)) + SextetBits(Second(a, b)) + SextetBits(Third(b, c)) + SextetBits(Fourth(c))
         == OctetBits(a) + OctetBits(b) + OctetBits(c)
  {
    FirstBits(a);
    SecondBits(a, b);
    ThirdBits(b, c);
    FourthBits(c);
    Shuffle(OctetBits(a), OctetBits(b), OctetBits(c));
  }

  lemma GroupSpells(a: byte, b: byte, c: byte)
    ensures Spelled(Group(a, b, c)) == Bits([a, b, c])
  {
    SpelledFour(Letter(First(a)), Letter(Second(a, b)), Letter(Third(b, c)), Letter(Fourth(c)));
    SpelledLetter(First(a));
    SpelledLetter(Second(a, b));
    SpelledLetter(Third(b, c));
    SpelledLetter(Fourth(c));
    RegroupedBits(a, b, c);
    BitsOfThree(a, b, c);
  }

  lemma BitsOfThree(a: byte, b: byte, c: byte)
    ensures Bits([a, b, c]) == OctetBits(a) + OctetBits(b) + OctetBits(c)
    ensures Bits([a, b]) == OctetBits(a) + OctetBits(b) && Bits([a]) == OctetBits(a)
  {
    assert [a, b, c][1..] == [b, c] && [a, b][1..] == [b] && [b, c][1..] == [c];
    assert Bits([a]) == OctetBits(a) && Bits([b]) == OctetBits(b) && Bits([c]) == OctetBits(c);
    assert Bits([b, c]) == OctetBits(b) + OctetBits(c);
  }

  /** The zero bits that fill the last sextet. */
  function Fill(n: nat): seq<bool> {
    if n % 3 == 1 then [false, false, false, false] else if n % 3 == 2 then [false, false] else []
  }

  lemma FillStep(n: nat)
    requires n >= 3
    ensures Fill(n) == Fill(n - 3)
  {
  }

  lemma FillBits()
    ensures OctetBits(0)[..4] == Fill(1) && OctetBits(0)[..2] == Fill(2)
  {
  }

  lemma OneSpells(a: byte, fill: seq<bool>)
    requires fill == Fill(1)
    ensures Spelled(Tail([a])) == Bits([a]) + fill
  {
    SpelledPad();
    SpelledLetter(First(a));
    SpelledLetter(Second(a, 0));
    SpelledFour(Letter(First(a)), Letter(Second(a, 0)), '=', '=');
    FirstBits(a);
    SecondBits(a, 0);
    FillBits();
    BitsOfThree(a, 0, 0);
  }

  lemma TwoSpells(a: byte, b: byte, fill: seq<bool>)
    requires fill == Fill(2)
    ensures Spelled(Tail([a, b])) == Bits([a, b]) + fill
  {
    SpelledPad();
    SpelledLetter(First(a));
    SpelledLetter(Second(a, b));
    SpelledLetter(Third(b, 0));
    SpelledFour(Letter(First(a)), Letter(Second(a, b)), Letter(Third(b, 0)), '=');
    FirstBits(a);
    SecondBits(a, b);
    ThirdBits(b, 0);
    ShuffleTwo(OctetBits(a), OctetBits(b), OctetBits(0));
    FillBits();
    BitsOfThree(a, b, 0);
  }

  lemma OneOctetSpells(s: seq<byte>, fill: seq<bool>)
    requires |s| == 1 && fill == Fill(1)
    ensures Spelled(Tail(s)) == Bits(s) + fill
  {
    assert s == [s[0]];
    OneSpells(s[0], fill);
  }

  lemma TwoOctetsSpell(s: seq<byte>, fill: seq<bool>)
    requires |s| == 2 && fill == Fill(2)
    ensures Spelled(Tail(s)) == Bits(s) + fill
  {
    assert s == [s[0], s[1]];
    TwoSpells(s[0], s[1], fill);
  }

  lemma NoneSpells()
    ensures Spelled(Tail([])) == Bits([]) + Fill(0)
  {
  }

  lemma TailSpells(s: seq<byte>)
    requires |s| < 3
    ensures Spelled(Tail(s)) == Bits(s) + Fill(|s|)
  {
    if |s| == 2 {
      TwoOctetsSpell(s, Fill(2));
    } else if |s| == 1 {
      OneOctetSpells(s, Fill(1));
    } else {
      assert s == [];
      NoneSpells();
    }
  }

  lemma {:induction false} BitsConcat(s: seq<byte>, t: seq<byte>)
    ensures Bits(s + t) == Bits(s) + Bits(t)
  {
    if s == [] {
      assert s + t == t;
    } else {
      assert (s + t)[1..] == s[1..] + t;
      BitsConcat(s[1..], t);
    }
  }

  lemma SpelledStep(g: string, h: seq<byte>, t: string, rest: seq<byte>, fill: seq<bool>)
    requires Spelled(g) == Bits(h) && Spelled(t) == Bits(rest) + fill
    ensures Spelled(g + t) == Bits(h + rest) + fill
  {
    SpelledConcat(g, t);
    BitsConcat(h, rest);
    assert Bits(h) + (Bits(rest) + fill) == Bits(h) + Bits(rest) + fill;
  }

  lemma FirstGroup(s: seq<byte>) returns (g: string, h: seq<byte>)
    requires |s| >= 3
    ensures s == h + s[3..] && Encode(s) == g + Encode(s[3..])
    ensures |h| == 3 && Spelled(g) == Bits(h)
  {
    g, h := Group(s[0], s[1], s[2]), [s[0], s[1], s[2]];
    GroupSpells(s[0], s[1], s[2]);
  }

  lemma GroupThenRest(s: seq<byte>, fill: seq<bool>)
    requires |s| >= 3 && Spelled(Encode(s[3..])) == Bits(s[3..]) + fill
    ensures Spelled(Encode(s)) == Bits(s) + fill
  {
    var g, h := FirstGroup(s);
    SpelledStep(g, h, Encode(s[3..]), s[3..], fill);
  }

  /** The letters spell the octets' bits, most significant first, and then only zeros. */
  lemma {:induction false} EncodeSpellsTheBits(s: seq<byte>)
    ensures Spelled(Encode(s)) == Bits(s) + Fill(|s|)
  {
    if |s| < 3 {
      TailSpells(s);
    } else {
      EncodeSpellsTheBits(s[3..]);
      GroupThenRest(s, Fill(|s| - 3));
      FillStep(|s|);
    }
  }

  lemma TailOf(s: seq<byte>)
    requires 1 <= |s| <= 2
    ensures |s| == 1 ==> Tail(s) == [Letter(First(s[0])), Letter((s[0] & 3) << 4), '=', '=']
    ensures |s| == 2 ==>
      Tail(s) == [Letter(First(s[0])), Letter(Second(s[0], s[1])), Letter((s[1] & 15) << 2), '=']
  {
  }

  lemma EncodeStep(s: seq<byte>, i: nat, done: string)
    requires i + 3 <= |s|
    ensures done + Encode(s[i..]) == done + Group(s[i], s[i + 1], s[i + 2]) + Encode(s[i + 3..])
  {
    assert s[i..][3..] == s[i + 3..];
  }

  method PutFour(out: array<char>, p: nat, c: char, d: char, e: char, f: char)
    requires p + 4 <= out.Length
    modifies out
    ensures out[..p + 4] == old(out[..p]) + [c, d, e, f] && out[p + 4..] == old(out[p + 4..])
  {
    out[p] := c;
    out[p + 1] := d;
    out[p + 2] := e;
    out[p + 3] := f;
  }

  method PutGroup(src: array<byte>, i: nat, out: array<char>, p: nat)
    requires i + 3 <= src.Length && p + 4 <= out.Length && src as object != out
    modifies out
    ensures out[..p + 4] == old(out[..p]) + Group(src[i], src[i + 1], src[i + 2])
    ensures out[p + 4..] == old(out[p + 4..])
  {
    PutFour(out, p, Letter(First(src[i])), Letter(Second(src[i], src[i + 1])),
      Letter(Third(src[i + 1], src[i + 2])), Letter(Fourth(src[i + 2])));
  }

  method PutTail(src: array<byte>, i: nat, n: nat, out: array<char>, p: nat)
    requires i < n < i + 3 && n <= src.Length && p + 4 <= out.Length && src as object != out
    modifies out
    ensures out[..p + 4] == old(out[..p]) + Tail(src[i..n]) && out[p + 4..] == old(out[p + 4..])
  {
    TailOf(src[i..n]);
    if i + 1 < n {
      PutFour(out, p, Letter(First(src[i])), Letter(Second(src[i], src[i + 1])), Letter((src[i + 1] & 15) << 2), '=');
    } else {
      PutFour(out, p, Letter(First(src[i])), Letter((src[i] & 3) << 4), '=', '=');
    }
  }

  method EncodeOne(src: array<byte>, n: nat, i: nat, out: array<char>, p: nat)
    requires i + 3 <= n <= src.Length && p + 4 <= out.Length && src as object != out
    modifies out
    ensures out[..p + 4] + Encode(src[..n][i + 3..]) == old(out[..p]) + Encode(src[..n][i..])
    ensures out[p + 4..] == old(out[p + 4..])
  {
    EncodeStep(src[..n], i, out[..p]);
    PutGroup(src, i, out, p);
  }

  /** The loop over whole groups: what is written so far, and the rest of the input, make up the output. */
  method EncodeGroups(src: array<byte>, n: nat, out: array<char>) returns (i: nat, p: nat)
    requires n <= src.Length && (n + 2) / 3 * 4 < out.Length && src as object != out
    modifies out
    ensures i <= n < i + 3 && p + |Tail(src[i..n])| == (n + 2) / 3 * 4
    ensures out[..p] + Tail(src[i..n]) == Encode(src[..n])
    ensures out[p..] == old(out[p..])
  {
    ghost var s := src[..n];
    i, p := 0, 0;
    while i + 2 < n
      invariant i <= n && p + |Encode(s[i..])| == (n + 2) / 3 * 4
      invariant out[p..] == old(out[p..])
      invariant out[..p] + Encode(s[i..]) == Encode(s) && src[..n] == s
    {
      assert out[p + 4..] == out[p..][4..] == old(out[p + 4..]);
      EncodeOne(src, n, i, out, p);
      i, p := i + 3, p + 4;
    }
    assert s[i..] == src[i..n];
  }

  /** b64_encode: groups of three while a whole group is left, then the padded rest and a NUL. */
  method EncodeInto(src: array<byte>, n: nat, out: array<char>) returns (len: nat)
    requires n <= src.Length && (n + 2) / 3 * 4 < out.Length && src as object != out
    modifies out
    ensures len == (n + 2) / 3 * 4 && out[..len] == Encode(src[..n]) && out[len] == NUL
    ensures out[len + 1..] == old(out[len + 1..])
  {
    var i, p := EncodeGroups(src, n, out);
    ghost var s, left := src[..n], out[p..];
    if i < n {
      assert left[4..] == out[p + 4..];
      PutTail(src, i, n, out, p);
      p := p + 4;
    }
    assert out[..p] == Encode(s) && out[p + 1..] == out[p..][1..] == old(out[p + 1..]);
    out[p] := NUL;
    len := p;
  }
}
