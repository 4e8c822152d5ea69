/**
 The frame format of RFC 6455, sections 5.2 and 5.3, as a client encoder and an
 independent parser, and the round trip between them.
 */
module Frames {
  import opened Bytes

  const OP_CONTINUATION: byte := 0x0
  const OP_TEXT: byte := 0x1
  const OP_BINARY: byte := 0x2
  const OP_CLOSE: byte := 0x8
  const OP_PING: byte := 0x9
  const OP_PONG: byte := 0xA

  /** The receiver's 16 MB sanity cap on one frame. */
  const RECEIVE_CAP: nat := 16 * 1024 * 1024
  const SIZE_LIMIT: nat := 0x1_0000_0000_0000_0000
  const DEFAULT_CLOSE_CODE: nat := 1000

  datatype Frame = Frame(fin: bool, opcode: byte, payload: seq<byte>)

  /** Section 5.3: octet i of the payload is combined with octet i mod 4 of the key. */
  function Mask(s: seq<byte>, key: seq<byte>): (m: seq<byte>)
    requires |key| == 4
    ensures |m| == |s|
  {
    seq(|s|, i requires 0 <= i < |s| => s[i] ^ key[i % 4])
  }

  lemma MaskTwice(s: seq<byte>, key: seq<byte>)
    requires |key| == 4
    ensures Mask(Mask(s, key), key) == s
  {
    var m := Mask(Mask(s, key), key);
    forall i | 0 <= i < |s| ensures m[i] == s[i] {
      var a, k := s[i], key[i % 4];
      assert (a ^ k) ^ k == a;
    }
  }

  // ---------- encoder ------------------------------------------------------

  /** Mask bit and payload length in the shortest of the three forms. */
  function LengthField(mask: byte, n: nat): (s: seq<byte>)
    requires n < SIZE_LIMIT
    ensures |s| == if n <= 125 then 1 else if n <= 0xFFFF then 3 else 9
  {
    if n <= 125 then [mask | ToByte(n)]
    else if n <= 0xFFFF then [mask | 126] + BigEndian(n, 2)
    else [mask | 127] + BigEndian(n, 8)
  }

  function Header(opcode: byte, n: nat, key: seq<byte>): (s: seq<byte>)
    requires n < SIZE_LIMIT && |key| == 4
    ensures 6 <= |s| <= 14
  {
    [0x80 | (opcode & 0x0f)] + LengthField(0x80, n) + key
  }

  /** A final, masked client frame. */
  function Encode(opcode: byte, payload: seq<byte>, key: seq<byte>): (s: seq<byte>)
    requires |payload| < SIZE_LIMIT && |key| == 4
    ensures |s| >= 6
  {
    Header(opcode, |payload|, key) + Mask(payload, key)
  }

  /** Any frame of section 5.2, as either end may send it: final or not, masked when there is a key. */
  datatype Wire = Wire(frame: Frame, key: Option<seq<byte>>) {
    predicate Valid() {
      |frame.payload| < SIZE_LIMIT && frame.opcode < 16 && (key.Some? ==> |key.value| == 4)
    }

    function First(): byte {
      (if frame.fin then 0x80 else 0) | frame.opcode
    }

    function MaskBit(): byte {
      if key.Some? then 0x80 else 0
    }

    /** Key and payload. */
    function Body(): (s: seq<byte>)
      requires Valid()
      ensures |s| == (if key.Some? then 4 else 0) + |frame.payload|
    {
      if key.Some? then key.value + Mask(frame.payload, key.value) else frame.payload
    }

    function Octets(): seq<byte>
      requires Valid()
    {
      [First()] + LengthField(MaskBit(), |frame.payload|) + Body()
    }
  }

  // ---------- parser -------------------------------------------------------

  /** NoHeader: the stream ends inside the two fixed octets. Broken: it ends later, or the cap is exceeded. */
  datatype Parsed = Whole(frame: Frame, used: nat) | NoHeader | Broken

  /** How many octets of extended length follow a given 7-bit length. */
  function ExtraLength(short: byte): nat {
    if short == 126 then 2 else if short == 127 then 8 else 0
  }

  /** Key and payload of the first frame of a byte stream, whose payload length n is settled `at` octets in. */
  function ParseTail(s: seq<byte>, fin: bool, opcode: byte, masked: bool, at: nat, n: nat, cap: nat): (r: Parsed)
    requires 2 <= at <= |s|
    ensures r.Whole? ==> 2 <= r.used <= |s| && |r.frame.payload| <= cap && r.frame.opcode == opcode
    ensures !r.NoHeader?
  {
    var start := at + if masked then 4 else 0;
    if |s| < start || n > cap || |s| < start + n then Broken else
    var raw := s[start..start + n];
    Whole(Frame(fin, opcode, if masked then Mask(raw, s[start - 4..start]) else raw), start + n)
  }

  /** The rest of the first frame, once the two fixed octets are taken apart. */
  function ParseBody(s: seq<byte>, fin: bool, opcode: byte, masked: bool, short: byte, cap: nat): (r: Parsed)
    requires |s| >= 2
    ensures r.Whole? ==> 2 <= r.used <= |s| && |r.frame.payload| <= cap && r.frame.opcode == opcode
  {
    var at := 2 + ExtraLength(short);
    if |s| < at then Broken
    else ParseTail(s, fin, opcode, masked, at, if at == 2 then short as int else Value(s[2..at]), cap)
  }

  /** The first frame of a byte stream. */
  function Parse(s: seq<byte>, cap: nat): (r: Parsed)
    ensures r.Whole? ==> 2 <= r.used <= |s| && |r.frame.payload| <= cap && r.frame.opcode < 16
  {
    if |s| < 2 then NoHeader
    else ParseBody(s, s[0] & 0x80 != 0, s[0] & 0x0f, s[1] & 0x80 != 0, s[1] & 0x7f, cap)
  }

  /** All the frames of a byte stream and the bytes left over. */
  function ParseAll(s: seq<byte>, cap: nat): (seq<Frame>, seq<byte>)
    decreases |s|
  {
    match Parse(s, cap)
    case Whole(f, used) => var (fs, rest) := ParseAll(s[used..], cap); ([f] + fs, rest)
    case _ => ([], s)
  }

  // ---------- round trip ---------------------------------------------------

  lemma LengthFieldParts(mask: byte, n: nat)
    requires n < SIZE_LIMIT && (mask == 0x80 || mask == 0)
    ensures var l := LengthField(mask, n);
            var short := l[0] & 0x7f;
            && (l[0] & 0x80 != 0 <==> mask != 0)
            && |l| == 1 + ExtraLength(short)
            && n == if ExtraLength(short) == 0 then short as int else Value(l[1..])
  {
    assert Pow256(2) == 0x1_0000 && Pow256(8) == SIZE_LIMIT by {
      assert Pow256(1) == 256 && Pow256(3) == 0x100_0000;
      assert Pow256(4) == 0x1_0000_0000 && Pow256(6) == 0x1_0000_0000_0000;
    }
    if n <= 125 {
      ShortLength(mask, ToByte(n));
    } else if n <= 0xFFFF {
      ShortLength(mask, 126);
      ValueOfBigEndian(n, 2);
      assert LengthField(mask, n)[1..] == BigEndian(n, 2);
    } else {
      ShortLength(mask, 127);
      ValueOfBigEndian(n, 8);
      assert LengthField(mask, n)[1..] == BigEndian(n, 8);
    }
  }

  lemma ShortLength(mask: byte, b: byte)
    requires b < 128 && (mask == 0x80 || mask == 0)
    ensures (mask | b) & 0x7f == b && ((mask | b) & 0x80 != 0 <==> mask != 0)
  {
  }

  lemma Middle(a: seq<byte>, b: seq<byte>, c: seq<byte>)
    ensures (a + b + c)[|a|..|a| + |b|] == b
  {
  }

  lemma ParseWireTail(w: Wire, head: seq<byte>, rest: seq<byte>, cap: nat)
    requires w.Valid() && |w.frame.payload| <= cap && |head| >= 2
    ensures ParseTail(head + w.Body() + rest, w.frame.fin, w.frame.opcode, w.key.Some?, |head|, |w.frame.payload|, cap)
         == Whole(w.frame, |head| + |w.Body()|)
  {
    var p := w.frame.payload;
    if w.key.Some? {
      Middle(head + w.key.value, Mask(p, w.key.value), rest);
      Middle(head, w.key.value, Mask(p, w.key.value) + rest);
      assert head + w.Body() + rest == head + w.key.value + Mask(p, w.key.value) + rest;
      assert head + w.Body() + rest == head + w.key.value + (Mask(p, w.key.value) + rest);
      MaskTwice(p, w.key.value);
    } else {
      Middle(head, p, rest);
    }
  }

  lemma ParseWireBody(w: Wire, head: seq<byte>, short: byte, rest: seq<byte>, cap: nat)
    requires w.Valid() && |w.frame.payload| <= cap && |head| == 2 + ExtraLength(short)
    requires |w.frame.payload| == if ExtraLength(short) == 0 then short as int else Value(head[2..])
    ensures ParseBody(head + w.Body() + rest, w.frame.fin, w.frame.opcode, w.key.Some?, short, cap)
         == Whole(w.frame, |head| + |w.Body()|)
  {
    assert (head + w.Body() + rest)[2..|head|] == head[2..];
    ParseWireTail(w, head, rest, cap);
  }

  lemma ParseFixedOctets(w: Wire, s: seq<byte>, l: seq<byte>, cap: nat)
    requires w.Valid() && |s| >= 2 && |l| >= 1 && s[0] == w.First() && s[1] == l[0]
    requires l[0] & 0x80 != 0 <==> w.key.Some?
    ensures Parse(s, cap) == ParseBody(s, w.frame.fin, w.frame.opcode, w.key.Some?, l[0] & 0x7f, cap)
  {
    assert (w.First() & 0x80 != 0 <==> w.frame.fin) && w.First() & 0x0f == w.frame.opcode;
  }

  lemma ParseWithLength(w: Wire, l: seq<byte>, rest: seq<byte>, cap: nat)
    requires w.Valid() && |w.frame.payload| <= cap && |l| >= 1
    requires (l[0] & 0x80 != 0 <==> w.key.Some?) && |l| == 1 + ExtraLength(l[0] & 0x7f)
    requires |w.frame.payload| == if ExtraLength(l[0] & 0x7f) == 0 then (l[0] & 0x7f) as int else Value(l[1..])
    ensures Parse([w.First()] + l + w.Body() + rest, cap) == Whole(w.frame, 1 + |l| + |w.Body()|)
  {
    var head := [w.First()] + l;
    assert head[1] == l[0] && head[2..] == l[1..];
    ParseFixedOctets(w, head + w.Body() + rest, l, cap);
    ParseWireBody(w, head, l[0] & 0x7f, rest, cap);
  }

  lemma ParseWithLongLength(w: Wire, l: seq<byte>, rest: seq<byte>, cap: nat)
    requires w.Valid() && cap < |w.frame.payload| && |l| >= 1
    requires (l[0] & 0x80 != 0 <==> w.key.Some?) && |l| == 1 + ExtraLength(l[0] & 0x7f)
    requires |w.frame.payload| == if ExtraLength(l[0] & 0x7f) == 0 then (l[0] & 0x7f) as int else Value(l[1..])
    ensures Parse([w.First()] + l + w.Body() + rest, cap) == Broken
  {
    var head := [w.First()] + l;
    var s := head + w.Body() + rest;
    assert head[1] == l[0] && head[2..] == l[1..];
    ParseFixedOctets(w, s, l, cap);
    assert s[2..|head|] == head[2..];
  }

  /** A frame above the cap is not read. */
  lemma ParseTooLong(w: Wire, rest: seq<byte>, cap: nat)
    requires w.Valid() && cap < |w.frame.payload|
    ensures Parse(w.Octets() + rest, cap) == Broken
  {
    LengthFieldParts(w.MaskBit(), |w.frame.payload|);
    ParseWithLongLength(w, LengthField(w.MaskBit(), |w.frame.payload|), rest, cap);
  }

  /** What section 5.2 lays out for a frame, final or not, masked or not, is parsed back, whatever follows it. */
  lemma ParseOctets(w: Wire, rest: seq<byte>, cap: nat)
    requires w.Valid() && |w.frame.payload| <= cap
    ensures Parse(w.Octets() + rest, cap) == Whole(w.frame, |w.Octets()|)
  {
    LengthFieldParts(w.MaskBit(), |w.frame.payload|);
    ParseWithLength(w, LengthField(w.MaskBit(), |w.frame.payload|), rest, cap);
  }

  /** The client's frames are final and masked. */
  lemma EncodeIsWire(opcode: byte, payload: seq<byte>, key: seq<byte>)
    requires |payload| < SIZE_LIMIT && |key| == 4
    ensures opcode & 0x0f < 16
    ensures Encode(opcode, payload, key) == Wire(Frame(true, opcode & 0x0f, payload), Some(key)).Octets()
  {
  }

  /** What the encoder writes, the parser reads back, whatever follows on the wire. */
  lemma ParseEncode(opcode: byte, payload: seq<byte>, key: seq<byte>, rest: seq<byte>, cap: nat)
    requires |payload| < SIZE_LIMIT && |payload| <= cap && |key| == 4
    ensures Parse(Encode(opcode, payload, key) + rest, cap)
         == Whole(Frame(true, opcode & 0x0f, payload), |Encode(opcode, payload, key)|)
  {
    EncodeIsWire(opcode, payload, key);
    ParseOctets(Wire(Frame(true, opcode & 0x0f, payload), Some(key)), rest, cap);
  }

  lemma ParseTailLocal(s: seq<byte>, t: seq<byte>, fin: bool, opcode: byte, masked: bool, at: nat, n: nat, cap: nat)
    requires 2 <= at <= |s| && ParseTail(s, fin, opcode, masked, at, n, cap).Whole?
    ensures var r := ParseTail(s, fin, opcode, masked, at, n, cap);
      at <= r.used && ParseTail(s[..r.used] + t, fin, opcode, masked, at, n, cap) == r
  {
    var start := at + if masked then 4 else 0;
    var s' := s[..start + n] + t;
    assert s'[start..start + n] == s[start..start + n];
    assert masked ==> s'[start - 4..start] == s[start - 4..start];
  }

  lemma ParseBodyLocal(s: seq<byte>, t: seq<byte>, fin: bool, opcode: byte, masked: bool, short: byte, cap: nat)
    requires |s| >= 2 && ParseBody(s, fin, opcode, masked, short, cap).Whole?
    ensures var r := ParseBody(s, fin, opcode, masked, short, cap);
      ParseBody(s[..r.used] + t, fin, opcode, masked, short, cap) == r
  {
    var at := 2 + ExtraLength(short);
    var n := if at == 2 then short as int else Value(s[2..at]);
    ParseTailLocal(s, t, fin, opcode, masked, at, n, cap);
    var u := ParseTail(s, fin, opcode, masked, at, n, cap).used;
    assert (s[..u] + t)[2..at] == s[2..at];
  }

  lemma ParseSame(s: seq<byte>, u: seq<byte>, cap: nat)
    requires |s| >= 2 && |u| >= 2 && u[0] == s[0] && u[1] == s[1]
    requires ParseBody(u, s[0] & 0x80 != 0, s[0] & 0x0f, s[1] & 0x80 != 0, s[1] & 0x7f, cap)
          == ParseBody(s, s[0] & 0x80 != 0, s[0] & 0x0f, s[1] & 0x80 != 0, s[1] & 0x7f, cap)
    ensures Parse(u, cap) == Parse(s, cap)
  {
  }

  lemma CutKeepsStart(s: seq<byte>, n: nat, t: seq<byte>)
    requires 2 <= n <= |s|
    ensures |s[..n] + t| >= 2 && (s[..n] + t)[0] == s[0] && (s[..n] + t)[1] == s[1]
  {
  }

  /** A frame that the parser finds depends on its own octets only: the receiver never needs to look ahead. */
  lemma ParseLocal(s: seq<byte>, t: seq<byte>, cap: nat)
    requires Parse(s, cap).Whole?
    ensures Parse(s[..Parse(s, cap).used] + t, cap) == Parse(s, cap)
  {
    var u := s[..Parse(s, cap).used] + t;
    CutKeepsStart(s, Parse(s, cap).used, t);
    ParseBodyLocal(s, t, s[0] & 0x80 != 0, s[0] & 0x0f, s[1] & 0x80 != 0, s[1] & 0x7f, cap);
    ParseSame(s, u, cap);
  }

  lemma ParseCutRest(w: Wire, s: seq<byte>, u: nat)
    requires w.Valid() && s < w.Octets() && u <= |s|
    ensures s[..u] + w.Octets()[u..] == w.Octets()
  {
    assert s[..u] == w.Octets()[..u];
  }

  /** Two octets or more that are a proper start of a frame are no frame, and not the end of the stream either. */
  lemma ParseCut(w: Wire, s: seq<byte>, cap: nat)
    requires w.Valid() && 2 <= |s| && s < w.Octets()
    ensures Parse(s, cap) == Broken
  {
    var p := Parse(s, cap);
    if p.Whole? {
      ParseLocal(s, w.Octets()[p.used..], cap);
      ParseCutRest(w, s, p.used);
      assert w.Octets() + [] == w.Octets();
      if |w.frame.payload| <= cap { ParseOctets(w, [], cap); } else { ParseTooLong(w, [], cap); }
      assert false;
    }
  }

  lemma ReservedBits(b: byte, r: byte)
    requires r & 0x8f == 0
    ensures (b ^ r) & 0x80 == b & 0x80 && (b ^ r) & 0x0f == b & 0x0f
  {
  }

  lemma ParseTailSame(b: byte, c: byte, rest: seq<byte>, fin: bool, opcode: byte, masked: bool, at: nat, n: nat,
                      cap: nat)
    requires 2 <= at <= 1 + |rest|
    ensures ParseTail([b] + rest, fin, opcode, masked, at, n, cap)
         == ParseTail([c] + rest, fin, opcode, masked, at, n, cap)
  {
    var start := at + if masked then 4 else 0;
    var s, u := [b] + rest, [c] + rest;
    if start <= |s| && start + n <= |s| {
      assert s[start..start + n] == u[start..start + n];
      assert masked ==> s[start - 4..start] == u[start - 4..start];
    }
  }

  lemma ParseBodySame(b: byte, c: byte, rest: seq<byte>, fin: bool, opcode: byte, masked: bool, short: byte, cap: nat)
    requires rest != []
    ensures ParseBody([b] + rest, fin, opcode, masked, short, cap)
         == ParseBody([c] + rest, fin, opcode, masked, short, cap)
  {
    var s, u, at := [b] + rest, [c] + rest, 2 + ExtraLength(short);
    if at <= |s| {
      assert s[2..at] == u[2..at];
      ParseTailSame(b, c, rest, fin, opcode, masked, at, if at == 2 then short as int else Value(u[2..at]), cap);
    }
  }

  lemma ParseFirst(b: byte, fin: bool, opcode: byte, rest: seq<byte>, cap: nat)
    requires rest != [] && (b & 0x80 != 0 <==> fin) && b & 0x0f == opcode
    ensures Parse([b] + rest, cap) == ParseBody([b] + rest, fin, opcode, rest[0] & 0x80 != 0, rest[0] & 0x7f, cap)
  {
    assert ([b] + rest)[0] == b && ([b] + rest)[1] == rest[0];
  }

  /** The reserved bits of the first octet make no difference to the receiver. */
  lemma ParseIgnoresReserved(b: byte, r: byte, rest: seq<byte>, cap: nat)
    requires r & 0x8f == 0
    ensures Parse([b ^ r] + rest, cap) == Parse([b] + rest, cap)
  {
    if rest != [] {
      ReservedBits(b, r);
      ParseFirst(b, b & 0x80 != 0, b & 0x0f, rest, cap);
      ParseFirst(b ^ r, b & 0x80 != 0, b & 0x0f, rest, cap);
      ParseBodySame(b ^ r, b, rest, b & 0x80 != 0, b & 0x0f, rest[0] & 0x80 != 0, rest[0] & 0x7f, cap);
    }
  }

  // ---------- a wire carrying many frames ----------------------------------

  /** One frame as handed to the encoder. */
  datatype Sent = Sent(opcode: byte, payload: seq<byte>, key: seq<byte>) {
    predicate Valid() { |payload| < SIZE_LIMIT && |key| == 4 && opcode < 16 }
    function Received(): Frame { Frame(true, opcode, payload) }
    function Encoded(): seq<byte> requires Valid() { Encode(opcode, payload, key) }
  }

  predicate AllValid(log: seq<Sent>) {
    forall i :: 0 <= i < |log| ==> log[i].Valid()
  }

  function ReceivedAll(log: seq<Sent>): seq<Frame> {
    seq(|log|, i requires 0 <= i < |log| => log[i].Received())
  }

  /** A chunk that the parser reads as one frame, whatever comes next. */
  ghost predicate Delimits(chunk: seq<byte>, f: Frame, cap: nat) {
    forall t :: Parse(chunk + t, cap) == Whole(f, |chunk|)
  }

  lemma {:induction false} ParseAllFlatten(chunks: seq<seq<byte>>, fs: seq<Frame>, cap: nat)
    requires |chunks| == |fs| && forall i :: 0 <= i < |fs| ==> Delimits(chunks[i], fs[i], cap)
    ensures ParseAll(Flatten(chunks), cap) == (fs, [])
  {
    if chunks == [] {
    } else {
      var t := Flatten(chunks[1..]);
      FlattenCons(chunks);
      assert Delimits(chunks[0], fs[0], cap);
      ParseAllFlatten(chunks[1..], fs[1..], cap);
      assert (chunks[0] + t)[|chunks[0]|..] == t;
      assert fs == [fs[0]] + fs[1..];
    }
  }

  function EncodeAll(log: seq<Sent>): seq<byte>
    requires AllValid(log)
  {
    Flatten(seq(|log|, i requires 0 <= i < |log| => log[i].Encoded()))
  }

  lemma EncodeAllSnoc(log: seq<Sent>, last: Sent)
    requires AllValid(log) && last.Valid()
    ensures EncodeAll(log + [last]) == EncodeAll(log) + last.Encoded()
  {
    var before := seq(|log|, i requires 0 <= i < |log| => log[i].Encoded());
    var log' := log + [last];
    assert seq(|log'|, i requires 0 <= i < |log'| => log'[i].Encoded()) == before + [last.Encoded()];
    FlattenSnoc(before, last.Encoded());
  }

  /** Decoding a wire that carries only whole frames yields exactly those frames, in order. */
  lemma ParseAllEncodeAll(log: seq<Sent>)
    requires AllValid(log)
    ensures ParseAll(EncodeAll(log), SIZE_LIMIT) == (ReceivedAll(log), [])
  {
    forall i | 0 <= i < |log| ensures Delimits(log[i].Encoded(), log[i].Received(), SIZE_LIMIT) {
      SentDelimits(log[i], SIZE_LIMIT);
    }
    ParseAllFlatten(seq(|log|, i requires 0 <= i < |log| => log[i].Encoded()), ReceivedAll(log), SIZE_LIMIT);
  }

  lemma SentDelimits(m: Sent, cap: nat)
    requires m.Valid() && |m.payload| <= cap
    ensures Delimits(m.Encoded(), m.Received(), cap)
  {
    SmallOpcode(m.opcode);
    forall t: seq<byte> ensures Parse(m.Encoded() + t, cap) == Whole(m.Received(), |m.Encoded()|) {
      ParseEncode(m.opcode, m.payload, m.key, t, cap);
    }
  }

  function FramesOf(ws: seq<Wire>): seq<Frame> {
    seq(|ws|, i requires 0 <= i < |ws| => ws[i].frame)
  }

  function StreamOf(ws: seq<Wire>): seq<byte>
    requires forall i :: 0 <= i < |ws| ==> ws[i].Valid()
  {
    Flatten(seq(|ws|, i requires 0 <= i < |ws| => ws[i].Octets()))
  }

  /** A peer's stream of frames within the cap, each masked or not, is taken apart into exactly those frames. */
  lemma ParseStream(ws: seq<Wire>, cap: nat)
    requires forall i :: 0 <= i < |ws| ==> ws[i].Valid() && |ws[i].frame.payload| <= cap
    ensures ParseAll(StreamOf(ws), cap) == (FramesOf(ws), [])
  {
    forall i | 0 <= i < |ws| ensures Delimits(ws[i].Octets(), ws[i].frame, cap) {
      forall t: seq<byte> ensures Parse(ws[i].Octets() + t, cap) == Whole(ws[i].frame, |ws[i].Octets()|) {
        ParseOctets(ws[i], t, cap);
      }
    }
    ParseAllFlatten(seq(|ws|, i requires 0 <= i < |ws| => ws[i].Octets()), FramesOf(ws), cap);
  }

  lemma SmallOpcode(opcode: byte)
    requires opcode < 16
    ensures opcode & 0x0f == opcode
  {
  }

  // ---------- close payloads -----------------------------------------------

  /** Sections 5.5 and 5.5.1: status code, then at most 123 octets of reason. */
  function ClosePayload(code: int, reason: seq<byte>): (p: seq<byte>)
    ensures 2 <= |p| <= 125
  {
    var c := UpToNul(reason);
    BigEndian((if code > 0 then code else DEFAULT_CLOSE_CODE) % 0x1_0000, 2) + c[..Min(|c|, 123)]
  }

  /** The status code and reason text that the receiver reads from a payload of two octets or more. */
  function CloseCode(payload: seq<byte>): nat
    requires |payload| >= 2
  {
    Value(payload[..2])
  }

  function CloseReason(payload: seq<byte>): seq<byte>
    requires |payload| >= 2
  {
    payload[2..Min(|payload|, 2 + 127)]
  }

  lemma CloseFields(code: int, reason: seq<byte>)
    ensures var p := ClosePayload(code, reason);
            && CloseCode(p) == (if code > 0 then code else DEFAULT_CLOSE_CODE) % 0x1_0000
            && CloseReason(p) == UpToNul(reason)[..Min(|UpToNul(reason)|, 123)]
  {
    var p := ClosePayload(code, reason);
    var n := (if code > 0 then code else DEFAULT_CLOSE_CODE) % 0x1_0000;
    assert n < Pow256(2) by { assert Pow256(1) == 256 && Pow256(2) == 0x1_0000; }
    ValueOfBigEndian(n, 2);
    assert p[..2] == BigEndian(n, 2);
    assert p[2..|p|] == UpToNul(reason)[..Min(|UpToNul(reason)|, 123)];
  }

  /** The status code that arrives is the one sent exactly when that is a 16-bit number above zero. */
  lemma CloseCodeTrip(code: int, reason: seq<byte>)
    ensures CloseCode(ClosePayload(code, reason)) == code <==> 0 < code < 0x1_0000
    ensures code <= 0 ==> CloseCode(ClosePayload(code, reason)) == DEFAULT_CLOSE_CODE
  {
    CloseFields(code, reason);
    if code > 0 { LowHalf(code); }
  }

  lemma LowHalf(n: nat)
    ensures n % 0x1_0000 == n <==> n < 0x1_0000
  {
  }

  /** The text that arrives, as stored in a 128-byte buffer, is the text sent, cut to 123 octets. */
  lemma CloseReasonTrip(code: int, reason: seq<byte>)
    requires 0 !in reason
    ensures Snprintf(CloseReason(ClosePayload(code, reason)), 128) == reason[..Min(|reason|, 123)]
  {
    CloseFields(code, reason);
    UpToNulPrefix(reason);
    SnprintfKeeps(reason[..Min(|reason|, 123)], 128);
  }

  /** A Close frame is read off any stream that it heads, its payload intact and at most 125 octets long. */
  lemma CloseFrameTrip(code: int, reason: seq<byte>, key: seq<byte>)
    requires |key| == 4
    ensures var p := ClosePayload(code, reason);
            |p| <= 125 && Delimits(Encode(OP_CLOSE, p, key), Frame(true, OP_CLOSE, p), RECEIVE_CAP)
  {
    SentDelimits(Sent(OP_CLOSE, ClosePayload(code, reason), key), RECEIVE_CAP);
  }
}
