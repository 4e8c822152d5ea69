/** The key that the client sends, and the answer it expects: section 4.1 of RFC 6455. */
module Handshake {
  import opened Bytes
  import B64 = Base64
  import opened Sha1Spec
  import S = Sha1Stream

  const GUID_SIZE: nat := 36
  const GUID_HEAD: string := "258EAFA5-E914-47DA-9"
  const GUID_TAIL: string := "5CA-C5AB0DC85B11"
  const GUID: string := GUID_HEAD + GUID_TAIL

  lemma GuidSize()
    ensures |GUID| == GUID_SIZE
  {
  }

  lemma SmallEnough()
    ensures 8 * 60 < Pow256(8)
  {
    S.Pow256Of8();
  }

  /** The Sec-WebSocket-Accept value for a key: the digest of the key and the fixed GUID, in base64. */
  function AcceptOf(key: string): string
    requires |key| == 24
  {
    GuidSize();
    SmallEnough();
    B64.Encode(Digest(Ascii(key + GUID)))
  }

  lemma NoNul(s: seq<byte>)
    ensures NUL !in B64.Encode(s)
  {
    forall k | 0 <= k < |B64.Encode(s)| ensures B64.Encode(s)[k] != NUL {
      B64.LettersThenPadding(s, k);
      if B64.Encode(s)[k] in B64.ALPHABET {
        B64.AlphabetSize();
        var i :| 0 <= i < 64 && B64.ALPHABET[i] == B64.Encode(s)[k];
        B64.AlphabetCodes(i);
      }
    }
  }

  /** strlen of a buffer that holds s and a NUL. */
  method Strlen(buf: array<char>, ghost s: string) returns (n: nat)
    requires |s| < buf.Length && buf[..|s|] == s && buf[|s|] == NUL && NUL !in s
    ensures n == |s|
  {
    assert forall k :: 0 <= k < |s| ==> buf[k] == s[k] && s[k] in s;
    n := 0;
    while buf[n] != NUL
      invariant n <= |s|
      decreases |s| - n
    {
      n := n + 1;
    }
  }

  /** memcpy from a char buffer into octets. */
  method PutChars(dst: array<byte>, at: nat, src: array<char>, n: nat)
    requires at + n <= dst.Length && n <= src.Length && src as object != dst
    modifies dst
    ensures dst[..at + n] == old(dst[..at]) + Ascii(src[..n])
  {
    for i := 0 to n
      invariant dst[..at] == old(dst[..at])
      invariant forall k :: 0 <= k < i ==> dst[at + k] == ToByte(src[k] as int % 256)
    {
      dst[at + i] := ToByte(src[i] as int % 256);
    }
    assert dst[at..at + n] == Ascii(src[..n]);
    assert dst[..at + n] == dst[..at] + dst[at..at + n];
  }

  lemma AsciiConcat(s: string, t: string)
    ensures Ascii(s + t) == Ascii(s) + Ascii(t)
  {
  }

  method Fill(buf: array<char>, s: string)
    requires |s| <= buf.Length
    modifies buf
    ensures buf[..|s|] == s
  {
    for i := 0 to |s|
      invariant buf[..i] == s[..i]
    {
      buf[i] := s[i];
    }
  }

  /** The octets that are hashed: the key's characters and then the GUID's. */
  method HashInput(key: array<char>, ghost k: string) returns (shaIn: array<byte>)
    requires |k| == 24 && NUL !in k && key.Length == 32 && key[..24] == k && key[24] == NUL
    ensures fresh(shaIn) && shaIn.Length == 64 && shaIn[..60] == Ascii(k + GUID)
  {
    GuidSize();
    AsciiConcat(k, GUID);
    var magic := new char[GUID_SIZE + 1](_ => NUL);
    Fill(magic, GUID);
    var klen := Strlen(key, k);
    shaIn := new byte[64];
    PutChars(shaIn, 0, key, klen);
    PutChars(shaIn, klen, magic, GUID_SIZE);
    assert magic[..GUID_SIZE] == GUID;
  }

  /** The digest of the first 60 octets of a buffer. */
  method Hash(shaIn: array<byte>) returns (shaOut: array<byte>)
    requires shaIn.Length == 64
    ensures fresh(shaOut) && shaOut.Length == 20
    ensures 8 * 60 < Pow256(8) && shaOut[..] == Digest(shaIn[..60])
  {
    SmallEnough();
    ghost var input := shaIn[..60];
    var sha := new S.Sha1Ctx.Init();
    sha.Update(shaIn, 60);
    assert sha.msg == input;
    shaOut := new byte[20];
    sha.Final(shaOut);
    assert shaOut[..] == shaOut[..20];
  }

  method Encoded(src: array<byte>, size: nat) returns (out: array<char>)
    requires (src.Length + 2) / 3 * 4 < size
    ensures fresh(out) && out.Length == size
    ensures var t := B64.Encode(src[..]); out[..|t|] == t && out[|t|] == NUL
  {
    out := new char[size];
    var len := B64.EncodeInto(src, src.Length, out);
    assert src[..src.Length] == src[..];
  }

  /** The answer that a peer must give to a key. */
  method Expected(key: array<char>, ghost k: string) returns (expected: array<char>)
    requires |k| == 24 && NUL !in k && key.Length == 32 && key[..24] == k && key[24] == NUL
    ensures fresh(expected) && expected.Length == 64 && expected[..28] == AcceptOf(k) && expected[28] == NUL
  {
    var shaIn := HashInput(key, k);
    var shaOut := Hash(shaIn);
    expected := Encoded(shaOut, 64);
  }

  /**
   The start of ws_do_handshake, with its buffer sizes: the key decodes to the 16 raw octets, and the answer expected is
   the required one.
   */
  method KeyAndAccept(raw: array<byte>) returns (key: array<char>, expected: array<char>)
    requires raw.Length == 16
    ensures key.Length == 32 && key[..24] == B64.Encode(raw[..]) && key[24] == NUL
    ensures B64.Decode(key[..24]) == Some(raw[..])
    ensures expected.Length == 64 && expected[..28] == AcceptOf(key[..24]) && expected[28] == NUL
  {
    key := Encoded(raw, 32);
    B64.DecodeEncode(raw[..]);
    NoNul(raw[..]);
    expected := Expected(key, B64.Encode(raw[..]));
  }
}
