/** The published digest of "abc", worked out of the definition. */
module Sha1Abc {
  import opened Bytes
  import opened Sha1Spec
  import opened Sha1Machine

  const ABC_0 := Machine(
    0x61626380, 0x00000000, 0x00000000, 0x00000000, 0x00000000, 0x00000000, 0x00000000, 0x00000000,
    0x00000000, 0x00000000, 0x00000000, 0x00000000, 0x00000000, 0x00000000, 0x00000000, 0x00000018,
    Hash(0x67452301, 0xEFCDAB89, 0x98BADCFE, 0x10325476, 0xC3D2E1F0))
  const ABC_5 := Machine(
    0x00000000, 0x00000000, 0x00000000, 0x00000000, 0x00000000, 0x00000000, 0x00000000, 0x00000000,
    0x00000000, 0x00000000, 0x00000018, 0xC2C4C700, 0x00000000, 0x00000030, 0x85898E01, 0x00000000,
    Hash(0xCFD499DE, 0xCDD8E11B, 0x284E43C2, 0x626414DB, 0xC045BF0C))
  const ABC_10 := Machine(
    0x00000000, 0x00000000, 0x00000000, 0x00000000, 0x00000000, 0x00000018, 0xC2C4C700, 0x00000000,
    0x00000030, 0x85898E01, 0x00000000, 0x00000060, 0x0B131C03, 0x00000030, 0x85898EC1, 0x16263806,
    Hash(0x8351F929, 0x4B6AE328, 0x27A301F5, 0x664F8C30, 0x0FF1F290))
  const ABC_20 := Machine(
    0x00000000, 0x00000060, 0x0B131C03, 0x00000030, 0x85898EC1, 0x16263806, 0x00000000, 0x00000180,
    0x2C4C700C, 0x000000F0, 0x93AFB507, 0x5898E048, 0x8E9A9202, 0x00000600, 0xB131C0F0, 0x16263BC6,
    Hash(0xFD9E1D7D, 0xDC64901D, 0x20AA99CA, 0xD3A49608, 0xC82F758B))
  const ABC_30 := Machine(
    0x93AFB507, 0x5898E048, 0x8E9A9202, 0x00000600, 0xB131C0F0, 0x16263BC6, 0x4EBED41E, 0x626380A1,
    0x16263806, 0x000018C0, 0xD2E138C4, 0x00000F00, 0x3AFB5079, 0x898E04E5, 0xE2BA3C2B, 0x000060C0,
    Hash(0xC5FBAF5D, 0x8370B52E, 0xD2AA1365, 0x6F8D7EF5, 0x12104EE9))
  const ABC_40 := Machine(
    0xD2E138C4, 0x00000F00, 0x3AFB5079, 0x898E04E5, 0xE2BA3C2B, 0x000060C0, 0x053A37CD, 0x74458547,
    0xDA9415ED, 0x26380A16, 0x626383A1, 0x4EBF54DE, 0x3835B44B, 0x0000F600, 0x1E84C7A3, 0x98E04D98,
    Hash(0x32DE1CBA, 0x4C986405, 0xF718E5CF, 0x03D447F6, 0xF72EEC32))
  const ABC_50 := Machine(
    0x626383A1, 0x4EBF54DE, 0x3835B44B, 0x0000F600, 0x1E84C7A3, 0x98E04D98, 0x651D16A0, 0x62658CA1,
    0x458544D6, 0x44584CB7, 0x7BA06619, 0x6380AEA2, 0x0AE55269, 0x627B49A1, 0x7CD45C9D, 0x000F0000,
    Hash(0x120731C5, 0xBAF39337, 0xAFAB40B2, 0x2806E11B, 0x8714787C))
  const ABC_60 := Machine(
    0x7BA06619, 0x6380AEA2, 0x0AE55269, 0x627B49A1, 0x7CD45C9D, 0x000F0000, 0xFB50753A, 0xEC6765E8,
    0xBA3C2BE2, 0x0060C000, 0x3A37CD05, 0x458546F4, 0xB8599DD6, 0x380A1A26, 0x01E02203, 0xE7CC3456,
    Hash(0x3F52DE5A, 0x09D785FD, 0x3498BFD4, 0xF211824F, 0xD79915AB))
  const ABC_70 := Machine(
    0x3A37CD05, 0x458546F4, 0xB8599DD6, 0x380A1A26, 0x01E02203, 0xE7CC3456, 0xE6E60B69, 0x00F60A00,
    0x5795EF4F, 0x822E0879, 0x7E577CE2, 0x07EF2103, 0x8544E945, 0xEB39DAB8, 0xC205991A, 0x80AECB63,
    Hash(0x3F2588C2, 0x497093C0, 0xDE37534A, 0x030F7CAD, 0x4405957E))
  const ABC_80 := Machine(
    0x7E577CE2, 0x07EF2103, 0x8544E945, 0xEB39DAB8, 0xC205991A, 0x80AECB63, 0x7D84CA48, 0x7B499B62,
    0x8E8010A8, 0x4B5B8A77, 0x3216B69A, 0x0507E88D, 0x705BEE96, 0x60C0FF00, 0xA28362D0, 0x1DA6B91D,
    Hash(0x42541B35, 0x5738D5E1, 0x21834873, 0x681E6DF6, 0xD8FDF6AD))

  lemma AbcFrom0(read: nat -> Machine)
    requires Proceeds(read) && read(0) == ABC_0
    ensures read(5) == ABC_5
  {
    FiveTo(read, 0, ABC_0, ABC_5);
  }

  lemma AbcFrom5(read: nat -> Machine)
    requires Proceeds(read) && read(5) == ABC_5
    ensures read(10) == ABC_10
  {
    FiveTo(read, 5, ABC_5, ABC_10);
  }

  lemma AbcFrom10(read: nat -> Machine)
    requires Proceeds(read) && read(10) == ABC_10
    ensures read(20) == ABC_20
  {
    TenSteps(read, 10, ABC_10, ABC_20);
  }

  lemma AbcFrom20(read: nat -> Machine)
    requires Proceeds(read) && read(20) == ABC_20
    ensures read(30) == ABC_30
  {
    TenSteps(read, 20, ABC_20, ABC_30);
  }

  lemma AbcFrom30(read: nat -> Machine)
    requires Proceeds(read) && read(30) == ABC_30
    ensures read(40) == ABC_40
  {
    TenSteps(read, 30, ABC_30, ABC_40);
  }

  lemma AbcFrom40(read: nat -> Machine)
    requires Proceeds(read) && read(40) == ABC_40
    ensures read(50) == ABC_50
  {
    TenSteps(read, 40, ABC_40, ABC_50);
  }

  lemma AbcFrom50(read: nat -> Machine)
    requires Proceeds(read) && read(50) == ABC_50
    ensures read(60) == ABC_60
  {
    TenSteps(read, 50, ABC_50, ABC_60);
  }

  lemma AbcFrom60(read: nat -> Machine)
    requires Proceeds(read) && read(60) == ABC_60
    ensures read(70) == ABC_70
  {
    TenSteps(read, 60, ABC_60, ABC_70);
  }

  lemma AbcFrom70(read: nat -> Machine)
    requires Proceeds(read) && read(70) == ABC_70
    ensures read(80) == ABC_80
  {
    TenSteps(read, 70, ABC_70, ABC_80);
  }

  lemma AbcRounds(h: Hash, block: seq<byte>)
    requires |block| == 64 && ReadBlock(block, h, 0) == ABC_0
    ensures Rounds(h, block, 80) == ABC_80.h
  {
    var read := (t: nat) => ReadBlock(block, h, t);
    BlockProceeds(block, h);
    AbcFrom0(read);
    AbcFrom5(read);
    AbcFrom10(read);
    AbcFrom20(read);
    AbcFrom30(read);
    AbcFrom40(read);
    AbcFrom50(read);
    AbcFrom60(read);
    AbcFrom70(read);
    ReadHash(block, h, 80);
  }

  /** The padded message: one block of three letters, the one bit and the length, 24 bits. */
  lemma AbcPad(m: seq<byte>)
    requires m == [0x61, 0x62, 0x63] && 8 * |m| < Pow256(8)
    ensures var p := Pad(m);
      && |p| == 64 && p[0] == 0x61 && p[1] == 0x62 && p[2] == 0x63 && p[3] == 0x80
      && (forall i :: 4 <= i < 63 ==> p[i] == 0) && p[63] == 24
  {
    PadShort(m, 0, 24, 0, 24, 52, 6);
    PadLayout(m, 58, 0, 24, Pad(m));
    assert Pad(m)[..3] == m;
  }

  lemma AbcChain(m: seq<byte>)
    requires m == [0x61, 0x62, 0x63] && 8 * |m| < Pow256(8)
    ensures |Pad(m)| == 64 && Chain(Pad(m), 1) == Hash(0xA9993E36, 0x4706816A, 0xBA3E2571, 0x7850C26C, 0x9CD0D89D)
  {
    var p := Pad(m);
    AbcPad(m);
    assert p[0..64] == p;
    AbcWords(p);
    ReadSparse(p, INITIAL, 0x61626380, 24);
    AbcRounds(INITIAL, p);
  }

  lemma AbcWords(p: seq<byte>)
    requires |p| == 64 && p[0] == 0x61 && p[1] == 0x62 && p[2] == 0x63 && p[3] == 0x80
    requires p[60] == 0 && p[61] == 0 && p[62] == 0 && p[63] == 24
    ensures WordAt(p, 0) == 0x61626380 && WordAt(p, 15) == 24
  {
  }

  lemma AbcOctets()
    ensures HashOctets(Hash(0xA9993E36, 0x4706816A, 0xBA3E2571, 0x7850C26C, 0x9CD0D89D))
         == [0xa9, 0x99, 0x3e, 0x36] + [0x47, 0x06, 0x81, 0x6a] + [0xba, 0x3e, 0x25, 0x71]
          + [0x78, 0x50, 0xc2, 0x6c] + [0x9c, 0xd0, 0xd8, 0x9d]
  {
    HashOctetsByWord(Hash(0xA9993E36, 0x4706816A, 0xBA3E2571, 0x7850C26C, 0x9CD0D89D));
  }

  /** The first example that is published with the standard. */
  lemma AbcDigest()
    ensures 8 * |Ascii("abc")| < Pow256(8)
    ensures Digest(Ascii("abc"))
         == [0xa9, 0x99, 0x3e, 0x36] + [0x47, 0x06, 0x81, 0x6a] + [0xba, 0x3e, 0x25, 0x71]
          + [0x78, 0x50, 0xc2, 0x6c] + [0x9c, 0xd0, 0xd8, 0x9d]
  {
    var m := Ascii("abc");
    assert Pow256(8) > 24 by { Pow256Grows(8); }
    AbcAscii();
    AbcChain(m);
    AbcOctets();
  }

  lemma {:induction false} Pow256Grows(k: nat)
    ensures k > 0 ==> Pow256(k) >= 256
  {
    if k > 1 { Pow256Grows(k - 1); }
  }

  lemma AbcAscii()
    ensures Ascii("abc") == [0x61, 0x62, 0x63]
  {
    var s := "abc";
    AsciiByte(s, 0, 0x61);
    AsciiByte(s, 1, 0x62);
    AsciiByte(s, 2, 0x63);
  }
}
