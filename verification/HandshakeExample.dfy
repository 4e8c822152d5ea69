/** The example of section 1.3 of RFC 6455: the answer to a key, worked out of the definitions. */
module HandshakeExample {
  import opened Bytes
  import opened Sha1Spec
  import opened Sha1Machine
  import opened Handshake
  import B64 = Base64
  import S = Sha1Stream

  const FIRST_0 := Machine(
    0x6447686C, 0x49484E68, 0x62584273, 0x5A534275, 0x6232356A, 0x5A513D3D, 0x32353845, 0x41464135,
    0x2D453931, 0x342D3437, 0x44412D39, 0x3543412D, 0x43354142, 0x30444338, 0x35423131, 0x80000000,
    Hash(0x67452301, 0xEFCDAB89, 0x98BADCFE, 0x10325476, 0xC3D2E1F0))
  const FIRST_5 := Machine(
    0x5A513D3D, 0x32353845, 0x41464135, 0x2D453931, 0x342D3437, 0x44412D39, 0x3543412D, 0x43354142,
    0x30444338, 0x35423131, 0x80000000, 0x363CA02C, 0x24E81236, 0x8856B441, 0x06FB3C92, 0x6FB4BCB6,
    Hash(0xDD8C7C12, 0x53E039AC, 0xEFA43BA3, 0x4BDE4FD5, 0xC0FF0047))
  const FIRST_10 := Machine(
    0x44412D39, 0x3543412D, 0x43354142, 0x30444338, 0x35423131, 0x80000000, 0x363CA02C, 0x24E81236,
    0x8856B441, 0x06FB3C92, 0x6FB4BCB6, 0x460B16E3, 0x599219AE, 0x35BF9369, 0x3267458E, 0xF828FD04,
    Hash(0xFAAD2675, 0x32BEB05A, 0x4B833980, 0x1CD54FA1, 0x5CC82E5A))
  const FIRST_20 := Machine(
    0x6FB4BCB6, 0x460B16E3, 0x599219AE, 0x35BF9369, 0x3267458E, 0xF828FD04, 0x753A96A7, 0x6336F612,
    0xC3D66383, 0x06EB86F9, 0x73B4FD42, 0xA503C5B8, 0x15CDAE35, 0x531E5DC5, 0x6FB6B7D0, 0x6C16E4AC,
    Hash(0x091AB97C, 0x8DC510B6, 0xDFAECA5A, 0x75F6BD5D, 0x2801311A))
  const FIRST_30 := Machine(
    0x73B4FD42, 0xA503C5B8, 0x15CDAE35, 0x531E5DC5, 0x6FB6B7D0, 0x6C16E4AC, 0x4DDD36BD, 0x35D36946,
    0xE8AE8B9C, 0x4A933AD0, 0xCE8628B4, 0x415DBA9E, 0x2792F049, 0x8E9B79E7, 0x79C425C5, 0x6353B49D,
    Hash(0x081B63E5, 0x1ABB1C37, 0x95C7DF60, 0x3BC04BC8, 0x1D22CE68))
  const FIRST_40 := Machine(
    0xCE8628B4, 0x415DBA9E, 0x2792F049, 0x8E9B79E7, 0x79C425C5, 0x6353B49D, 0x00994218, 0x8A950ED1,
    0xAF5D0B99, 0xFD9883DE, 0x1ED8FFEB, 0xF007FF28, 0x425E3674, 0x059631C0, 0xAD6C3C31, 0x860B71D7,
    Hash(0x2BA2C83E, 0xD0869081, 0x1A1D8209, 0xD3334889, 0x2779E4F2))
  const FIRST_50 := Machine(
    0x1ED8FFEB, 0xF007FF28, 0x425E3674, 0x059631C0, 0xAD6C3C31, 0x860B71D7, 0x87BFC548, 0x3E64F92D,
    0x8D0AB761, 0x34E1EE35, 0x0ACF5108, 0xC2B479DA, 0x6C93370A, 0xF7935BA1, 0xE91C91C1, 0xBED165A2,
    Hash(0x065F8486, 0x7510D04F, 0xAAF85D22, 0x37B92DEA, 0x5CBFCCD3))
  const FIRST_60 := Machine(
    0x0ACF5108, 0xC2B479DA, 0x6C93370A, 0xF7935BA1, 0xE91C91C1, 0xBED165A2, 0x4C3E4ABE, 0x50D96238,
    0xB6587DDE, 0x1A2EE6E6, 0x2D335896, 0xF3495D0B, 0xF30E0A1D, 0x32CE5459, 0x7165E3B8, 0xAB05FF94,
    Hash(0x4872D85A, 0xD284F163, 0x83091F0B, 0x1BBDBFBD, 0x9F8490BC))
  const FIRST_70 := Machine(
    0x2D335896, 0xF3495D0B, 0xF30E0A1D, 0x32CE5459, 0x7165E3B8, 0xAB05FF94, 0xC5949F0B, 0xBCD84E4A,
    0x07720392, 0xFF3FF806, 0xD5E93E51, 0xB768A0A3, 0xE87859BC, 0x68368A36, 0xD32E35C1, 0x7B8F5837,
    Hash(0x07381B7E, 0x966E049A, 0x33E1963B, 0x14C4C690, 0xF0F0B916))
  const FIRST_80 := Machine(
    0xD5E93E51, 0xB768A0A3, 0xE87859BC, 0x68368A36, 0xD32E35C1, 0x7B8F5837, 0x62F3B65F, 0xDB2D892B,
    0x581B1F86, 0x98A17A62, 0x0F495849, 0x4FE048DC, 0x12D3A675, 0x6E436C64, 0xFF118681, 0x0352EFF7,
    Hash(0xF48A5426, 0x835995E1, 0x25C11EFB, 0x4A45C402, 0x9A73C2F2))
  const SECOND_0 := Machine(
    0x00000000, 0x00000000, 0x00000000, 0x00000000, 0x00000000, 0x00000000, 0x00000000, 0x00000000,
    0x00000000, 0x00000000, 0x00000000, 0x00000000, 0x00000000, 0x00000000, 0x00000000, 0x000001E0,
    Hash(0x5BCF7727, 0x7327416A, 0xBE7BFBF9, 0x5A781878, 0x5E46A4E2))
  const SECOND_5 := Machine(
    0x00000000, 0x00000000, 0x00000000, 0x00000000, 0x00000000, 0x00000000, 0x00000000, 0x00000000,
    0x00000000, 0x00000000, 0x000001E0, 0x00000000, 0x00000000, 0x000003C0, 0x00000000, 0x00000000,
    Hash(0xE43DD2F2, 0x15855523, 0x7E7ECA57, 0x061801AE, 0x9B4CD737))
  const SECOND_10 := Machine(
    0x00000000, 0x00000000, 0x00000000, 0x00000000, 0x00000000, 0x000001E0, 0x00000000, 0x00000000,
    0x000003C0, 0x00000000, 0x00000000, 0x00000780, 0x00000000, 0x000003C0, 0x00000F00, 0x00000000,
    Hash(0x0B0814C3, 0x80946593, 0x8970062F, 0xACEEF2BF, 0xE4E97BEE))
  const SECOND_20 := Machine(
    0x00000000, 0x00000780, 0x00000000, 0x000003C0, 0x00000F00, 0x00000000, 0x00000000, 0x00001E00,
    0x00000000, 0x00000CC0, 0x00003C00, 0x00000440, 0x00000000, 0x00007800, 0x00000F00, 0x00003300,
    Hash(0x2A008B51, 0x2F193A09, 0x9C8663C1, 0x8EB5D103, 0x261B7C9A))
  const SECOND_30 := Machine(
    0x00003C00, 0x00000440, 0x00000000, 0x00007800, 0x00000F00, 0x00003300, 0x0000F000, 0x00000F00,
    0x00000000, 0x0001EF00, 0x00000000, 0x0000CC00, 0x0003C000, 0x00004380, 0x00000000, 0x00078F00,
    Hash(0x243EE057, 0xF57CB53E, 0xE4C9F7DB, 0xB4B9C9B6, 0x591B19DF))
  const SECOND_40 := Machine(
    0x00000000, 0x0000CC00, 0x0003C000, 0x00004380, 0x00000000, 0x00078F00, 0x0000FF00, 0x00032680,
    0x000F0000, 0x0000F000, 0x00003300, 0x001EFF00, 0x00000000, 0x000CB800, 0x003C0000, 0x00040B00,
    Hash(0x6F698F1A, 0xC6FF0CD3, 0xDE5AB7BC, 0x5F6F3CBB, 0x1DA48A85))
  const SECOND_50 := Machine(
    0x00003300, 0x001EFF00, 0x00000000, 0x000CB800, 0x003C0000, 0x00040B00, 0x0000F000, 0x0078FF00,
    0x000FF000, 0x00338700, 0x00F00000, 0x000FC300, 0x0000F000, 0x01EFBB00, 0x00000000, 0x00CC0000,
    Hash(0xA516F265, 0xA39F2041, 0xA8FBE15F, 0xB23368F6, 0xCEF6480E))
  const SECOND_60 := Machine(
    0x00F00000, 0x000FC300, 0x0000F000, 0x01EFBB00, 0x00000000, 0x00CC0000, 0x03C0F000, 0x00438000,
    0x00000000, 0x078F0000, 0x00FF0000, 0x03269E00, 0x0F000000, 0x00F0F000, 0x00333C00, 0x1EFF8800,
    Hash(0x56119F19, 0x085EB2FE, 0x484A25C5, 0xC140CFE8, 0x686DA050))
  const SECOND_70 := Machine(
    0x00FF0000, 0x03269E00, 0x0F000000, 0x00F0F000, 0x00333C00, 0x1EFF8800, 0x00000000, 0x0CB88800,
    0x3C00F000, 0x040A4A00, 0x00F0F000, 0x78FF0000, 0x0FF30C00, 0x3387F000, 0xF0000000, 0x0FC43400,
    Hash(0xBF3A7F95, 0x4E363DB9, 0x025E9447, 0x325FC65A, 0xC5E88BBD))
  const SECOND_80 := Machine(
    0x00F0F000, 0x78FF0000, 0x0FF30C00, 0x3387F000, 0xF0000000, 0x0FC43400, 0x00F00000, 0xEFB84801,
    0x000FF000, 0xCC00F000, 0xC0F0F003, 0x439E0000, 0x00000000, 0x8F0C0C07, 0xFF3C0000, 0x269A0403,
    Hash(0x57AAD805, 0x4D3B0DAC, 0xD27A4A0D, 0x74C040CD, 0x54782008))

  lemma FirstFrom0(read: nat -> Machine)
    requires Proceeds(read) && read(0) == FIRST_0
    ensures read(5) == FIRST_5
  {
    FiveTo(read, 0, FIRST_0, FIRST_5);
  }

  lemma FirstFrom5(read: nat -> Machine)
    requires Proceeds(read) && read(5) == FIRST_5
    ensures read(10) == FIRST_10
  {
    FiveTo(read, 5, FIRST_5, FIRST_10);
  }

  lemma FirstFrom10(read: nat -> Machine)
    requires Proceeds(read) && read(10) == FIRST_10
    ensures read(20) == FIRST_20
  {
    TenSteps(read, 10, FIRST_10, FIRST_20);
  }

  lemma FirstFrom20(read: nat -> Machine)
    requires Proceeds(read) && read(20) == FIRST_20
    ensures read(30) == FIRST_30
  {
    TenSteps(read, 20, FIRST_20, FIRST_30);
  }

  lemma FirstFrom30(read: nat -> Machine)
    requires Proceeds(read) && read(30) == FIRST_30
    ensures read(40) == FIRST_40
  {
    TenSteps(read, 30, FIRST_30, FIRST_40);
  }

  lemma FirstFrom40(read: nat -> Machine)
    requires Proceeds(read) && read(40) == FIRST_40
    ensures read(50) == FIRST_50
  {
    TenSteps(read, 40, FIRST_40, FIRST_50);
  }

  lemma FirstFrom50(read: nat -> Machine)
    requires Proceeds(read) && read(50) == FIRST_50
    ensures read(60) == FIRST_60
  {
    TenSteps(read, 50, FIRST_50, FIRST_60);
  }

  lemma FirstFrom60(read: nat -> Machine)
    requires Proceeds(read) && read(60) == FIRST_60
    ensures read(70) == FIRST_70
  {
    TenSteps(read, 60, FIRST_60, FIRST_70);
  }

  lemma FirstFrom70(read: nat -> Machine)
    requires Proceeds(read) && read(70) == FIRST_70
    ensures read(80) == FIRST_80
  {
    TenSteps(read, 70, FIRST_70, FIRST_80);
  }

  lemma FirstRounds(h: Hash, block: seq<byte>)
    requires |block| == 64 && ReadBlock(block, h, 0) == FIRST_0
    ensures Rounds(h, block, 80) == FIRST_80.h
  {
    var read := (t: nat) => ReadBlock(block, h, t);
    BlockProceeds(block, h);
    FirstFrom0(read);
    FirstFrom5(read);
    FirstFrom10(read);
    FirstFrom20(read);
    FirstFrom30(read);
    FirstFrom40(read);
    FirstFrom50(read);
    FirstFrom60(read);
    FirstFrom70(read);
    ReadHash(block, h, 80);
  }

  lemma SecondFrom0(read: nat -> Machine)
    requires Proceeds(read) && read(0) == SECOND_0
    ensures read(5) == SECOND_5
  {
    FiveTo(read, 0, SECOND_0, SECOND_5);
  }

  lemma SecondFrom5(read: nat -> Machine)
    requires Proceeds(read) && read(5) == SECOND_5
    ensures read(10) == SECOND_10
  {
    FiveTo(read, 5, SECOND_5, SECOND_10);
  }

  lemma SecondFrom10(read: nat -> Machine)
    requires Proceeds(read) && read(10) == SECOND_10
    ensures read(20) == SECOND_20
  {
    TenSteps(read, 10, SECOND_10, SECOND_20);
  }

  lemma SecondFrom20(read: nat -> Machine)
    requires Proceeds(read) && read(20) == SECOND_20
    ensures read(30) == SECOND_30
  {
    TenSteps(read, 20, SECOND_20, SECOND_30);
  }

  lemma SecondFrom30(read: nat -> Machine)
    requires Proceeds(read) && read(30) == SECOND_30
    ensures read(40) == SECOND_40
  {
    TenSteps(read, 30, SECOND_30, SECOND_40);
  }

  lemma SecondFrom40(read: nat -> Machine)
    requires Proceeds(read) && read(40) == SECOND_40
    ensures read(50) == SECOND_50
  {
    TenSteps(read, 40, SECOND_40, SECOND_50);
  }

  lemma SecondFrom50(read: nat -> Machine)
    requires Proceeds(read) && read(50) == SECOND_50
    ensures read(60) == SECOND_60
  {
    TenSteps(read, 50, SECOND_50, SECOND_60);
  }

  lemma SecondFrom60(read: nat -> Machine)
    requires Proceeds(read) && read(60) == SECOND_60
    ensures read(70) == SECOND_70
  {
    TenSteps(read, 60, SECOND_60, SECOND_70);
  }

  lemma SecondFrom70(read: nat -> Machine)
    requires Proceeds(read) && read(70) == SECOND_70
    ensures read(80) == SECOND_80
  {
    TenSteps(read, 70, SECOND_70, SECOND_80);
  }

  lemma SecondRounds(h: Hash, block: seq<byte>)
    requires |block| == 64 && ReadBlock(block, h, 0) == SECOND_0
    ensures Rounds(h, block, 80) == SECOND_80.h
  {
    var read := (t: nat) => ReadBlock(block, h, t);
    BlockProceeds(block, h);
    SecondFrom0(read);
    SecondFrom5(read);
    SecondFrom10(read);
    SecondFrom20(read);
    SecondFrom30(read);
    SecondFrom40(read);
    SecondFrom50(read);
    SecondFrom60(read);
    SecondFrom70(read);
    ReadHash(block, h, 80);
  }

  const KEY: string := "dGhlIHNhbXBsZSBub25jZQ=="

  lemma KeySlices()
    ensures |KEY| == 24
    ensures KEY[0..4] == "dGhl"
    ensures KEY[4..8] == "IHNh"
    ensures KEY[8..12] == "bXBs"
    ensures KEY[12..16] == "ZSBu"
    ensures KEY[16..20] == "b25j"
    ensures KEY[20..24] == "ZQ=="
  {
  }

  lemma HeadSlices()
    ensures |GUID_HEAD| == 20
    ensures GUID_HEAD[0..4] == "258E"
    ensures GUID_HEAD[4..8] == "AFA5"
    ensures GUID_HEAD[8..12] == "-E91"
    ensures GUID_HEAD[12..16] == "4-47"
    ensures GUID_HEAD[16..20] == "DA-9"
  {
  }

  lemma TailSlices()
    ensures |GUID_TAIL| == 16
    ensures GUID_TAIL[0..4] == "5CA-"
    ensures GUID_TAIL[4..8] == "C5AB"
    ensures GUID_TAIL[8..12] == "0DC8"
    ensures GUID_TAIL[12..16] == "5B11"
  {
  }

  /** Where the parts of the text stand. */
  lemma PartsOf(text: string, i: nat)
    requires text == KEY + GUID && |KEY| == 24 && |GUID_HEAD| == 20 && |GUID_TAIL| == 16
    ensures |text| == 60
    ensures i + 4 <= 24 ==> text[i..i + 4] == KEY[i..i + 4]
    ensures i + 4 <= 20 ==> text[24 + i..24 + i + 4] == GUID_HEAD[i..i + 4]
    ensures i + 4 <= 16 ==> text[44 + i..44 + i + 4] == GUID_TAIL[i..i + 4]
  {
  }

  lemma CharByte(block: seq<byte>, text: string, i: nat, c: char, b: byte)
    requires |block| == 64 && |text| == 60 && i < 60 && block[..60] == Ascii(text)
    requires text[i] == c && c as int == b as int
    ensures block[i] == b
  {
    AsciiByte(text, i, b);
    assert block[i] == block[..60][i];
  }

  /** A word of a block, from four characters of the text at its start. */
  lemma ChunkWord(block: seq<byte>, text: string, t: nat, chunk: string, b0: byte, b1: byte, b2: byte, b3: byte,
                  w: word)
    requires |block| == 64 && |text| == 60 && t < 15 && block[..60] == Ascii(text)
    requires |chunk| == 4 && text[4 * t..4 * t + 4] == chunk && w == Word(b0, b1, b2, b3)
    requires chunk[0] as int == b0 as int && chunk[1] as int == b1 as int
    requires chunk[2] as int == b2 as int && chunk[3] as int == b3 as int
    ensures WordAt(block, t) == w
  {
    CharByte(block, text, 4 * t, chunk[0], b0);
    CharByte(block, text, 4 * t + 1, chunk[1], b1);
    CharByte(block, text, 4 * t + 2, chunk[2], b2);
    CharByte(block, text, 4 * t + 3, chunk[3], b3);
  }

  lemma KeyWords(block: seq<byte>, text: string)
    requires |block| == 64 && text == KEY + GUID && |text| == 60 && block[..60] == Ascii(text)
    ensures WordAt(block, 0) == 0x6447686C && WordAt(block, 1) == 0x49484E68 && WordAt(block, 2) == 0x62584273
    ensures WordAt(block, 3) == 0x5A534275 && WordAt(block, 4) == 0x6232356A && WordAt(block, 5) == 0x5A513D3D
  {
    KeySlices();
    HeadSlices();
    TailSlices();
    PartsOf(text, 0);
    PartsOf(text, 4);
    PartsOf(text, 8);
    PartsOf(text, 12);
    PartsOf(text, 16);
    PartsOf(text, 20);
    ChunkWord(block, text, 0, "dGhl", 0x64, 0x47, 0x68, 0x6c, 0x6447686C);
    ChunkWord(block, text, 1, "IHNh", 0x49, 0x48, 0x4e, 0x68, 0x49484E68);
    ChunkWord(block, text, 2, "bXBs", 0x62, 0x58, 0x42, 0x73, 0x62584273);
    ChunkWord(block, text, 3, "ZSBu", 0x5a, 0x53, 0x42, 0x75, 0x5A534275);
    ChunkWord(block, text, 4, "b25j", 0x62, 0x32, 0x35, 0x6a, 0x6232356A);
    ChunkWord(block, text, 5, "ZQ==", 0x5a, 0x51, 0x3d, 0x3d, 0x5A513D3D);
  }

  lemma HeadWords(block: seq<byte>, text: string)
    requires |block| == 64 && text == KEY + GUID && |text| == 60 && block[..60] == Ascii(text)
    ensures WordAt(block, 6) == 0x32353845 && WordAt(block, 7) == 0x41464135 && WordAt(block, 8) == 0x2D453931
    ensures WordAt(block, 9) == 0x342D3437 && WordAt(block, 10) == 0x44412D39
  {
    KeySlices();
    HeadSlices();
    TailSlices();
    PartsOf(text, 0);
    PartsOf(text, 4);
    PartsOf(text, 8);
    PartsOf(text, 12);
    PartsOf(text, 16);
    ChunkWord(block, text, 6, "258E", 0x32, 0x35, 0x38, 0x45, 0x32353845);
    ChunkWord(block, text, 7, "AFA5", 0x41, 0x46, 0x41, 0x35, 0x41464135);
    ChunkWord(block, text, 8, "-E91", 0x2d, 0x45, 0x39, 0x31, 0x2D453931);
    ChunkWord(block, text, 9, "4-47", 0x34, 0x2d, 0x34, 0x37, 0x342D3437);
    ChunkWord(block, text, 10, "DA-9", 0x44, 0x41, 0x2d, 0x39, 0x44412D39);
  }

  lemma TailWords(block: seq<byte>, text: string)
    requires |block| == 64 && text == KEY + GUID && |text| == 60 && block[..60] == Ascii(text)
    ensures WordAt(block, 11) == 0x3543412D && WordAt(block, 12) == 0x43354142 && WordAt(block, 13) == 0x30444338
    ensures WordAt(block, 14) == 0x35423131
  {
    KeySlices();
    HeadSlices();
    TailSlices();
    PartsOf(text, 0);
    PartsOf(text, 4);
    PartsOf(text, 8);
    PartsOf(text, 12);
    ChunkWord(block, text, 11, "5CA-", 0x35, 0x43, 0x41, 0x2d, 0x3543412D);
    ChunkWord(block, text, 12, "C5AB", 0x43, 0x35, 0x41, 0x42, 0x43354142);
    ChunkWord(block, text, 13, "0DC8", 0x30, 0x44, 0x43, 0x38, 0x30444338);
    ChunkWord(block, text, 14, "5B11", 0x35, 0x42, 0x31, 0x31, 0x35423131);
  }

  lemma FirstLoads(block: seq<byte>, text: string)
    requires |block| == 64 && text == KEY + GUID && |text| == 60 && block[..60] == Ascii(text)
    requires block[60] == 0x80 && block[61] == 0 && block[62] == 0 && block[63] == 0
    ensures ReadBlock(block, INITIAL, 0) == FIRST_0
  {
    KeyWords(block, text);
    HeadWords(block, text);
    TailWords(block, text);
    LastWord(block);
    ReadWords(block, INITIAL, FIRST_0);
  }

  lemma LastWord(block: seq<byte>)
    requires |block| == 64 && block[60] == 0x80 && block[61] == 0 && block[62] == 0 && block[63] == 0
    ensures WordAt(block, 15) == 0x80000000
  {
  }

  lemma Compressed(h: Hash, r: Hash, block: seq<byte>)
    requires |block| == 64 && Rounds(h, block, 80) == r
    ensures Compress(h, block) == Hash(Add(h.a, r.a), Add(h.b, r.b), Add(h.c, r.c), Add(h.d, r.d), Add(h.e, r.e))
  {
  }

  lemma FirstBlock(block: seq<byte>, text: string)
    requires |block| == 64 && text == KEY + GUID && |text| == 60 && block[..60] == Ascii(text)
    requires block[60] == 0x80 && block[61] == 0 && block[62] == 0 && block[63] == 0
    ensures Compress(INITIAL, block) == SECOND_0.h
  {
    FirstLoads(block, text);
    FirstRounds(INITIAL, block);
    Compressed(INITIAL, FIRST_80.h, block);
  }

  lemma SecondBlock(block: seq<byte>)
    requires |block| == 64 && (forall i :: 0 <= i < 62 ==> block[i] == 0) && block[62] == 0x01 && block[63] == 0xe0
    ensures Compress(SECOND_0.h, block) == Hash(0xB37A4F2C, 0xC0624F16, 0x90F64606, 0xCF385945, 0xB2BEC4EA)
  {
    SecondWords(block);
    ReadSparse(block, SECOND_0.h, 0, 0x1e0);
    SecondRounds(SECOND_0.h, block);
    Compressed(SECOND_0.h, SECOND_80.h, block);
  }

  lemma SecondWords(block: seq<byte>)
    requires |block| == 64 && (forall i :: 0 <= i < 62 ==> block[i] == 0) && block[62] == 0x01 && block[63] == 0xe0
    ensures WordAt(block, 0) == 0 && WordAt(block, 15) == 0x1e0
  {
  }

  lemma TextPad(m: seq<byte>)
    requires |m| == 60 && 8 * |m| < Pow256(8)
    ensures var p := Pad(m);
      && |p| == 128 && p[..60] == m && p[60] == 0x80 && (forall i :: 60 < i < 126 ==> p[i] == 0)
      && p[126] == 0x01 && p[127] == 0xe0
  {
    PadShort(m, 1, 224, 0x01, 0xe0, 59, 6);
    PadLayout(m, 65, 0x01, 0xe0, Pad(m));
  }

  lemma TextChain(text: string)
    requires text == KEY + GUID && |text| == 60 && 8 * 60 < Pow256(8)
    ensures |Pad(Ascii(text))| == 128
    ensures Chain(Pad(Ascii(text)), 2) == Hash(0xB37A4F2C, 0xC0624F16, 0x90F64606, 0xCF385945, 0xB2BEC4EA)
  {
    var p := Pad(Ascii(text));
    TextPad(Ascii(text));
    assert p[0..64][..60] == p[..60];
    FirstBlock(p[0..64], text);
    SecondBlock(p[64..128]);
    TwoBlocks(p);
  }

  lemma TwoBlocks(p: seq<byte>)
    requires |p| == 128
    ensures Chain(p, 2) == Compress(Compress(INITIAL, p[0..64]), p[64..128])
  {
    assert Chain(p, 1) == Compress(Chain(p, 0), p[0..64]);
  }

  lemma LetterIs(v: byte, c: char)
    requires v < 64 && c as int == B64.Code(v as int)
    ensures B64.Letter(v) == c
  {
    B64.AlphabetCodes(v as int);
  }

  lemma GroupIs(a: byte, b: byte, c: byte, v: byte, w: byte, x: byte, y: byte, t: string)
    requires v == B64.First(a) && w == B64.Second(a, b) && x == B64.Third(b, c) && y == B64.Fourth(c) && |t| == 4
    requires t[0] as int == B64.Code(v as int) && t[1] as int == B64.Code(w as int)
    requires t[2] as int == B64.Code(x as int) && t[3] as int == B64.Code(y as int)
    ensures B64.Group(a, b, c) == t
  {
    LetterIs(v, t[0]);
    LetterIs(w, t[1]);
    LetterIs(x, t[2]);
    LetterIs(y, t[3]);
  }

  lemma EncodeMore(a: byte, b: byte, c: byte, rest: seq<byte>, t: string, u: string)
    requires B64.Group(a, b, c) == t && B64.Encode(rest) == u
    ensures B64.Encode([a, b, c] + rest) == t + u
  {
    var s := [a, b, c] + rest;
    assert s[0] == a && s[1] == b && s[2] == c && s[3..] == rest;
  }

  lemma LastGroup()
    ensures B64.Encode([0xc4, 0xea]) == "xOo="
  {
    LetterIs(49, 'x');
    LetterIs(14, 'O');
    LetterIs(40, 'o');
  }

  lemma Groups()
    ensures B64.Group(0xb3, 0x7a, 0x4f) == "s3pP"
    ensures B64.Group(0x2c, 0xc0, 0x62) == "LMBi"
    ensures B64.Group(0x4f, 0x16, 0x90) == "TxaQ"
    ensures B64.Group(0xf6, 0x46, 0x06) == "9kYG"
    ensures B64.Group(0xcf, 0x38, 0x59) == "zzhZ"
    ensures B64.Group(0x45, 0xb2, 0xbe) == "RbK+"
  {
    GroupIs(0x45, 0xb2, 0xbe, 17, 27, 10, 62, "RbK+");
    GroupIs(0xcf, 0x38, 0x59, 51, 51, 33, 25, "zzhZ");
    GroupIs(0xf6, 0x46, 0x06, 61, 36, 24, 6, "9kYG");
    GroupIs(0x4f, 0x16, 0x90, 19, 49, 26, 16, "TxaQ");
    GroupIs(0x2c, 0xc0, 0x62, 11, 12, 1, 34, "LMBi");
    GroupIs(0xb3, 0x7a, 0x4f, 44, 55, 41, 15, "s3pP");
  }

  // The octets of the answer and its letters, three and four at a time, from the back.

  const OCTETS_6: seq<byte> := [0xc4, 0xea]
  const LETTERS_6: string := "xOo="
  const OCTETS_5: seq<byte> := [0x45, 0xb2, 0xbe] + OCTETS_6
  const LETTERS_5: string := "RbK+" + LETTERS_6
  const OCTETS_4: seq<byte> := [0xcf, 0x38, 0x59] + OCTETS_5
  const LETTERS_4: string := "zzhZ" + LETTERS_5
  const OCTETS_3: seq<byte> := [0xf6, 0x46, 0x06] + OCTETS_4
  const LETTERS_3: string := "9kYG" + LETTERS_4
  const OCTETS_2: seq<byte> := [0x4f, 0x16, 0x90] + OCTETS_3
  const LETTERS_2: string := "TxaQ" + LETTERS_3
  const OCTETS_1: seq<byte> := [0x2c, 0xc0, 0x62] + OCTETS_2
  const LETTERS_1: string := "LMBi" + LETTERS_2
  const OCTETS_0: seq<byte> := [0xb3, 0x7a, 0x4f] + OCTETS_1
  const LETTERS_0: string := "s3pP" + LETTERS_1

  lemma EncodeAnswer()
    ensures B64.Encode(OCTETS_0) == LETTERS_0
  {
    LastGroup();
    Groups();
    EncodeMore(0x45, 0xb2, 0xbe, OCTETS_6, "RbK+", LETTERS_6);
    EncodeMore(0xcf, 0x38, 0x59, OCTETS_5, "zzhZ", LETTERS_5);
    EncodeMore(0xf6, 0x46, 0x06, OCTETS_4, "9kYG", LETTERS_4);
    EncodeMore(0x4f, 0x16, 0x90, OCTETS_3, "TxaQ", LETTERS_3);
    EncodeMore(0x2c, 0xc0, 0x62, OCTETS_2, "LMBi", LETTERS_2);
    EncodeMore(0xb3, 0x7a, 0x4f, OCTETS_1, "s3pP", LETTERS_1);
  }

  lemma JoinOctets()
    ensures OCTETS_0 == [0xb3, 0x7a, 0x4f, 0x2c] + [0xc0, 0x62, 0x4f, 0x16] + [0x90, 0xf6, 0x46, 0x06]
                     + [0xcf, 0x38, 0x59, 0x45] + [0xb2, 0xbe, 0xc4, 0xea]
  {
  }

  lemma JoinLetters()
    ensures LETTERS_0 == "s3pPLMBiTxaQ9k" + "YGzzhZRbK+xOo="
  {
  }

  lemma AnswerOctets(h: Hash)
    requires h == Hash(0xB37A4F2C, 0xC0624F16, 0x90F64606, 0xCF385945, 0xB2BEC4EA)
    ensures HashOctets(h) == [0xb3, 0x7a, 0x4f, 0x2c] + [0xc0, 0x62, 0x4f, 0x16] + [0x90, 0xf6, 0x46, 0x06]
                          + [0xcf, 0x38, 0x59, 0x45] + [0xb2, 0xbe, 0xc4, 0xea]
  {
    HashOctetsByWord(h);
  }

  /** The answer to the key of the example. */
  lemma AcceptExample()
    ensures |KEY| == 24 && AcceptOf(KEY) == "s3pPLMBiTxaQ9k" + "YGzzhZRbK+xOo="
  {
    KeySlices();
    GuidSize();
    SmallEnough();
    var text := KEY + GUID;
    TextChain(text);
    AnswerOctets(Chain(Pad(Ascii(text)), 2));
    EncodeAnswer();
    JoinOctets();
    JoinLetters();
  }
}
