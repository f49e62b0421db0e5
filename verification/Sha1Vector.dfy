/** The message `abc` of Appendix A of FIPS 180-1, the first of the code's own tests, round by round. */
module Sha1Vector {
  import opened Bytes
  import opened Sha1

  const ABC: seq<byte> := [97, 98, 99]

  function Block(): (b: seq<byte>)
    ensures |b| == 64
  {
    ABC + [0x80] + Zeros(52) + [0, 0, 0, 0, 0, 0, 0, 24]
  }

  lemma OneBlock()
    ensures ABC + Padding(3) == Block()
  {
    BigEndianSplit(24, 4, 4);
    FourDigits(24);
    Shifts(24);
    FourDigits(0);
    assert BigEndian(24, 8) == [0, 0, 0, 0, 0, 0, 0, 24];
  }

  lemma ZeroWord(b: seq<byte>, i: nat)
    requires i + 4 <= |b| && b[i] == b[i + 1] == b[i + 2] == b[i + 3] == 0
    ensures WordAt(b, i) == 0
  {
  }

  lemma FirstWord(b: seq<byte>)
    requires |b| >= 4 && b[0] == 97 && b[1] == 98 && b[2] == 99 && b[3] == 0x80
    ensures WordAt(b, 0) == 0x61626380
  {
    assert b[0] as Word == 0x61 && b[1] as Word == 0x62 && b[2] as Word == 0x63 && b[3] as Word == 0x80;
  }

  lemma LastWord(b: seq<byte>)
    requires |b| == 64 && b[60] == b[61] == b[62] == 0 && b[63] == 24
    ensures WordAt(b, 60) == 24
  {
  }

  lemma Loaded()
    ensures W(Block(), 0) == 0x61626380 && W(Block(), 15) == 24
    ensures forall t :: 1 <= t < 15 ==> W(Block(), t) == 0
  {
    hide WordAt;
    var b := Block();
    FirstWord(b);
    LastWord(b);
    forall t | 1 <= t < 15 ensures W(b, t) == 0 {
      ZeroWord(b, 4 * t);
    }
  }

  // ----- the words of the schedule -----

  lemma Mixes16()
    ensures Mix(0x00000000, 0x00000000, 0x00000000, 0x61626380) == 0xC2C4C700
    ensures Mix(0x00000000, 0x00000000, 0x00000000, 0x00000000) == 0x00000000
    ensures Mix(0x00000018, 0x00000000, 0x00000000, 0x00000000) == 0x00000030
    ensures Mix(0xC2C4C700, 0x00000000, 0x00000000, 0x00000000) == 0x85898E01
    ensures Mix(0x00000000, 0x00000000, 0x00000000, 0x00000000) == 0x00000000
    ensures Mix(0x00000030, 0x00000000, 0x00000000, 0x00000000) == 0x00000060
    ensures Mix(0x85898E01, 0x00000000, 0x00000000, 0x00000000) == 0x0B131C03
    ensures Mix(0x00000000, 0x00000018, 0x00000000, 0x00000000) == 0x00000030
  {
  }

  lemma Mixes24()
    ensures Mix(0x00000060, 0xC2C4C700, 0x00000000, 0x00000000) == 0x85898EC1
    ensures Mix(0x0B131C03, 0x00000000, 0x00000000, 0x00000000) == 0x16263806
    ensures Mix(0x00000030, 0x00000030, 0x00000000, 0x00000000) == 0x00000000
    ensures Mix(0x85898EC1, 0x85898E01, 0x00000000, 0x00000000) == 0x00000180
    ensures Mix(0x16263806, 0x00000000, 0x00000000, 0x00000000) == 0x2C4C700C
    ensures Mix(0x00000000, 0x00000060, 0x00000018, 0x00000000) == 0x000000F0
    ensures Mix(0x00000180, 0x0B131C03, 0xC2C4C700, 0x00000000) == 0x93AFB507
    ensures Mix(0x2C4C700C, 0x00000030, 0x00000000, 0x00000018) == 0x5898E048
  {
  }

  lemma Mixes32()
    ensures Mix(0x000000F0, 0x85898EC1, 0x00000030, 0xC2C4C700) == 0x8E9A9202
    ensures Mix(0x93AFB507, 0x16263806, 0x85898E01, 0x00000000) == 0x00000600
    ensures Mix(0x5898E048, 0x00000000, 0x00000000, 0x00000030) == 0xB131C0F0
    ensures Mix(0x8E9A9202, 0x00000180, 0x00000060, 0x85898E01) == 0x16263BC6
    ensures Mix(0x00000600, 0x2C4C700C, 0x0B131C03, 0x00000000) == 0x4EBED41E
    ensures Mix(0xB131C0F0, 0x000000F0, 0x00000030, 0x00000060) == 0x626380A1
    ensures Mix(0x16263BC6, 0x93AFB507, 0x85898EC1, 0x0B131C03) == 0x16263806
    ensures Mix(0x4EBED41E, 0x5898E048, 0x16263806, 0x00000030) == 0x000018C0
  {
  }

  lemma Mixes40()
    ensures Mix(0x626380A1, 0x8E9A9202, 0x00000000, 0x85898EC1) == 0xD2E138C4
    ensures Mix(0x16263806, 0x00000600, 0x00000180, 0x16263806) == 0x00000F00
    ensures Mix(0x000018C0, 0xB131C0F0, 0x2C4C700C, 0x00000000) == 0x3AFB5079
    ensures Mix(0xD2E138C4, 0x16263BC6, 0x000000F0, 0x00000180) == 0x898E04E5
    ensures Mix(0x00000F00, 0x4EBED41E, 0x93AFB507, 0x2C4C700C) == 0xE2BA3C2B
    ensures Mix(0x3AFB5079, 0x626380A1, 0x5898E048, 0x000000F0) == 0x000060C0
    ensures Mix(0x898E04E5, 0x16263806, 0x8E9A9202, 0x93AFB507) == 0x053A37CD
    ensures Mix(0xE2BA3C2B, 0x000018C0, 0x00000600, 0x5898E048) == 0x74458547
  {
  }

  lemma Mixes48()
    ensures Mix(0x000060C0, 0xD2E138C4, 0xB131C0F0, 0x8E9A9202) == 0xDA9415ED
    ensures Mix(0x053A37CD, 0x00000F00, 0x16263BC6, 0x00000600) == 0x26380A16
    ensures Mix(0x74458547, 0x3AFB5079, 0x4EBED41E, 0xB131C0F0) == 0x626383A1
    ensures Mix(0xDA9415ED, 0x898E04E5, 0x626380A1, 0x16263BC6) == 0x4EBF54DE
    ensures Mix(0x26380A16, 0xE2BA3C2B, 0x16263806, 0x4EBED41E) == 0x3835B44B
    ensures Mix(0x626383A1, 0x000060C0, 0x000018C0, 0x626380A1) == 0x0000F600
    ensures Mix(0x4EBF54DE, 0x053A37CD, 0xD2E138C4, 0x16263806) == 0x1E84C7A3
    ensures Mix(0x3835B44B, 0x74458547, 0x00000F00, 0x000018C0) == 0x98E04D98
  {
  }

  lemma Mixes56()
    ensures Mix(0x0000F600, 0xDA9415ED, 0x3AFB5079, 0xD2E138C4) == 0x651D16A0
    ensures Mix(0x1E84C7A3, 0x26380A16, 0x898E04E5, 0x00000F00) == 0x62658CA1
    ensures Mix(0x98E04D98, 0x626383A1, 0xE2BA3C2B, 0x3AFB5079) == 0x458544D6
    ensures Mix(0x651D16A0, 0x4EBF54DE, 0x000060C0, 0x898E04E5) == 0x44584CB7
    ensures Mix(0x62658CA1, 0x3835B44B, 0x053A37CD, 0xE2BA3C2B) == 0x7BA06619
    ensures Mix(0x458544D6, 0x0000F600, 0x74458547, 0x000060C0) == 0x6380AEA2
    ensures Mix(0x44584CB7, 0x1E84C7A3, 0xDA9415ED, 0x053A37CD) == 0x0AE55269
    ensures Mix(0x7BA06619, 0x98E04D98, 0x26380A16, 0x74458547) == 0x627B49A1
  {
  }

  lemma Mixes64()
    ensures Mix(0x6380AEA2, 0x651D16A0, 0x626383A1, 0xDA9415ED) == 0x7CD45C9D
    ensures Mix(0x0AE55269, 0x62658CA1, 0x4EBF54DE, 0x26380A16) == 0x000F0000
    ensures Mix(0x627B49A1, 0x458544D6, 0x3835B44B, 0x626383A1) == 0xFB50753A
    ensures Mix(0x7CD45C9D, 0x44584CB7, 0x0000F600, 0x4EBF54DE) == 0xEC6765E8
    ensures Mix(0x000F0000, 0x7BA06619, 0x1E84C7A3, 0x3835B44B) == 0xBA3C2BE2
    ensures Mix(0xFB50753A, 0x6380AEA2, 0x98E04D98, 0x0000F600) == 0x0060C000
    ensures Mix(0xEC6765E8, 0x0AE55269, 0x651D16A0, 0x1E84C7A3) == 0x3A37CD05
    ensures Mix(0xBA3C2BE2, 0x627B49A1, 0x62658CA1, 0x98E04D98) == 0x458546F4
  {
  }

  lemma Mixes72()
    ensures Mix(0x0060C000, 0x7CD45C9D, 0x458544D6, 0x651D16A0) == 0xB8599DD6
    ensures Mix(0x3A37CD05, 0x000F0000, 0x44584CB7, 0x62658CA1) == 0x380A1A26
    ensures Mix(0x458546F4, 0xFB50753A, 0x7BA06619, 0x458544D6) == 0x01E02203
    ensures Mix(0xB8599DD6, 0xEC6765E8, 0x6380AEA2, 0x44584CB7) == 0xE7CC3456
    ensures Mix(0x380A1A26, 0xBA3C2BE2, 0x0AE55269, 0x7BA06619) == 0xE6E60B69
    ensures Mix(0x01E02203, 0x0060C000, 0x627B49A1, 0x6380AEA2) == 0x00F60A00
    ensures Mix(0xE7CC3456, 0x3A37CD05, 0x7CD45C9D, 0x0AE55269) == 0x5795EF4F
    ensures Mix(0xE6E60B69, 0x458546F4, 0x000F0000, 0x627B49A1) == 0x822E0879
  {
  }

  lemma Next(b: seq<byte>, t: nat)
    requires |b| == 64 && t >= 16
    ensures W(b, t) == Mix(W(b, t - 3), W(b, t - 8), W(b, t - 14), W(b, t - 16))
  {
    hide Mix, WordAt;
  }

  // ----- the rounds -----

  /** One round: only two registers get new values. */
  predicate IsTurn(t: nat, a: Word, b: Word, c: Word, d: Word, e: Word, w: Word, a': Word, b': Word) {
    Turn(Registers(a, b, c, d, e), t, w) == Registers(a', a, b', c, d)
  }

  lemma Turns0()
    ensures IsTurn(0, 0x67452301, 0xEFCDAB89, 0x98BADCFE, 0x10325476, 0xC3D2E1F0, 0x61626380, 0x0116FC33, 0x7BF36AE2)
    ensures IsTurn(1, 0x0116FC33, 0x67452301, 0x7BF36AE2, 0x98BADCFE, 0x10325476, 0x00000000, 0x8990536D, 0x59D148C0)
    ensures IsTurn(2, 0x8990536D, 0x0116FC33, 0x59D148C0, 0x7BF36AE2, 0x98BADCFE, 0x00000000, 0xA1390F08, 0xC045BF0C)
    ensures IsTurn(3, 0xA1390F08, 0x8990536D, 0xC045BF0C, 0x59D148C0, 0x7BF36AE2, 0x00000000, 0xCDD8E11B, 0x626414DB)
    ensures IsTurn(4, 0xCDD8E11B, 0xA1390F08, 0x626414DB, 0xC045BF0C, 0x59D148C0, 0x00000000, 0xCFD499DE, 0x284E43C2)
    ensures IsTurn(5, 0xCFD499DE, 0xCDD8E11B, 0x284E43C2, 0x626414DB, 0xC045BF0C, 0x00000000, 0x3FC7CA40, 0xF3763846)
    ensures IsTurn(6, 0x3FC7CA40, 0xCFD499DE, 0xF3763846, 0x284E43C2, 0x626414DB, 0x00000000, 0x993E30C1, 0xB3F52677)
    ensures IsTurn(7, 0x993E30C1, 0x3FC7CA40, 0xB3F52677, 0xF3763846, 0x284E43C2, 0x00000000, 0x9E8C07D4, 0x0FF1F290)
  {
  }

  lemma Turns8()
    ensures IsTurn(8, 0x9E8C07D4, 0x993E30C1, 0x0FF1F290, 0xB3F52677, 0xF3763846, 0x00000000, 0x4B6AE328, 0x664F8C30)
    ensures IsTurn(9, 0x4B6AE328, 0x9E8C07D4, 0x664F8C30, 0x0FF1F290, 0xB3F52677, 0x00000000, 0x8351F929, 0x27A301F5)
    ensures IsTurn(10, 0x8351F929, 0x4B6AE328, 0x27A301F5, 0x664F8C30, 0x0FF1F290, 0x00000000, 0xFBDA9E89, 0x12DAB8CA)
    ensures IsTurn(11, 0xFBDA9E89, 0x8351F929, 0x12DAB8CA, 0x27A301F5, 0x664F8C30, 0x00000000, 0x63188FE4, 0x60D47E4A)
    ensures IsTurn(12, 0x63188FE4, 0xFBDA9E89, 0x60D47E4A, 0x12DAB8CA, 0x27A301F5, 0x00000000, 0x4607B664, 0x7EF6A7A2)
    ensures IsTurn(13, 0x4607B664, 0x63188FE4, 0x7EF6A7A2, 0x60D47E4A, 0x12DAB8CA, 0x00000000, 0x9128F695, 0x18C623F9)
    ensures IsTurn(14, 0x9128F695, 0x4607B664, 0x18C623F9, 0x7EF6A7A2, 0x60D47E4A, 0x00000000, 0x196BEE77, 0x1181ED99)
    ensures IsTurn(15, 0x196BEE77, 0x9128F695, 0x1181ED99, 0x18C623F9, 0x7EF6A7A2, 0x00000018, 0x20BDD62F, 0x644A3DA5)
  {
  }

  lemma Turns16()
    ensures IsTurn(16, 0x20BDD62F, 0x196BEE77, 0x644A3DA5, 0x1181ED99, 0x18C623F9, 0xC2C4C700, 0x4E925823, 0xC65AFB9D)
    ensures IsTurn(17, 0x4E925823, 0x20BDD62F, 0xC65AFB9D, 0x644A3DA5, 0x1181ED99, 0x00000000, 0x82AA6728, 0xC82F758B)
    ensures IsTurn(18, 0x82AA6728, 0x4E925823, 0xC82F758B, 0xC65AFB9D, 0x644A3DA5, 0x00000030, 0xDC64901D, 0xD3A49608)
    ensures IsTurn(19, 0xDC64901D, 0x82AA6728, 0xD3A49608, 0xC82F758B, 0xC65AFB9D, 0x85898E01, 0xFD9E1D7D, 0x20AA99CA)
    ensures IsTurn(20, 0xFD9E1D7D, 0xDC64901D, 0x20AA99CA, 0xD3A49608, 0xC82F758B, 0x00000000, 0x1A37B0CA, 0x77192407)
    ensures IsTurn(21, 0x1A37B0CA, 0xFD9E1D7D, 0x77192407, 0x20AA99CA, 0xD3A49608, 0x00000060, 0x33A23BFC, 0x7F67875F)
    ensures IsTurn(22, 0x33A23BFC, 0x1A37B0CA, 0x7F67875F, 0x77192407, 0x20AA99CA, 0x0B131C03, 0x21283486, 0x868DEC32)
    ensures IsTurn(23, 0x21283486, 0x33A23BFC, 0x868DEC32, 0x7F67875F, 0x77192407, 0x00000030, 0xD541F12D, 0x0CE88EFF)
  {
  }

  lemma Turns24()
    ensures IsTurn(24, 0xD541F12D, 0x21283486, 0x0CE88EFF, 0x868DEC32, 0x7F67875F, 0x85898EC1, 0xC7567DC6, 0x884A0D21)
    ensures IsTurn(25, 0xC7567DC6, 0xD541F12D, 0x884A0D21, 0x0CE88EFF, 0x868DEC32, 0x16263806, 0x48413BA4, 0x75507C4B)
    ensures IsTurn(26, 0x48413BA4, 0xC7567DC6, 0x75507C4B, 0x884A0D21, 0x0CE88EFF, 0x00000000, 0xBE35FBD5, 0xB1D59F71)
    ensures IsTurn(27, 0xBE35FBD5, 0x48413BA4, 0xB1D59F71, 0x75507C4B, 0x884A0D21, 0x00000180, 0x4AA84D97, 0x12104EE9)
    ensures IsTurn(28, 0x4AA84D97, 0xBE35FBD5, 0x12104EE9, 0xB1D59F71, 0x75507C4B, 0x2C4C700C, 0x8370B52E, 0x6F8D7EF5)
    ensures IsTurn(29, 0x8370B52E, 0x4AA84D97, 0x6F8D7EF5, 0x12104EE9, 0xB1D59F71, 0x000000F0, 0xC5FBAF5D, 0xD2AA1365)
    ensures IsTurn(30, 0xC5FBAF5D, 0x8370B52E, 0xD2AA1365, 0x6F8D7EF5, 0x12104EE9, 0x93AFB507, 0x1267B407, 0xA0DC2D4B)
    ensures IsTurn(31, 0x1267B407, 0xC5FBAF5D, 0xA0DC2D4B, 0xD2AA1365, 0x6F8D7EF5, 0x5898E048, 0x3B845D33, 0x717EEBD7)
  {
  }

  lemma Turns32()
    ensures IsTurn(32, 0x3B845D33, 0x1267B407, 0x717EEBD7, 0xA0DC2D4B, 0xD2AA1365, 0x8E9A9202, 0x046FAA0A, 0xC499ED01)
    ensures IsTurn(33, 0x046FAA0A, 0x3B845D33, 0xC499ED01, 0x717EEBD7, 0xA0DC2D4B, 0x00000600, 0x2C0EBC11, 0xCEE1174C)
    ensures IsTurn(34, 0x2C0EBC11, 0x046FAA0A, 0xCEE1174C, 0xC499ED01, 0x717EEBD7, 0xB131C0F0, 0x21796AD4, 0x811BEA82)
    ensures IsTurn(35, 0x21796AD4, 0x2C0EBC11, 0x811BEA82, 0xCEE1174C, 0xC499ED01, 0x16263BC6, 0xDCBBB0CB, 0x4B03AF04)
    ensures IsTurn(36, 0xDCBBB0CB, 0x21796AD4, 0x4B03AF04, 0x811BEA82, 0xCEE1174C, 0x4EBED41E, 0x0F511FD8, 0x085E5AB5)
    ensures IsTurn(37, 0x0F511FD8, 0xDCBBB0CB, 0x085E5AB5, 0x4B03AF04, 0x811BEA82, 0x626380A1, 0xDC63973F, 0xF72EEC32)
    ensures IsTurn(38, 0xDC63973F, 0x0F511FD8, 0xF72EEC32, 0x085E5AB5, 0x4B03AF04, 0x16263806, 0x4C986405, 0x03D447F6)
    ensures IsTurn(39, 0x4C986405, 0xDC63973F, 0x03D447F6, 0xF72EEC32, 0x085E5AB5, 0x000018C0, 0x32DE1CBA, 0xF718E5CF)
  {
  }

  lemma Turns40()
    ensures IsTurn(40, 0x32DE1CBA, 0x4C986405, 0xF718E5CF, 0x03D447F6, 0xF72EEC32, 0xD2E138C4, 0xFC87DEDF, 0x53261901)
    ensures IsTurn(41, 0xFC87DEDF, 0x32DE1CBA, 0x53261901, 0xF718E5CF, 0x03D447F6, 0x00000F00, 0x970A0D5C, 0x8CB7872E)
    ensures IsTurn(42, 0x970A0D5C, 0xFC87DEDF, 0x8CB7872E, 0x53261901, 0xF718E5CF, 0x3AFB5079, 0x7F193DC5, 0xFF21F7B7)
    ensures IsTurn(43, 0x7F193DC5, 0x970A0D5C, 0xFF21F7B7, 0x8CB7872E, 0x53261901, 0x898E04E5, 0xEE1B1AAF, 0x25C28357)
    ensures IsTurn(44, 0xEE1B1AAF, 0x7F193DC5, 0x25C28357, 0xFF21F7B7, 0x8CB7872E, 0xE2BA3C2B, 0x40F28E09, 0x5FC64F71)
    ensures IsTurn(45, 0x40F28E09, 0xEE1B1AAF, 0x5FC64F71, 0x25C28357, 0xFF21F7B7, 0x000060C0, 0x1C51E1F2, 0xFB86C6AB)
    ensures IsTurn(46, 0x1C51E1F2, 0x40F28E09, 0xFB86C6AB, 0x5FC64F71, 0x25C28357, 0x053A37CD, 0xA01B846C, 0x503CA382)
    ensures IsTurn(47, 0xA01B846C, 0x1C51E1F2, 0x503CA382, 0xFB86C6AB, 0x5FC64F71, 0x74458547, 0xBEAD02CA, 0x8714787C)
  {
  }

  lemma Turns48()
    ensures IsTurn(48, 0xBEAD02CA, 0xA01B846C, 0x8714787C, 0x503CA382, 0xFB86C6AB, 0xDA9415ED, 0xBAF39337, 0x2806E11B)
    ensures IsTurn(49, 0xBAF39337, 0xBEAD02CA, 0x2806E11B, 0x8714787C, 0x503CA382, 0x26380A16, 0x120731C5, 0xAFAB40B2)
    ensures IsTurn(50, 0x120731C5, 0xBAF39337, 0xAFAB40B2, 0x2806E11B, 0x8714787C, 0x626383A1, 0x641DB2CE, 0xEEBCE4CD)
    ensures IsTurn(51, 0x641DB2CE, 0x120731C5, 0xEEBCE4CD, 0xAFAB40B2, 0x2806E11B, 0x4EBF54DE, 0x3847AD66, 0x4481CC71)
    ensures IsTurn(52, 0x3847AD66, 0x641DB2CE, 0x4481CC71, 0xEEBCE4CD, 0xAFAB40B2, 0x3835B44B, 0xE490436D, 0x99076CB3)
    ensures IsTurn(53, 0xE490436D, 0x3847AD66, 0x99076CB3, 0x4481CC71, 0xEEBCE4CD, 0x0000F600, 0x27E9F1D8, 0x8E11EB59)
    ensures IsTurn(54, 0x27E9F1D8, 0xE490436D, 0x8E11EB59, 0x99076CB3, 0x4481CC71, 0x1E84C7A3, 0x7B71F76D, 0x792410DB)
    ensures IsTurn(55, 0x7B71F76D, 0x27E9F1D8, 0x792410DB, 0x8E11EB59, 0x99076CB3, 0x98E04D98, 0x5E6456AF, 0x09FA7C76)
  {
  }

  lemma Turns56()
    ensures IsTurn(56, 0x5E6456AF, 0x7B71F76D, 0x09FA7C76, 0x792410DB, 0x8E11EB59, 0x651D16A0, 0xC846093F, 0x5EDC7DDB)
    ensures IsTurn(57, 0xC846093F, 0x5E6456AF, 0x5EDC7DDB, 0x09FA7C76, 0x792410DB, 0x62658CA1, 0xD262FF50, 0xD79915AB)
    ensures IsTurn(58, 0xD262FF50, 0xC846093F, 0xD79915AB, 0x5EDC7DDB, 0x09FA7C76, 0x458544D6, 0x09D785FD, 0xF211824F)
    ensures IsTurn(59, 0x09D785FD, 0xD262FF50, 0xF211824F, 0xD79915AB, 0x5EDC7DDB, 0x44584CB7, 0x3F52DE5A, 0x3498BFD4)
    ensures IsTurn(60, 0x3F52DE5A, 0x09D785FD, 0x3498BFD4, 0xF211824F, 0xD79915AB, 0x7BA06619, 0xD756C147, 0x4275E17F)
    ensures IsTurn(61, 0xD756C147, 0x3F52DE5A, 0x4275E17F, 0x3498BFD4, 0xF211824F, 0x6380AEA2, 0x548C9CB2, 0x8FD4B796)
    ensures IsTurn(62, 0x548C9CB2, 0xD756C147, 0x8FD4B796, 0x4275E17F, 0x3498BFD4, 0x0AE55269, 0xB66C020B, 0xF5D5B051)
    ensures IsTurn(63, 0xB66C020B, 0x548C9CB2, 0xF5D5B051, 0x8FD4B796, 0x4275E17F, 0x627B49A1, 0x6B61C9E1, 0x9523272C)
  {
  }

  lemma Turns64()
    ensures IsTurn(64, 0x6B61C9E1, 0xB66C020B, 0x9523272C, 0xF5D5B051, 0x8FD4B796, 0x7CD45C9D, 0x19DFA7AC, 0xED9B0082)
    ensures IsTurn(65, 0x19DFA7AC, 0x6B61C9E1, 0xED9B0082, 0x9523272C, 0xF5D5B051, 0x000F0000, 0x101655F9, 0x5AD87278)
    ensures IsTurn(66, 0x101655F9, 0x19DFA7AC, 0x5AD87278, 0xED9B0082, 0x9523272C, 0xFB50753A, 0x0C3DF2B4, 0x0677E9EB)
    ensures IsTurn(67, 0x0C3DF2B4, 0x101655F9, 0x0677E9EB, 0x5AD87278, 0xED9B0082, 0xEC6765E8, 0x78DD4D2B, 0x4405957E)
    ensures IsTurn(68, 0x78DD4D2B, 0x0C3DF2B4, 0x4405957E, 0x0677E9EB, 0x5AD87278, 0xBA3C2BE2, 0x497093C0, 0x030F7CAD)
    ensures IsTurn(69, 0x497093C0, 0x78DD4D2B, 0x030F7CAD, 0x4405957E, 0x0677E9EB, 0x0060C000, 0x3F2588C2, 0xDE37534A)
    ensures IsTurn(70, 0x3F2588C2, 0x497093C0, 0xDE37534A, 0x030F7CAD, 0x4405957E, 0x3A37CD05, 0xC199F8C7, 0x125C24F0)
    ensures IsTurn(71, 0xC199F8C7, 0x3F2588C2, 0x125C24F0, 0xDE37534A, 0x030F7CAD, 0x458546F4, 0x39859DE7, 0x8FC96230)
  {
  }

  lemma Turns72()
    ensures IsTurn(72, 0x39859DE7, 0xC199F8C7, 0x8FC96230, 0x125C24F0, 0xDE37534A, 0xB8599DD6, 0xEDB42DE4, 0xF0667E31)
    ensures IsTurn(73, 0xEDB42DE4, 0x39859DE7, 0xF0667E31, 0x8FC96230, 0x125C24F0, 0x380A1A26, 0x11793F6F, 0xCE616779)
    ensures IsTurn(74, 0x11793F6F, 0xEDB42DE4, 0xCE616779, 0xF0667E31, 0x8FC96230, 0x01E02203, 0x5EE76897, 0x3B6D0B79)
    ensures IsTurn(75, 0x5EE76897, 0x11793F6F, 0x3B6D0B79, 0xCE616779, 0xF0667E31, 0xE7CC3456, 0x63F7DAB7, 0xC45E4FDB)
    ensures IsTurn(76, 0x63F7DAB7, 0x5EE76897, 0xC45E4FDB, 0x3B6D0B79, 0xCE616779, 0xE6E60B69, 0xA079B7D9, 0xD7B9DA25)
    ensures IsTurn(77, 0xA079B7D9, 0x63F7DAB7, 0xD7B9DA25, 0xC45E4FDB, 0x3B6D0B79, 0x00F60A00, 0x860D21CC, 0xD8FDF6AD)
    ensures IsTurn(78, 0x860D21CC, 0xA079B7D9, 0xD8FDF6AD, 0xD7B9DA25, 0xC45E4FDB, 0x5795EF4F, 0x5738D5E1, 0x681E6DF6)
    ensures IsTurn(79, 0x5738D5E1, 0x860D21CC, 0x681E6DF6, 0xD8FDF6AD, 0xD7B9DA25, 0x822E0879, 0x42541B35, 0x21834873)
  {
  }

  lemma Round(b: seq<byte>, n: nat)
    requires |b| == 64
    ensures Turns(Initial, b, n + 1) == Turn(Turns(Initial, b, n), n, W(b, n))
  {
    hide Turn, W;
  }

  lemma NoRounds(b: seq<byte>)
    requires |b| == 64
    ensures Turns(Initial, b, 0) == Registers(0x67452301, 0xEFCDAB89, 0x98BADCFE, 0x10325476, 0xC3D2E1F0)
  {
  }

  lemma AllRounds()
    ensures Turns(Initial, Block(), 80) == Registers(0x42541B35, 0x5738D5E1, 0x21834873, 0x681E6DF6, 0xD8FDF6AD)
  {
    hide W, WordAt, Turns, Block, Turn, Mix;
    var b := Block();
    Loaded();
    NoRounds(b);
    Turns0();
    Round(b, 0); Round(b, 1); Round(b, 2); Round(b, 3);
    Round(b, 4); Round(b, 5); Round(b, 6); Round(b, 7);
    Turns8();
    Round(b, 8); Round(b, 9); Round(b, 10); Round(b, 11);
    Round(b, 12); Round(b, 13); Round(b, 14); Round(b, 15);
    Mixes16();
    Next(b, 16); Next(b, 17); Next(b, 18); Next(b, 19);
    Next(b, 20); Next(b, 21); Next(b, 22); Next(b, 23);
    Turns16();
    Round(b, 16); Round(b, 17); Round(b, 18); Round(b, 19);
    Round(b, 20); Round(b, 21); Round(b, 22); Round(b, 23);
    Mixes24();
    Next(b, 24); Next(b, 25); Next(b, 26); Next(b, 27);
    Next(b, 28); Next(b, 29); Next(b, 30); Next(b, 31);
    Turns24();
    Round(b, 24); Round(b, 25); Round(b, 26); Round(b, 27);
    Round(b, 28); Round(b, 29); Round(b, 30); Round(b, 31);
    Mixes32();
    Next(b, 32); Next(b, 33); Next(b, 34); Next(b, 35);
    Next(b, 36); Next(b, 37); Next(b, 38); Next(b, 39);
    Turns32();
    Round(b, 32); Round(b, 33); Round(b, 34); Round(b, 35);
    Round(b, 36); Round(b, 37); Round(b, 38); Round(b, 39);
    Mixes40();
    Next(b, 40); Next(b, 41); Next(b, 42); Next(b, 43);
    Next(b, 44); Next(b, 45); Next(b, 46); Next(b, 47);
    Turns40();
    Round(b, 40); Round(b, 41); Round(b, 42); Round(b, 43);
    Round(b, 44); Round(b, 45); Round(b, 46); Round(b, 47);
    Mixes48();
    Next(b, 48); Next(b, 49); Next(b, 50); Next(b, 51);
    Next(b, 52); Next(b, 53); Next(b, 54); Next(b, 55);
    Turns48();
    Round(b, 48); Round(b, 49); Round(b, 50); Round(b, 51);
    Round(b, 52); Round(b, 53); Round(b, 54); Round(b, 55);
    Mixes56();
    Next(b, 56); Next(b, 57); Next(b, 58); Next(b, 59);
    Next(b, 60); Next(b, 61); Next(b, 62); Next(b, 63);
    Turns56();
    Round(b, 56); Round(b, 57); Round(b, 58); Round(b, 59);
    Round(b, 60); Round(b, 61); Round(b, 62); Round(b, 63);
    Mixes64();
    Next(b, 64); Next(b, 65); Next(b, 66); Next(b, 67);
    Next(b, 68); Next(b, 69); Next(b, 70); Next(b, 71);
    Turns64();
    Round(b, 64); Round(b, 65); Round(b, 66); Round(b, 67);
    Round(b, 68); Round(b, 69); Round(b, 70); Round(b, 71);
    Mixes72();
    Next(b, 72); Next(b, 73); Next(b, 74); Next(b, 75);
    Next(b, 76); Next(b, 77); Next(b, 78); Next(b, 79);
    Turns72();
    Round(b, 72); Round(b, 73); Round(b, 74); Round(b, 75);
    Round(b, 76); Round(b, 77); Round(b, 78); Round(b, 79);
  }

  /** The digest is a9993e36 4706816a ba3e2571 7850c26c 9cd0d89d. */
  lemma AbcDigest()
    ensures Digest([97, 98, 99]) ==
            [0xA9, 0x99, 0x3E, 0x36, 0x47, 0x06, 0x81, 0x6A, 0xBA, 0x3E, 0x25, 0x71, 0x78, 0x50, 0xC2, 0x6C, 0x9C, 0xD0, 0xD8, 0x9D]
  {
    hide W, WordAt, Turns, Block, BigEndian, Fold, Compress;
    OneBlock();
    AllRounds();
    OneFold(Initial, Block());
    Compressed();
    OctetsOf();
  }

  lemma Compressed()
    requires Turns(Initial, Block(), 80) == Registers(0x42541B35, 0x5738D5E1, 0x21834873, 0x681E6DF6, 0xD8FDF6AD)
    ensures Compress(Initial, Block()) == Registers(0xA9993E36, 0x4706816A, 0xBA3E2571, 0x7850C26C, 0x9CD0D89D)
  {
    hide Turns, Block;
  }

  lemma OctetsOf()
    ensures Octets(Registers(0xA9993E36, 0x4706816A, 0xBA3E2571, 0x7850C26C, 0x9CD0D89D)) ==
            [0xA9, 0x99, 0x3E, 0x36, 0x47, 0x06, 0x81, 0x6A, 0xBA, 0x3E, 0x25, 0x71, 0x78, 0x50, 0xC2, 0x6C, 0x9C, 0xD0, 0xD8, 0x9D]
  {
    hide WordOctets;
    Octets0();
    Octets1();
    Octets2();
    Octets3();
    Octets4();
  }

  lemma Octets0()
    ensures WordOctets(0xA9993E36) == [0xA9, 0x99, 0x3E, 0x36]
  {
    hide BigEndian;
    FourDigits(0xA9993E36);
  }

  lemma Octets1()
    ensures WordOctets(0x4706816A) == [0x47, 0x06, 0x81, 0x6A]
  {
    hide BigEndian;
    FourDigits(0x4706816A);
  }

  lemma Octets2()
    ensures WordOctets(0xBA3E2571) == [0xBA, 0x3E, 0x25, 0x71]
  {
    hide BigEndian;
    FourDigits(0xBA3E2571);
  }

  lemma Octets3()
    ensures WordOctets(0x7850C26C) == [0x78, 0x50, 0xC2, 0x6C]
  {
    hide BigEndian;
    FourDigits(0x7850C26C);
  }

  lemma Octets4()
    ensures WordOctets(0x9CD0D89D) == [0x9C, 0xD0, 0xD8, 0x9D]
  {
    hide BigEndian;
    FourDigits(0x9CD0D89D);
  }

  lemma OneFold(h: Registers, b: seq<byte>)
    requires |b| == 64
    ensures Fold(h, b) == Compress(h, b)
  {
    hide Compress;
    assert b[..64] == b && b[64..] == [];
  }
}
