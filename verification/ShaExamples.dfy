// The hash functions worked out on one message, the three characters "abc". Code and specification
// have functions in common; the known digests of this message say that those are the right ones.
module ShaAbc {
  import opened Sha

  const ABC: seq<byte> := [0x61, 0x62, 0x63]

  // The one block "abc" is padded to, in words.
  const BLOCK: seq<word> := [0x61626380, 0, 0, 0, 0, 0, 0, 0] + [0, 0, 0, 0, 0, 0, 0, 24]

  lemma LengthBytes()
    ensures Bytes64(24) == [0, 0, 0, 0, 0, 0, 0, 24]
  {
    hide Bytes32, Bytes64;
    Bytes64Is(0, 24);
    Bytes32Is(0, 0, 0, 0, 0);
    Bytes32Is(24, 0, 0, 0, 24);
  }

  lemma PadIs()
    ensures Pad(ABC) == [0x61, 0x62, 0x63] + [0x80] + Zeros(52) + [0, 0, 0, 0, 0, 0, 0, 24]
  {
    hide Bytes64;
    LengthBytes();
    assert ZeroCount(3) == 52 && BitLength(3) == 24;
  }

  lemma PaddedAbc()
    ensures |Pad(ABC)| == 64 && Words(Pad(ABC)) == BLOCK
  {
    hide WordOf, Pad;
    PadIs();
    var p := Pad(ABC);
    BlockWords();
    forall i | 0 <= i < 16 ensures Words(p)[i] == BLOCK[i] {
      assert Words(p)[i] == WordOf(p[4 * i], p[4 * i + 1], p[4 * i + 2], p[4 * i + 3]);
    }
  }

  lemma BlockWords()
    ensures WordOf(0x61, 0x62, 0x63, 0x80) == 0x61626380 && WordOf(0, 0, 0, 0) == 0 && WordOf(0, 0, 0, 24) == 24
  {
  }
}

module Sha1Abc {
  import opened Sha
  import opened Sha1Spec
  import opened ShaAbc

  lemma NextWord(t: nat)
    requires 16 <= t < 80
    ensures W(BLOCK, t) == Expand(W(BLOCK, t - 3), W(BLOCK, t - 8), W(BLOCK, t - 14), W(BLOCK, t - 16))
  {
  }

  lemma Words0()
    ensures W(BLOCK, 0) == 0x61626380 && W(BLOCK, 1) == 0x00000000 && W(BLOCK, 2) == 0x00000000 && W(BLOCK, 3) == 0x00000000
    ensures W(BLOCK, 4) == 0x00000000 && W(BLOCK, 5) == 0x00000000 && W(BLOCK, 6) == 0x00000000 && W(BLOCK, 7) == 0x00000000
    ensures W(BLOCK, 8) == 0x00000000 && W(BLOCK, 9) == 0x00000000 && W(BLOCK, 10) == 0x00000000 && W(BLOCK, 11) == 0x00000000
    ensures W(BLOCK, 12) == 0x00000000 && W(BLOCK, 13) == 0x00000000 && W(BLOCK, 14) == 0x00000000 && W(BLOCK, 15) == 0x00000018
  {
  }

  lemma Expanded1()
    ensures Expand(0x00000000, 0x00000000, 0x00000000, 0x61626380) == 0xC2C4C700
    ensures Expand(0x00000000, 0x00000000, 0x00000000, 0x00000000) == 0x00000000
    ensures Expand(0x00000018, 0x00000000, 0x00000000, 0x00000000) == 0x00000030
    ensures Expand(0xC2C4C700, 0x00000000, 0x00000000, 0x00000000) == 0x85898E01
    ensures Expand(0x00000000, 0x00000000, 0x00000000, 0x00000000) == 0x00000000
    ensures Expand(0x00000030, 0x00000000, 0x00000000, 0x00000000) == 0x00000060
    ensures Expand(0x85898E01, 0x00000000, 0x00000000, 0x00000000) == 0x0B131C03
    ensures Expand(0x00000000, 0x00000018, 0x00000000, 0x00000000) == 0x00000030
    ensures Expand(0x00000060, 0xC2C4C700, 0x00000000, 0x00000000) == 0x85898EC1
    ensures Expand(0x0B131C03, 0x00000000, 0x00000000, 0x00000000) == 0x16263806
    ensures Expand(0x00000030, 0x00000030, 0x00000000, 0x00000000) == 0x00000000
    ensures Expand(0x85898EC1, 0x85898E01, 0x00000000, 0x00000000) == 0x00000180
    ensures Expand(0x16263806, 0x00000000, 0x00000000, 0x00000000) == 0x2C4C700C
    ensures Expand(0x00000000, 0x00000060, 0x00000018, 0x00000000) == 0x000000F0
    ensures Expand(0x00000180, 0x0B131C03, 0xC2C4C700, 0x00000000) == 0x93AFB507
    ensures Expand(0x2C4C700C, 0x00000030, 0x00000000, 0x00000018) == 0x5898E048
  {
  }

  lemma Words1()
    ensures W(BLOCK, 16) == 0xC2C4C700 && W(BLOCK, 17) == 0x00000000 && W(BLOCK, 18) == 0x00000030 && W(BLOCK, 19) == 0x85898E01
    ensures W(BLOCK, 20) == 0x00000000 && W(BLOCK, 21) == 0x00000060 && W(BLOCK, 22) == 0x0B131C03 && W(BLOCK, 23) == 0x00000030
    ensures W(BLOCK, 24) == 0x85898EC1 && W(BLOCK, 25) == 0x16263806 && W(BLOCK, 26) == 0x00000000 && W(BLOCK, 27) == 0x00000180
    ensures W(BLOCK, 28) == 0x2C4C700C && W(BLOCK, 29) == 0x000000F0 && W(BLOCK, 30) == 0x93AFB507 && W(BLOCK, 31) == 0x5898E048
  {
    hide W, Expand;
    Words0();
    Expanded1();
    NextWord(16); NextWord(17); NextWord(18); NextWord(19);
    NextWord(20); NextWord(21); NextWord(22); NextWord(23);
    NextWord(24); NextWord(25); NextWord(26); NextWord(27);
    NextWord(28); NextWord(29); NextWord(30); NextWord(31);
  }

  lemma Expanded2()
    ensures Expand(0x000000F0, 0x85898EC1, 0x00000030, 0xC2C4C700) == 0x8E9A9202
    ensures Expand(0x93AFB507, 0x16263806, 0x85898E01, 0x00000000) == 0x00000600
    ensures Expand(0x5898E048, 0x00000000, 0x00000000, 0x00000030) == 0xB131C0F0
    ensures Expand(0x8E9A9202, 0x00000180, 0x00000060, 0x85898E01) == 0x16263BC6
    ensures Expand(0x00000600, 0x2C4C700C, 0x0B131C03, 0x00000000) == 0x4EBED41E
    ensures Expand(0xB131C0F0, 0x000000F0, 0x00000030, 0x00000060) == 0x626380A1
    ensures Expand(0x16263BC6, 0x93AFB507, 0x85898EC1, 0x0B131C03) == 0x16263806
    ensures Expand(0x4EBED41E, 0x5898E048, 0x16263806, 0x00000030) == 0x000018C0
    ensures Expand(0x626380A1, 0x8E9A9202, 0x00000000, 0x85898EC1) == 0xD2E138C4
    ensures Expand(0x16263806, 0x00000600, 0x00000180, 0x16263806) == 0x00000F00
    ensures Expand(0x000018C0, 0xB131C0F0, 0x2C4C700C, 0x00000000) == 0x3AFB5079
    ensures Expand(0xD2E138C4, 0x16263BC6, 0x000000F0, 0x00000180) == 0x898E04E5
    ensures Expand(0x00000F00, 0x4EBED41E, 0x93AFB507, 0x2C4C700C) == 0xE2BA3C2B
    ensures Expand(0x3AFB5079, 0x626380A1, 0x5898E048, 0x000000F0) == 0x000060C0
    ensures Expand(0x898E04E5, 0x16263806, 0x8E9A9202, 0x93AFB507) == 0x053A37CD
    ensures Expand(0xE2BA3C2B, 0x000018C0, 0x00000600, 0x5898E048) == 0x74458547
  {
  }

  lemma Words2()
    ensures W(BLOCK, 32) == 0x8E9A9202 && W(BLOCK, 33) == 0x00000600 && W(BLOCK, 34) == 0xB131C0F0 && W(BLOCK, 35) == 0x16263BC6
    ensures W(BLOCK, 36) == 0x4EBED41E && W(BLOCK, 37) == 0x626380A1 && W(BLOCK, 38) == 0x16263806 && W(BLOCK, 39) == 0x000018C0
    ensures W(BLOCK, 40) == 0xD2E138C4 && W(BLOCK, 41) == 0x00000F00 && W(BLOCK, 42) == 0x3AFB5079 && W(BLOCK, 43) == 0x898E04E5
    ensures W(BLOCK, 44) == 0xE2BA3C2B && W(BLOCK, 45) == 0x000060C0 && W(BLOCK, 46) == 0x053A37CD && W(BLOCK, 47) == 0x74458547
  {
    hide W, Expand;
    Words1();
    Expanded2();
    NextWord(32); NextWord(33); NextWord(34); NextWord(35);
    NextWord(36); NextWord(37); NextWord(38); NextWord(39);
    NextWord(40); NextWord(41); NextWord(42); NextWord(43);
    NextWord(44); NextWord(45); NextWord(46); NextWord(47);
  }

  lemma Expanded3()
    ensures Expand(0x000060C0, 0xD2E138C4, 0xB131C0F0, 0x8E9A9202) == 0xDA9415ED
    ensures Expand(0x053A37CD, 0x00000F00, 0x16263BC6, 0x00000600) == 0x26380A16
    ensures Expand(0x74458547, 0x3AFB5079, 0x4EBED41E, 0xB131C0F0) == 0x626383A1
    ensures Expand(0xDA9415ED, 0x898E04E5, 0x626380A1, 0x16263BC6) == 0x4EBF54DE
    ensures Expand(0x26380A16, 0xE2BA3C2B, 0x16263806, 0x4EBED41E) == 0x3835B44B
    ensures Expand(0x626383A1, 0x000060C0, 0x000018C0, 0x626380A1) == 0x0000F600
    ensures Expand(0x4EBF54DE, 0x053A37CD, 0xD2E138C4, 0x16263806) == 0x1E84C7A3
    ensures Expand(0x3835B44B, 0x74458547, 0x00000F00, 0x000018C0) == 0x98E04D98
    ensures Expand(0x0000F600, 0xDA9415ED, 0x3AFB5079, 0xD2E138C4) == 0x651D16A0
    ensures Expand(0x1E84C7A3, 0x26380A16, 0x898E04E5, 0x00000F00) == 0x62658CA1
    ensures Expand(0x98E04D98, 0x626383A1, 0xE2BA3C2B, 0x3AFB5079) == 0x458544D6
    ensures Expand(0x651D16A0, 0x4EBF54DE, 0x000060C0, 0x898E04E5) == 0x44584CB7
    ensures Expand(0x62658CA1, 0x3835B44B, 0x053A37CD, 0xE2BA3C2B) == 0x7BA06619
    ensures Expand(0x458544D6, 0x0000F600, 0x74458547, 0x000060C0) == 0x6380AEA2
    ensures Expand(0x44584CB7, 0x1E84C7A3, 0xDA9415ED, 0x053A37CD) == 0x0AE55269
    ensures Expand(0x7BA06619, 0x98E04D98, 0x26380A16, 0x74458547) == 0x627B49A1
  {
  }

  lemma Words3()
    ensures W(BLOCK, 48) == 0xDA9415ED && W(BLOCK, 49) == 0x26380A16 && W(BLOCK, 50) == 0x626383A1 && W(BLOCK, 51) == 0x4EBF54DE
    ensures W(BLOCK, 52) == 0x3835B44B && W(BLOCK, 53) == 0x0000F600 && W(BLOCK, 54) == 0x1E84C7A3 && W(BLOCK, 55) == 0x98E04D98
    ensures W(BLOCK, 56) == 0x651D16A0 && W(BLOCK, 57) == 0x62658CA1 && W(BLOCK, 58) == 0x458544D6 && W(BLOCK, 59) == 0x44584CB7
    ensures W(BLOCK, 60) == 0x7BA06619 && W(BLOCK, 61) == 0x6380AEA2 && W(BLOCK, 62) == 0x0AE55269 && W(BLOCK, 63) == 0x627B49A1
  {
    hide W, Expand;
    Words2();
    Expanded3();
    NextWord(48); NextWord(49); NextWord(50); NextWord(51);
    NextWord(52); NextWord(53); NextWord(54); NextWord(55);
    NextWord(56); NextWord(57); NextWord(58); NextWord(59);
    NextWord(60); NextWord(61); NextWord(62); NextWord(63);
  }

  lemma Expanded4()
    ensures Expand(0x6380AEA2, 0x651D16A0, 0x626383A1, 0xDA9415ED) == 0x7CD45C9D
    ensures Expand(0x0AE55269, 0x62658CA1, 0x4EBF54DE, 0x26380A16) == 0x000F0000
    ensures Expand(0x627B49A1, 0x458544D6, 0x3835B44B, 0x626383A1) == 0xFB50753A
    ensures Expand(0x7CD45C9D, 0x44584CB7, 0x0000F600, 0x4EBF54DE) == 0xEC6765E8
    ensures Expand(0x000F0000, 0x7BA06619, 0x1E84C7A3, 0x3835B44B) == 0xBA3C2BE2
    ensures Expand(0xFB50753A, 0x6380AEA2, 0x98E04D98, 0x0000F600) == 0x0060C000
    ensures Expand(0xEC6765E8, 0x0AE55269, 0x651D16A0, 0x1E84C7A3) == 0x3A37CD05
    ensures Expand(0xBA3C2BE2, 0x627B49A1, 0x62658CA1, 0x98E04D98) == 0x458546F4
    ensures Expand(0x0060C000, 0x7CD45C9D, 0x458544D6, 0x651D16A0) == 0xB8599DD6
    ensures Expand(0x3A37CD05, 0x000F0000, 0x44584CB7, 0x62658CA1) == 0x380A1A26
    ensures Expand(0x458546F4, 0xFB50753A, 0x7BA06619, 0x458544D6) == 0x01E02203
    ensures Expand(0xB8599DD6, 0xEC6765E8, 0x6380AEA2, 0x44584CB7) == 0xE7CC3456
    ensures Expand(0x380A1A26, 0xBA3C2BE2, 0x0AE55269, 0x7BA06619) == 0xE6E60B69
    ensures Expand(0x01E02203, 0x0060C000, 0x627B49A1, 0x6380AEA2) == 0x00F60A00
    ensures Expand(0xE7CC3456, 0x3A37CD05, 0x7CD45C9D, 0x0AE55269) == 0x5795EF4F
    ensures Expand(0xE6E60B69, 0x458546F4, 0x000F0000, 0x627B49A1) == 0x822E0879
  {
  }

  lemma Words4()
    ensures W(BLOCK, 64) == 0x7CD45C9D && W(BLOCK, 65) == 0x000F0000 && W(BLOCK, 66) == 0xFB50753A && W(BLOCK, 67) == 0xEC6765E8
    ensures W(BLOCK, 68) == 0xBA3C2BE2 && W(BLOCK, 69) == 0x0060C000 && W(BLOCK, 70) == 0x3A37CD05 && W(BLOCK, 71) == 0x458546F4
    ensures W(BLOCK, 72) == 0xB8599DD6 && W(BLOCK, 73) == 0x380A1A26 && W(BLOCK, 74) == 0x01E02203 && W(BLOCK, 75) == 0xE7CC3456
    ensures W(BLOCK, 76) == 0xE6E60B69 && W(BLOCK, 77) == 0x00F60A00 && W(BLOCK, 78) == 0x5795EF4F && W(BLOCK, 79) == 0x822E0879
  {
    hide W, Expand;
    Words3();
    Expanded4();
    NextWord(64); NextWord(65); NextWord(66); NextWord(67);
    NextWord(68); NextWord(69); NextWord(70); NextWord(71);
    NextWord(72); NextWord(73); NextWord(74); NextWord(75);
    NextWord(76); NextWord(77); NextWord(78); NextWord(79);
  }

  lemma NextRound(t: nat)
    ensures After(BLOCK, H0, t + 1) == Round(t, After(BLOCK, H0, t), W(BLOCK, t))
  {
  }

  lemma NoRounds()
    ensures After(BLOCK, H0, 0) == H0
  {
  }

  lemma Rounds0()
    ensures After(BLOCK, H0, 8) == Regs(0x9E8C07D4, 0x993E30C1, 0x0FF1F290, 0xB3F52677, 0xF3763846)
  {
    hide After, W;
    Words0();
    NoRounds();
    NextRound(0); NextRound(1); NextRound(2); NextRound(3);
    NextRound(4); NextRound(5); NextRound(6); NextRound(7);
  }

  lemma Rounds1()
    ensures After(BLOCK, H0, 16) == Regs(0x20BDD62F, 0x196BEE77, 0x644A3DA5, 0x1181ED99, 0x18C623F9)
  {
    hide After, W;
    Words0();
    Rounds0();
    NextRound(8); NextRound(9); NextRound(10); NextRound(11);
    NextRound(12); NextRound(13); NextRound(14); NextRound(15);
  }

  lemma Rounds2()
    ensures After(BLOCK, H0, 24) == Regs(0xD541F12D, 0x21283486, 0x0CE88EFF, 0x868DEC32, 0x7F67875F)
  {
    hide After, W;
    Words1();
    Rounds1();
    NextRound(16); NextRound(17); NextRound(18); NextRound(19);
    NextRound(20); NextRound(21); NextRound(22); NextRound(23);
  }

  lemma Rounds3()
    ensures After(BLOCK, H0, 32) == Regs(0x3B845D33, 0x1267B407, 0x717EEBD7, 0xA0DC2D4B, 0xD2AA1365)
  {
    hide After, W;
    Words1();
    Rounds2();
    NextRound(24); NextRound(25); NextRound(26); NextRound(27);
    NextRound(28); NextRound(29); NextRound(30); NextRound(31);
  }

  lemma Rounds4()
    ensures After(BLOCK, H0, 40) == Regs(0x32DE1CBA, 0x4C986405, 0xF718E5CF, 0x03D447F6, 0xF72EEC32)
  {
    hide After, W;
    Words2();
    Rounds3();
    NextRound(32); NextRound(33); NextRound(34); NextRound(35);
    NextRound(36); NextRound(37); NextRound(38); NextRound(39);
  }

  lemma Rounds5()
    ensures After(BLOCK, H0, 48) == Regs(0xBEAD02CA, 0xA01B846C, 0x8714787C, 0x503CA382, 0xFB86C6AB)
  {
    hide After, W;
    Words2();
    Rounds4();
    NextRound(40); NextRound(41); NextRound(42); NextRound(43);
    NextRound(44); NextRound(45); NextRound(46); NextRound(47);
  }

  lemma Rounds6()
    ensures After(BLOCK, H0, 56) == Regs(0x5E6456AF, 0x7B71F76D, 0x09FA7C76, 0x792410DB, 0x8E11EB59)
  {
    hide After, W;
    Words3();
    Rounds5();
    NextRound(48); NextRound(49); NextRound(50); NextRound(51);
    NextRound(52); NextRound(53); NextRound(54); NextRound(55);
  }

  lemma Rounds7()
    ensures After(BLOCK, H0, 64) == Regs(0x6B61C9E1, 0xB66C020B, 0x9523272C, 0xF5D5B051, 0x8FD4B796)
  {
    hide After, W;
    Words3();
    Rounds6();
    NextRound(56); NextRound(57); NextRound(58); NextRound(59);
    NextRound(60); NextRound(61); NextRound(62); NextRound(63);
  }

  lemma Rounds8()
    ensures After(BLOCK, H0, 72) == Regs(0x39859DE7, 0xC199F8C7, 0x8FC96230, 0x125C24F0, 0xDE37534A)
  {
    hide After, W;
    Words4();
    Rounds7();
    NextRound(64); NextRound(65); NextRound(66); NextRound(67);
    NextRound(68); NextRound(69); NextRound(70); NextRound(71);
  }

  lemma Rounds9()
    ensures After(BLOCK, H0, 80) == Regs(0x42541B35, 0x5738D5E1, 0x21834873, 0x681E6DF6, 0xD8FDF6AD)
  {
    hide After, W;
    Words4();
    Rounds8();
    NextRound(72); NextRound(73); NextRound(74); NextRound(75);
    NextRound(76); NextRound(77); NextRound(78); NextRound(79);
  }

  lemma LastSums()
    ensures var h, r := H0, Regs(0x42541B35, 0x5738D5E1, 0x21834873, 0x681E6DF6, 0xD8FDF6AD);
      Regs(Plus(h.a, r.a), Plus(h.b, r.b), Plus(h.c, r.c), Plus(h.d, r.d), Plus(h.e, r.e)) == Regs(0xA9993E36, 0x4706816A, 0xBA3E2571, 0x7850C26C, 0x9CD0D89D)
  {
  }

  lemma DigestBytes()
    ensures Digest(Regs(0xA9993E36, 0x4706816A, 0xBA3E2571, 0x7850C26C, 0x9CD0D89D)) == [0xA9, 0x99, 0x3E, 0x36, 0x47, 0x06, 0x81, 0x6A, 0xBA, 0x3E, 0x25, 0x71, 0x78, 0x50, 0xC2, 0x6C, 0x9C, 0xD0, 0xD8, 0x9D]
  {
  }

  // The first test vector of rktio_sha1.c (FIPS 180-1, Appendix A).
  lemma Sha1OfAbc()
    ensures Sha1([0x61, 0x62, 0x63]) == [0xA9, 0x99, 0x3E, 0x36, 0x47, 0x06, 0x81, 0x6A, 0xBA, 0x3E, 0x25, 0x71, 0x78, 0x50, 0xC2, 0x6C, 0x9C, 0xD0, 0xD8, 0x9D]
  {
    hide After, Plus, Digest, Words, Pad, H0;
    PaddedAbc();
    FoldOne(Compress, H0, Pad(ABC));
    Rounds9();
    LastSums();
    DigestBytes();
  }
}

module Sha256Abc {
  import opened Sha
  import opened Sha2Spec
  import opened ShaAbc

  lemma NextWord(t: nat)
    requires 16 <= t < 64
    ensures W(BLOCK, t) == Expand(W(BLOCK, t - 2), W(BLOCK, t - 7), W(BLOCK, t - 15), W(BLOCK, t - 16))
  {
  }

  lemma Words0()
    ensures W(BLOCK, 0) == 0x61626380 && W(BLOCK, 1) == 0x00000000 && W(BLOCK, 2) == 0x00000000 && W(BLOCK, 3) == 0x00000000
    ensures W(BLOCK, 4) == 0x00000000 && W(BLOCK, 5) == 0x00000000 && W(BLOCK, 6) == 0x00000000 && W(BLOCK, 7) == 0x00000000
    ensures W(BLOCK, 8) == 0x00000000 && W(BLOCK, 9) == 0x00000000 && W(BLOCK, 10) == 0x00000000 && W(BLOCK, 11) == 0x00000000
    ensures W(BLOCK, 12) == 0x00000000 && W(BLOCK, 13) == 0x00000000 && W(BLOCK, 14) == 0x00000000 && W(BLOCK, 15) == 0x00000018
  {
  }

  lemma Expanded1()
    ensures Expand(0x00000000, 0x00000000, 0x00000000, 0x61626380) == 0x61626380
    ensures Expand(0x00000018, 0x00000000, 0x00000000, 0x00000000) == 0x000F0000
    ensures Expand(0x61626380, 0x00000000, 0x00000000, 0x00000000) == 0x7DA86405
    ensures Expand(0x000F0000, 0x00000000, 0x00000000, 0x00000000) == 0x600003C6
    ensures Expand(0x7DA86405, 0x00000000, 0x00000000, 0x00000000) == 0x3E9D7B78
    ensures Expand(0x600003C6, 0x00000000, 0x00000000, 0x00000000) == 0x0183FC00
    ensures Expand(0x3E9D7B78, 0x00000018, 0x00000000, 0x00000000) == 0x12DCBFDB
    ensures Expand(0x0183FC00, 0x61626380, 0x00000000, 0x00000000) == 0xE2E2C38E
    ensures Expand(0x12DCBFDB, 0x000F0000, 0x00000000, 0x00000000) == 0xC8215C1A
    ensures Expand(0xE2E2C38E, 0x7DA86405, 0x00000000, 0x00000000) == 0xB73679A2
    ensures Expand(0xC8215C1A, 0x600003C6, 0x00000000, 0x00000000) == 0xE5BC3909
    ensures Expand(0xB73679A2, 0x3E9D7B78, 0x00000000, 0x00000000) == 0x32663C5B
    ensures Expand(0xE5BC3909, 0x0183FC00, 0x00000000, 0x00000000) == 0x9D209D67
    ensures Expand(0x32663C5B, 0x12DCBFDB, 0x00000000, 0x00000000) == 0xEC8726CB
    ensures Expand(0x9D209D67, 0xE2E2C38E, 0x00000018, 0x00000000) == 0x702138A4
    ensures Expand(0xEC8726CB, 0xC8215C1A, 0x61626380, 0x00000018) == 0xD3B7973B
  {
  }

  lemma Words1()
    ensures W(BLOCK, 16) == 0x61626380 && W(BLOCK, 17) == 0x000F0000 && W(BLOCK, 18) == 0x7DA86405 && W(BLOCK, 19) == 0x600003C6
    ensures W(BLOCK, 20) == 0x3E9D7B78 && W(BLOCK, 21) == 0x0183FC00 && W(BLOCK, 22) == 0x12DCBFDB && W(BLOCK, 23) == 0xE2E2C38E
    ensures W(BLOCK, 24) == 0xC8215C1A && W(BLOCK, 25) == 0xB73679A2 && W(BLOCK, 26) == 0xE5BC3909 && W(BLOCK, 27) == 0x32663C5B
    ensures W(BLOCK, 28) == 0x9D209D67 && W(BLOCK, 29) == 0xEC8726CB && W(BLOCK, 30) == 0x702138A4 && W(BLOCK, 31) == 0xD3B7973B
  {
    hide W, Expand;
    Words0();
    Expanded1();
    NextWord(16); NextWord(17); NextWord(18); NextWord(19);
    NextWord(20); NextWord(21); NextWord(22); NextWord(23);
    NextWord(24); NextWord(25); NextWord(26); NextWord(27);
    NextWord(28); NextWord(29); NextWord(30); NextWord(31);
  }

  lemma Expanded2()
    ensures Expand(0x702138A4, 0xB73679A2, 0x000F0000, 0x61626380) == 0x93F5997F
    ensures Expand(0xD3B7973B, 0xE5BC3909, 0x7DA86405, 0x000F0000) == 0x3B68BA73
    ensures Expand(0x93F5997F, 0x32663C5B, 0x600003C6, 0x7DA86405) == 0xAFF4FFC1
    ensures Expand(0x3B68BA73, 0x9D209D67, 0x3E9D7B78, 0x600003C6) == 0xF10A5C62
    ensures Expand(0xAFF4FFC1, 0xEC8726CB, 0x0183FC00, 0x3E9D7B78) == 0x0A8B3996
    ensures Expand(0xF10A5C62, 0x702138A4, 0x12DCBFDB, 0x0183FC00) == 0x72AF830A
    ensures Expand(0x0A8B3996, 0xD3B7973B, 0xE2E2C38E, 0x12DCBFDB) == 0x9409E33E
    ensures Expand(0x72AF830A, 0x93F5997F, 0xC8215C1A, 0xE2E2C38E) == 0x24641522
    ensures Expand(0x9409E33E, 0x3B68BA73, 0xB73679A2, 0xC8215C1A) == 0x9F47BF94
    ensures Expand(0x24641522, 0xAFF4FFC1, 0xE5BC3909, 0xB73679A2) == 0xF0A64F5A
    ensures Expand(0x9F47BF94, 0xF10A5C62, 0x32663C5B, 0xE5BC3909) == 0x3E246A79
    ensures Expand(0xF0A64F5A, 0x0A8B3996, 0x9D209D67, 0x32663C5B) == 0x27333BA3
    ensures Expand(0x3E246A79, 0x72AF830A, 0xEC8726CB, 0x9D209D67) == 0x0C4763F2
    ensures Expand(0x27333BA3, 0x9409E33E, 0x702138A4, 0xEC8726CB) == 0x840ABF27
    ensures Expand(0x0C4763F2, 0x24641522, 0xD3B7973B, 0x702138A4) == 0x7A290D5D
    ensures Expand(0x840ABF27, 0x9F47BF94, 0x93F5997F, 0xD3B7973B) == 0x065C43DA
  {
  }

  lemma Words2()
    ensures W(BLOCK, 32) == 0x93F5997F && W(BLOCK, 33) == 0x3B68BA73 && W(BLOCK, 34) == 0xAFF4FFC1 && W(BLOCK, 35) == 0xF10A5C62
    ensures W(BLOCK, 36) == 0x0A8B3996 && W(BLOCK, 37) == 0x72AF830A && W(BLOCK, 38) == 0x9409E33E && W(BLOCK, 39) == 0x24641522
    ensures W(BLOCK, 40) == 0x9F47BF94 && W(BLOCK, 41) == 0xF0A64F5A && W(BLOCK, 42) == 0x3E246A79 && W(BLOCK, 43) == 0x27333BA3
    ensures W(BLOCK, 44) == 0x0C4763F2 && W(BLOCK, 45) == 0x840ABF27 && W(BLOCK, 46) == 0x7A290D5D && W(BLOCK, 47) == 0x065C43DA
  {
    hide W, Expand;
    Words1();
    Expanded2();
    NextWord(32); NextWord(33); NextWord(34); NextWord(35);
    NextWord(36); NextWord(37); NextWord(38); NextWord(39);
    NextWord(40); NextWord(41); NextWord(42); NextWord(43);
    NextWord(44); NextWord(45); NextWord(46); NextWord(47);
  }

  lemma Expanded3()
    ensures Expand(0x7A290D5D, 0xF0A64F5A, 0x3B68BA73, 0x93F5997F) == 0xFB3E89CB
    ensures Expand(0x065C43DA, 0x3E246A79, 0xAFF4FFC1, 0x3B68BA73) == 0xCC7617DB
    ensures Expand(0xFB3E89CB, 0x27333BA3, 0xF10A5C62, 0xAFF4FFC1) == 0xB9E66C34
    ensures Expand(0xCC7617DB, 0x0C4763F2, 0x0A8B3996, 0xF10A5C62) == 0xA9993667
    ensures Expand(0xB9E66C34, 0x840ABF27, 0x72AF830A, 0x0A8B3996) == 0x84BADEDD
    ensures Expand(0xA9993667, 0x7A290D5D, 0x9409E33E, 0x72AF830A) == 0xC21462BC
    ensures Expand(0x84BADEDD, 0x065C43DA, 0x24641522, 0x9409E33E) == 0x1487472C
    ensures Expand(0xC21462BC, 0xFB3E89CB, 0x9F47BF94, 0x24641522) == 0xB20F7A99
    ensures Expand(0x1487472C, 0xCC7617DB, 0xF0A64F5A, 0x9F47BF94) == 0xEF57B9CD
    ensures Expand(0xB20F7A99, 0xB9E66C34, 0x3E246A79, 0xF0A64F5A) == 0xEBE6B238
    ensures Expand(0xEF57B9CD, 0xA9993667, 0x27333BA3, 0x3E246A79) == 0x9FE3095E
    ensures Expand(0xEBE6B238, 0x84BADEDD, 0x0C4763F2, 0x27333BA3) == 0x78BC8D4B
    ensures Expand(0x9FE3095E, 0xC21462BC, 0x840ABF27, 0x0C4763F2) == 0xA43FCF15
    ensures Expand(0x78BC8D4B, 0x1487472C, 0x7A290D5D, 0x840ABF27) == 0x668B2FF8
    ensures Expand(0xA43FCF15, 0xB20F7A99, 0x065C43DA, 0x7A290D5D) == 0xEEABA2CC
    ensures Expand(0x668B2FF8, 0xEF57B9CD, 0xFB3E89CB, 0x065C43DA) == 0x12B1EDEB
  {
  }

  lemma Words3()
    ensures W(BLOCK, 48) == 0xFB3E89CB && W(BLOCK, 49) == 0xCC7617DB && W(BLOCK, 50) == 0xB9E66C34 && W(BLOCK, 51) == 0xA9993667
    ensures W(BLOCK, 52) == 0x84BADEDD && W(BLOCK, 53) == 0xC21462BC && W(BLOCK, 54) == 0x1487472C && W(BLOCK, 55) == 0xB20F7A99
    ensures W(BLOCK, 56) == 0xEF57B9CD && W(BLOCK, 57) == 0xEBE6B238 && W(BLOCK, 58) == 0x9FE3095E && W(BLOCK, 59) == 0x78BC8D4B
    ensures W(BLOCK, 60) == 0xA43FCF15 && W(BLOCK, 61) == 0x668B2FF8 && W(BLOCK, 62) == 0xEEABA2CC && W(BLOCK, 63) == 0x12B1EDEB
  {
    hide W, Expand;
    Words2();
    Expanded3();
    NextWord(48); NextWord(49); NextWord(50); NextWord(51);
    NextWord(52); NextWord(53); NextWord(54); NextWord(55);
    NextWord(56); NextWord(57); NextWord(58); NextWord(59);
    NextWord(60); NextWord(61); NextWord(62); NextWord(63);
  }

  // The working variables after each round.
  const AFTER_1 := Regs(0x5D6AEBCD, 0x6A09E667, 0xBB67AE85, 0x3C6EF372, 0xFA2A4622, 0x510E527F, 0x9B05688C, 0x1F83D9AB)
  const AFTER_2 := Regs(0x5A6AD9AD, 0x5D6AEBCD, 0x6A09E667, 0xBB67AE85, 0x78CE7989, 0xFA2A4622, 0x510E527F, 0x9B05688C)
  const AFTER_3 := Regs(0xC8C347A7, 0x5A6AD9AD, 0x5D6AEBCD, 0x6A09E667, 0xF92939EB, 0x78CE7989, 0xFA2A4622, 0x510E527F)
  const AFTER_4 := Regs(0xD550F666, 0xC8C347A7, 0x5A6AD9AD, 0x5D6AEBCD, 0x24E00850, 0xF92939EB, 0x78CE7989, 0xFA2A4622)
  const AFTER_5 := Regs(0x04409A6A, 0xD550F666, 0xC8C347A7, 0x5A6AD9AD, 0x43ADA245, 0x24E00850, 0xF92939EB, 0x78CE7989)
  const AFTER_6 := Regs(0x2B4209F5, 0x04409A6A, 0xD550F666, 0xC8C347A7, 0x714260AD, 0x43ADA245, 0x24E00850, 0xF92939EB)
  const AFTER_7 := Regs(0xE5030380, 0x2B4209F5, 0x04409A6A, 0xD550F666, 0x9B27A401, 0x714260AD, 0x43ADA245, 0x24E00850)
  const AFTER_8 := Regs(0x85A07B5F, 0xE5030380, 0x2B4209F5, 0x04409A6A, 0x0C657A79, 0x9B27A401, 0x714260AD, 0x43ADA245)
  const AFTER_9 := Regs(0x8E04ECB9, 0x85A07B5F, 0xE5030380, 0x2B4209F5, 0x32CA2D8C, 0x0C657A79, 0x9B27A401, 0x714260AD)
  const AFTER_10 := Regs(0x8C87346B, 0x8E04ECB9, 0x85A07B5F, 0xE5030380, 0x1CC92596, 0x32CA2D8C, 0x0C657A79, 0x9B27A401)
  const AFTER_11 := Regs(0x4798A3F4, 0x8C87346B, 0x8E04ECB9, 0x85A07B5F, 0x436B23E8, 0x1CC92596, 0x32CA2D8C, 0x0C657A79)
  const AFTER_12 := Regs(0xF71FC5A9, 0x4798A3F4, 0x8C87346B, 0x8E04ECB9, 0x816FD6E9, 0x436B23E8, 0x1CC92596, 0x32CA2D8C)
  const AFTER_13 := Regs(0x87912990, 0xF71FC5A9, 0x4798A3F4, 0x8C87346B, 0x1E578218, 0x816FD6E9, 0x436B23E8, 0x1CC92596)
  const AFTER_14 := Regs(0xD932EB16, 0x87912990, 0xF71FC5A9, 0x4798A3F4, 0x745A48DE, 0x1E578218, 0x816FD6E9, 0x436B23E8)
  const AFTER_15 := Regs(0xC0645FDE, 0xD932EB16, 0x87912990, 0xF71FC5A9, 0x0B92F20C, 0x745A48DE, 0x1E578218, 0x816FD6E9)
  const AFTER_16 := Regs(0xB0FA238E, 0xC0645FDE, 0xD932EB16, 0x87912990, 0x07590DCD, 0x0B92F20C, 0x745A48DE, 0x1E578218)
  const AFTER_17 := Regs(0x21DA9A9B, 0xB0FA238E, 0xC0645FDE, 0xD932EB16, 0x8034229C, 0x07590DCD, 0x0B92F20C, 0x745A48DE)
  const AFTER_18 := Regs(0xC2FBD9D1, 0x21DA9A9B, 0xB0FA238E, 0xC0645FDE, 0x846EE454, 0x8034229C, 0x07590DCD, 0x0B92F20C)
  const AFTER_19 := Regs(0xFE777BBF, 0xC2FBD9D1, 0x21DA9A9B, 0xB0FA238E, 0xCC899961, 0x846EE454, 0x8034229C, 0x07590DCD)
  const AFTER_20 := Regs(0xE1F20C33, 0xFE777BBF, 0xC2FBD9D1, 0x21DA9A9B, 0xB0638179, 0xCC899961, 0x846EE454, 0x8034229C)
  const AFTER_21 := Regs(0x9DC68B63, 0xE1F20C33, 0xFE777BBF, 0xC2FBD9D1, 0x8ADA8930, 0xB0638179, 0xCC899961, 0x846EE454)
  const AFTER_22 := Regs(0xC2606D6D, 0x9DC68B63, 0xE1F20C33, 0xFE777BBF, 0xE1257970, 0x8ADA8930, 0xB0638179, 0xCC899961)
  const AFTER_23 := Regs(0xA7A3623F, 0xC2606D6D, 0x9DC68B63, 0xE1F20C33, 0x49F5114A, 0xE1257970, 0x8ADA8930, 0xB0638179)
  const AFTER_24 := Regs(0xC5D53D8D, 0xA7A3623F, 0xC2606D6D, 0x9DC68B63, 0xAA47C347, 0x49F5114A, 0xE1257970, 0x8ADA8930)
  const AFTER_25 := Regs(0x1C2C2838, 0xC5D53D8D, 0xA7A3623F, 0xC2606D6D, 0x2823EF91, 0xAA47C347, 0x49F5114A, 0xE1257970)
  const AFTER_26 := Regs(0xCDE8037D, 0x1C2C2838, 0xC5D53D8D, 0xA7A3623F, 0x14383D8E, 0x2823EF91, 0xAA47C347, 0x49F5114A)
  const AFTER_27 := Regs(0xB62EC4BC, 0xCDE8037D, 0x1C2C2838, 0xC5D53D8D, 0xC74C6516, 0x14383D8E, 0x2823EF91, 0xAA47C347)
  const AFTER_28 := Regs(0x77D37528, 0xB62EC4BC, 0xCDE8037D, 0x1C2C2838, 0xEDFFBFF8, 0xC74C6516, 0x14383D8E, 0x2823EF91)
  const AFTER_29 := Regs(0x363482C9, 0x77D37528, 0xB62EC4BC, 0xCDE8037D, 0x6112A3B7, 0xEDFFBFF8, 0xC74C6516, 0x14383D8E)
  const AFTER_30 := Regs(0xA0060B30, 0x363482C9, 0x77D37528, 0xB62EC4BC, 0xADE79437, 0x6112A3B7, 0xEDFFBFF8, 0xC74C6516)
  const AFTER_31 := Regs(0xEA992A22, 0xA0060B30, 0x363482C9, 0x77D37528, 0x0109AB3A, 0xADE79437, 0x6112A3B7, 0xEDFFBFF8)
  const AFTER_32 := Regs(0x73B33BF5, 0xEA992A22, 0xA0060B30, 0x363482C9, 0xBA591112, 0x0109AB3A, 0xADE79437, 0x6112A3B7)
  const AFTER_33 := Regs(0x98E12507, 0x73B33BF5, 0xEA992A22, 0xA0060B30, 0x9CD9F5F6, 0xBA591112, 0x0109AB3A, 0xADE79437)
  const AFTER_34 := Regs(0xFE604DF5, 0x98E12507, 0x73B33BF5, 0xEA992A22, 0x59249DD3, 0x9CD9F5F6, 0xBA591112, 0x0109AB3A)
  const AFTER_35 := Regs(0xA9A7738C, 0xFE604DF5, 0x98E12507, 0x73B33BF5, 0x085F3833, 0x59249DD3, 0x9CD9F5F6, 0xBA591112)
  const AFTER_36 := Regs(0x65A0CFE4, 0xA9A7738C, 0xFE604DF5, 0x98E12507, 0xF4B002D6, 0x085F3833, 0x59249DD3, 0x9CD9F5F6)
  const AFTER_37 := Regs(0x41A65CB1, 0x65A0CFE4, 0xA9A7738C, 0xFE604DF5, 0x0772A26B, 0xF4B002D6, 0x085F3833, 0x59249DD3)
  const AFTER_38 := Regs(0x34DF1604, 0x41A65CB1, 0x65A0CFE4, 0xA9A7738C, 0xA507A53D, 0x0772A26B, 0xF4B002D6, 0x085F3833)
  const AFTER_39 := Regs(0x6DC57A8A, 0x34DF1604, 0x41A65CB1, 0x65A0CFE4, 0xF0781BC8, 0xA507A53D, 0x0772A26B, 0xF4B002D6)
  const AFTER_40 := Regs(0x79EA687A, 0x6DC57A8A, 0x34DF1604, 0x41A65CB1, 0x1EFBC0A0, 0xF0781BC8, 0xA507A53D, 0x0772A26B)
  const AFTER_41 := Regs(0xD6670766, 0x79EA687A, 0x6DC57A8A, 0x34DF1604, 0x26352D63, 0x1EFBC0A0, 0xF0781BC8, 0xA507A53D)
  const AFTER_42 := Regs(0xDF46652F, 0xD6670766, 0x79EA687A, 0x6DC57A8A, 0x838B2711, 0x26352D63, 0x1EFBC0A0, 0xF0781BC8)
  const AFTER_43 := Regs(0x17AA0DFE, 0xDF46652F, 0xD6670766, 0x79EA687A, 0xDECD4715, 0x838B2711, 0x26352D63, 0x1EFBC0A0)
  const AFTER_44 := Regs(0x9D4BAF93, 0x17AA0DFE, 0xDF46652F, 0xD6670766, 0xFDA24C2E, 0xDECD4715, 0x838B2711, 0x26352D63)
  const AFTER_45 := Regs(0x26628815, 0x9D4BAF93, 0x17AA0DFE, 0xDF46652F, 0xA80F11F0, 0xFDA24C2E, 0xDECD4715, 0x838B2711)
  const AFTER_46 := Regs(0x72AB4B91, 0x26628815, 0x9D4BAF93, 0x17AA0DFE, 0xB7755DA1, 0xA80F11F0, 0xFDA24C2E, 0xDECD4715)
  const AFTER_47 := Regs(0xA14C14B0, 0x72AB4B91, 0x26628815, 0x9D4BAF93, 0xD57B94A9, 0xB7755DA1, 0xA80F11F0, 0xFDA24C2E)
  const AFTER_48 := Regs(0x4172328D, 0xA14C14B0, 0x72AB4B91, 0x26628815, 0xFECF0BC6, 0xD57B94A9, 0xB7755DA1, 0xA80F11F0)
  const AFTER_49 := Regs(0x05757CEB, 0x4172328D, 0xA14C14B0, 0x72AB4B91, 0xBD714038, 0xFECF0BC6, 0xD57B94A9, 0xB7755DA1)
  const AFTER_50 := Regs(0xF11BFAA8, 0x05757CEB, 0x4172328D, 0xA14C14B0, 0x6E5C390C, 0xBD714038, 0xFECF0BC6, 0xD57B94A9)
  const AFTER_51 := Regs(0x7A0508A1, 0xF11BFAA8, 0x05757CEB, 0x4172328D, 0x52F1CCF7, 0x6E5C390C, 0xBD714038, 0xFECF0BC6)
  const AFTER_52 := Regs(0x886E7A22, 0x7A0508A1, 0xF11BFAA8, 0x05757CEB, 0x49231C1E, 0x52F1CCF7, 0x6E5C390C, 0xBD714038)
  const AFTER_53 := Regs(0x101FD28F, 0x886E7A22, 0x7A0508A1, 0xF11BFAA8, 0x529E7D00, 0x49231C1E, 0x52F1CCF7, 0x6E5C390C)
  const AFTER_54 := Regs(0xF5702FDB, 0x101FD28F, 0x886E7A22, 0x7A0508A1, 0x9F4787C3, 0x529E7D00, 0x49231C1E, 0x52F1CCF7)
  const AFTER_55 := Regs(0x3EC45CDB, 0xF5702FDB, 0x101FD28F, 0x886E7A22, 0xE50E1B4F, 0x9F4787C3, 0x529E7D00, 0x49231C1E)
  const AFTER_56 := Regs(0x38CC9913, 0x3EC45CDB, 0xF5702FDB, 0x101FD28F, 0x54CB266B, 0xE50E1B4F, 0x9F4787C3, 0x529E7D00)
  const AFTER_57 := Regs(0xFCD1887B, 0x38CC9913, 0x3EC45CDB, 0xF5702FDB, 0x9B5E906C, 0x54CB266B, 0xE50E1B4F, 0x9F4787C3)
  const AFTER_58 := Regs(0xC062D46F, 0xFCD1887B, 0x38CC9913, 0x3EC45CDB, 0x7E44008E, 0x9B5E906C, 0x54CB266B, 0xE50E1B4F)
  const AFTER_59 := Regs(0xFFB70472, 0xC062D46F, 0xFCD1887B, 0x38CC9913, 0x6D83BFC6, 0x7E44008E, 0x9B5E906C, 0x54CB266B)
  const AFTER_60 := Regs(0xB6AE8FFF, 0xFFB70472, 0xC062D46F, 0xFCD1887B, 0xB21BAD3D, 0x6D83BFC6, 0x7E44008E, 0x9B5E906C)
  const AFTER_61 := Regs(0xB85E2CE9, 0xB6AE8FFF, 0xFFB70472, 0xC062D46F, 0x961F4894, 0xB21BAD3D, 0x6D83BFC6, 0x7E44008E)
  const AFTER_62 := Regs(0x04D24D6C, 0xB85E2CE9, 0xB6AE8FFF, 0xFFB70472, 0x948D25B6, 0x961F4894, 0xB21BAD3D, 0x6D83BFC6)
  const AFTER_63 := Regs(0xD39A2165, 0x04D24D6C, 0xB85E2CE9, 0xB6AE8FFF, 0xFB121210, 0x948D25B6, 0x961F4894, 0xB21BAD3D)
  const AFTER_64 := Regs(0x506E3058, 0xD39A2165, 0x04D24D6C, 0xB85E2CE9, 0x5EF50F24, 0xFB121210, 0x948D25B6, 0x961F4894)

  lemma NextRound(t: nat)
    requires t < 64
    ensures After(BLOCK, H256, t + 1) == Round(t, After(BLOCK, H256, t), W(BLOCK, t))
  {
  }

  lemma NoRounds()
    ensures After(BLOCK, H256, 0) == H256
  {
  }

  lemma Constants0()
    ensures K(0) == 0x428A2F98 && K(1) == 0x71374491 && K(2) == 0xB5C0FBCF && K(3) == 0xE9B5DBA5
    ensures K(4) == 0x3956C25B && K(5) == 0x59F111F1 && K(6) == 0x923F82A4 && K(7) == 0xAB1C5ED5
  {
  }

  lemma Turned0()
    ensures Round(0, H256, 0x61626380) == AFTER_1
    ensures Round(1, AFTER_1, 0x00000000) == AFTER_2
    ensures Round(2, AFTER_2, 0x00000000) == AFTER_3
    ensures Round(3, AFTER_3, 0x00000000) == AFTER_4
    ensures Round(4, AFTER_4, 0x00000000) == AFTER_5
    ensures Round(5, AFTER_5, 0x00000000) == AFTER_6
    ensures Round(6, AFTER_6, 0x00000000) == AFTER_7
    ensures Round(7, AFTER_7, 0x00000000) == AFTER_8
  {
    hide K;
    Constants0();
  }

  lemma Constants1()
    ensures K(8) == 0xD807AA98 && K(9) == 0x12835B01 && K(10) == 0x243185BE && K(11) == 0x550C7DC3
    ensures K(12) == 0x72BE5D74 && K(13) == 0x80DEB1FE && K(14) == 0x9BDC06A7 && K(15) == 0xC19BF174
  {
  }

  lemma Turned1()
    ensures Round(8, AFTER_8, 0x00000000) == AFTER_9
    ensures Round(9, AFTER_9, 0x00000000) == AFTER_10
    ensures Round(10, AFTER_10, 0x00000000) == AFTER_11
    ensures Round(11, AFTER_11, 0x00000000) == AFTER_12
    ensures Round(12, AFTER_12, 0x00000000) == AFTER_13
    ensures Round(13, AFTER_13, 0x00000000) == AFTER_14
    ensures Round(14, AFTER_14, 0x00000000) == AFTER_15
    ensures Round(15, AFTER_15, 0x00000018) == AFTER_16
  {
    hide K;
    Constants1();
  }

  lemma Constants2()
    ensures K(16) == 0xE49B69C1 && K(17) == 0xEFBE4786 && K(18) == 0x0FC19DC6 && K(19) == 0x240CA1CC
    ensures K(20) == 0x2DE92C6F && K(21) == 0x4A7484AA && K(22) == 0x5CB0A9DC && K(23) == 0x76F988DA
  {
  }

  lemma Turned2()
    ensures Round(16, AFTER_16, 0x61626380) == AFTER_17
    ensures Round(17, AFTER_17, 0x000F0000) == AFTER_18
    ensures Round(18, AFTER_18, 0x7DA86405) == AFTER_19
    ensures Round(19, AFTER_19, 0x600003C6) == AFTER_20
    ensures Round(20, AFTER_20, 0x3E9D7B78) == AFTER_21
    ensures Round(21, AFTER_21, 0x0183FC00) == AFTER_22
    ensures Round(22, AFTER_22, 0x12DCBFDB) == AFTER_23
    ensures Round(23, AFTER_23, 0xE2E2C38E) == AFTER_24
  {
    hide K;
    Constants2();
  }

  lemma Constants3()
    ensures K(24) == 0x983E5152 && K(25) == 0xA831C66D && K(26) == 0xB00327C8 && K(27) == 0xBF597FC7
    ensures K(28) == 0xC6E00BF3 && K(29) == 0xD5A79147 && K(30) == 0x06CA6351 && K(31) == 0x14292967
  {
  }

  lemma Turned3()
    ensures Round(24, AFTER_24, 0xC8215C1A) == AFTER_25
    ensures Round(25, AFTER_25, 0xB73679A2) == AFTER_26
    ensures Round(26, AFTER_26, 0xE5BC3909) == AFTER_27
    ensures Round(27, AFTER_27, 0x32663C5B) == AFTER_28
    ensures Round(28, AFTER_28, 0x9D209D67) == AFTER_29
    ensures Round(29, AFTER_29, 0xEC8726CB) == AFTER_30
    ensures Round(30, AFTER_30, 0x702138A4) == AFTER_31
    ensures Round(31, AFTER_31, 0xD3B7973B) == AFTER_32
  {
    hide K;
    Constants3();
  }

  lemma Constants4()
    ensures K(32) == 0x27B70A85 && K(33) == 0x2E1B2138 && K(34) == 0x4D2C6DFC && K(35) == 0x53380D13
    ensures K(36) == 0x650A7354 && K(37) == 0x766A0ABB && K(38) == 0x81C2C92E && K(39) == 0x92722C85
  {
  }

  lemma Turned4()
    ensures Round(32, AFTER_32, 0x93F5997F) == AFTER_33
    ensures Round(33, AFTER_33, 0x3B68BA73) == AFTER_34
    ensures Round(34, AFTER_34, 0xAFF4FFC1) == AFTER_35
    ensures Round(35, AFTER_35, 0xF10A5C62) == AFTER_36
    ensures Round(36, AFTER_36, 0x0A8B3996) == AFTER_37
    ensures Round(37, AFTER_37, 0x72AF830A) == AFTER_38
    ensures Round(38, AFTER_38, 0x9409E33E) == AFTER_39
    ensures Round(39, AFTER_39, 0x24641522) == AFTER_40
  {
    hide K;
    Constants4();
  }

  lemma Constants5()
    ensures K(40) == 0xA2BFE8A1 && K(41) == 0xA81A664B && K(42) == 0xC24B8B70 && K(43) == 0xC76C51A3
    ensures K(44) == 0xD192E819 && K(45) == 0xD6990624 && K(46) == 0xF40E3585 && K(47) == 0x106AA070
  {
  }

  lemma Turned5()
    ensures Round(40, AFTER_40, 0x9F47BF94) == AFTER_41
    ensures Round(41, AFTER_41, 0xF0A64F5A) == AFTER_42
    ensures Round(42, AFTER_42, 0x3E246A79) == AFTER_43
    ensures Round(43, AFTER_43, 0x27333BA3) == AFTER_44
    ensures Round(44, AFTER_44, 0x0C4763F2) == AFTER_45
    ensures Round(45, AFTER_45, 0x840ABF27) == AFTER_46
    ensures Round(46, AFTER_46, 0x7A290D5D) == AFTER_47
    ensures Round(47, AFTER_47, 0x065C43DA) == AFTER_48
  {
    hide K;
    Constants5();
  }

  lemma Constants6()
    ensures K(48) == 0x19A4C116 && K(49) == 0x1E376C08 && K(50) == 0x2748774C && K(51) == 0x34B0BCB5
    ensures K(52) == 0x391C0CB3 && K(53) == 0x4ED8AA4A && K(54) == 0x5B9CCA4F && K(55) == 0x682E6FF3
  {
  }

  lemma Turned6()
    ensures Round(48, AFTER_48, 0xFB3E89CB) == AFTER_49
    ensures Round(49, AFTER_49, 0xCC7617DB) == AFTER_50
    ensures Round(50, AFTER_50, 0xB9E66C34) == AFTER_51
    ensures Round(51, AFTER_51, 0xA9993667) == AFTER_52
    ensures Round(52, AFTER_52, 0x84BADEDD) == AFTER_53
    ensures Round(53, AFTER_53, 0xC21462BC) == AFTER_54
    ensures Round(54, AFTER_54, 0x1487472C) == AFTER_55
    ensures Round(55, AFTER_55, 0xB20F7A99) == AFTER_56
  {
    hide K;
    Constants6();
  }

  lemma Constants7()
    ensures K(56) == 0x748F82EE && K(57) == 0x78A5636F && K(58) == 0x84C87814 && K(59) == 0x8CC70208
    ensures K(60) == 0x90BEFFFA && K(61) == 0xA4506CEB && K(62) == 0xBEF9A3F7 && K(63) == 0xC67178F2
  {
  }

  lemma Turned7()
    ensures Round(56, AFTER_56, 0xEF57B9CD) == AFTER_57
    ensures Round(57, AFTER_57, 0xEBE6B238) == AFTER_58
    ensures Round(58, AFTER_58, 0x9FE3095E) == AFTER_59
    ensures Round(59, AFTER_59, 0x78BC8D4B) == AFTER_60
    ensures Round(60, AFTER_60, 0xA43FCF15) == AFTER_61
    ensures Round(61, AFTER_61, 0x668B2FF8) == AFTER_62
    ensures Round(62, AFTER_62, 0xEEABA2CC) == AFTER_63
    ensures Round(63, AFTER_63, 0x12B1EDEB) == AFTER_64
  {
    hide K;
    Constants7();
  }

  lemma Rounds0()
    ensures After(BLOCK, H256, 16) == AFTER_16
  {
    hide After, W, Round;
    NoRounds();
    Words0();
    Turned0();
    Turned1();
    NextRound(0); NextRound(1); NextRound(2); NextRound(3);
    NextRound(4); NextRound(5); NextRound(6); NextRound(7);
    NextRound(8); NextRound(9); NextRound(10); NextRound(11);
    NextRound(12); NextRound(13); NextRound(14); NextRound(15);
  }

  lemma Rounds1()
    ensures After(BLOCK, H256, 32) == AFTER_32
  {
    hide After, W, Round;
    Rounds0();
    Words1();
    Turned2();
    Turned3();
    NextRound(16); NextRound(17); NextRound(18); NextRound(19);
    NextRound(20); NextRound(21); NextRound(22); NextRound(23);
    NextRound(24); NextRound(25); NextRound(26); NextRound(27);
    NextRound(28); NextRound(29); NextRound(30); NextRound(31);
  }

  lemma Rounds2()
    ensures After(BLOCK, H256, 48) == AFTER_48
  {
    hide After, W, Round;
    Rounds1();
    Words2();
    Turned4();
    Turned5();
    NextRound(32); NextRound(33); NextRound(34); NextRound(35);
    NextRound(36); NextRound(37); NextRound(38); NextRound(39);
    NextRound(40); NextRound(41); NextRound(42); NextRound(43);
    NextRound(44); NextRound(45); NextRound(46); NextRound(47);
  }

  lemma Rounds3()
    ensures After(BLOCK, H256, 64) == AFTER_64
  {
    hide After, W, Round;
    Rounds2();
    Words3();
    Turned6();
    Turned7();
    NextRound(48); NextRound(49); NextRound(50); NextRound(51);
    NextRound(52); NextRound(53); NextRound(54); NextRound(55);
    NextRound(56); NextRound(57); NextRound(58); NextRound(59);
    NextRound(60); NextRound(61); NextRound(62); NextRound(63);
  }

  lemma LastSums()
    ensures var h, r := H256, AFTER_64;
      Regs(Plus(h.a, r.a), Plus(h.b, r.b), Plus(h.c, r.c), Plus(h.d, r.d),
      Plus(h.e, r.e), Plus(h.f, r.f), Plus(h.g, r.g), Plus(h.h, r.h)) == Regs(0xBA7816BF, 0x8F01CFEA, 0x414140DE, 0x5DAE2223, 0xB00361A3, 0x96177A9C, 0xB410FF61, 0xF20015AD)
  {
  }

  lemma DigestBytes()
    ensures Digest(Regs(0xBA7816BF, 0x8F01CFEA, 0x414140DE, 0x5DAE2223, 0xB00361A3, 0x96177A9C, 0xB410FF61, 0xF20015AD), false)
         == [0xBA, 0x78, 0x16, 0xBF, 0x8F, 0x01, 0xCF, 0xEA, 0x41, 0x41, 0x40, 0xDE, 0x5D, 0xAE, 0x22, 0x23]
          + [0xB0, 0x03, 0x61, 0xA3, 0x96, 0x17, 0x7A, 0x9C, 0xB4, 0x10, 0xFF, 0x61, 0xF2, 0x00, 0x15, 0xAD]
  {
  }

  // The first example of FIPS 180-2, Appendix B.
  lemma Sha256OfAbc()
    ensures Sha2([0x61, 0x62, 0x63], false)
         == [0xBA, 0x78, 0x16, 0xBF, 0x8F, 0x01, 0xCF, 0xEA, 0x41, 0x41, 0x40, 0xDE, 0x5D, 0xAE, 0x22, 0x23]
          + [0xB0, 0x03, 0x61, 0xA3, 0x96, 0x17, 0x7A, 0x9C, 0xB4, 0x10, 0xFF, 0x61, 0xF2, 0x00, 0x15, 0xAD]
  {
    hide After, Plus, Digest, Words, Pad, H256, AFTER_64;
    PaddedAbc();
    FoldOne(Compress, H256, Pad(ABC));
    Rounds3();
    LastSums();
    DigestBytes();
  }

  // SHA-224 is cut short after seven words.
  lemma Truncated(r: Regs)
    ensures Digest(r, true) == Digest(r, false)[..28]
  {
  }
}
