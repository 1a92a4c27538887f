// What the functions and constants of the hash specifications are, told apart from how they are
// written: rotations as numbers, Boolean functions bit by bit, constants by the roots FIPS 180-4 names.
module ShaRoots {
  // k is the integer part of the square root of n.
  predicate SquareRoot(n: nat, k: nat) { k * k <= n < (k + 1) * (k + 1) }

  predicate CubeRoot(n: nat, k: nat) { k * k * k <= n < (k + 1) * (k + 1) * (k + 1) }
}

module Sha1Meaning {
  import opened Sha
  import opened Sha1Spec
  import opened ShaRoots

  lemma Around1(x: word, h: word, l: word, y: word)
    requires h == x >> 31 && l == x & 0x7FFF_FFFF && y == (x << 1) | (x >> 31)
    ensures x as nat == 0x8000_0000 * (h as nat) + l as nat && y as nat == 2 * (l as nat) + h as nat
    ensures h < 2 && l < 0x8000_0000
  {
  }

  lemma Around5(x: word, h: word, l: word, y: word)
    requires h == x >> 27 && l == x & 0x7FF_FFFF && y == (x << 5) | (x >> 27)
    ensures x as nat == 0x800_0000 * (h as nat) + l as nat && y as nat == 32 * (l as nat) + h as nat
    ensures h < 32 && l < 0x800_0000
  {
  }

  lemma Around2(x: word, h: word, l: word, y: word)
    requires h == x >> 30 && l == x & 0x3FFF_FFFF && y == (x << 2) | (x >> 30)
    ensures x as nat == 0x4000_0000 * (h as nat) + l as nat && y as nat == 4 * (l as nat) + h as nat
    ensures h < 4 && l < 0x4000_0000
  {
  }

  lemma BackBy2(x: word, y: word)
    requires y == (x << 30) | (x >> 2)
    ensures x == (y << 2) | (y >> 30)
  {
  }

  // Each rotation, as a number: what is shifted out at the top comes back at the bottom.
  lemma RotationBy1(x: word, y: word)
    requires y == (x << 1) | (x >> 31)
    ensures y as nat == 2 * (x as nat) % TWO_32 + x as nat / 0x8000_0000
  {
    var h, l := x >> 31, x & 0x7FFF_FFFF;
    Around1(x, h, l, y);
    Turned1(x as nat, h as nat, l as nat);
  }

  lemma Turned1(x: nat, h: nat, l: nat)
    requires x == 0x8000_0000 * h + l && l < 0x8000_0000 && h < 2
    ensures 2 * x % TWO_32 + x / 0x8000_0000 == 2 * l + h
  {
  }

  lemma RotationBy5(x: word, y: word)
    requires y == (x << 5) | (x >> 27)
    ensures y as nat == 32 * (x as nat) % TWO_32 + x as nat / 0x800_0000
  {
    var h, l := x >> 27, x & 0x7FF_FFFF;
    Around5(x, h, l, y);
    Turned5(x as nat, h as nat, l as nat);
  }

  lemma Turned5(x: nat, h: nat, l: nat)
    requires x == 0x800_0000 * h + l && l < 0x800_0000 && h < 32
    ensures 32 * x % TWO_32 + x / 0x800_0000 == 32 * l + h
  {
    assert 32 * x == TWO_32 * h + 32 * l;
  }

  lemma RotationBy30(x: word, y: word)
    requires y == (x << 30) | (x >> 2)
    ensures y as nat == 0x4000_0000 * (x as nat) % TWO_32 + x as nat / 4
  {
    var h, l := y >> 30, y & 0x3FFF_FFFF;
    BackBy2(x, y);
    Around2(y, h, l, x);
    Turned30(x as nat, l as nat, h as nat);
  }

  lemma Turned30(x: nat, h: nat, l: nat)
    requires x == 4 * h + l && l < 4 && h < 0x4000_0000
    ensures 0x4000_0000 * x % TWO_32 + x / 4 == 0x4000_0000 * l + h
  {
    assert 0x4000_0000 * x == TWO_32 * h + 0x4000_0000 * l;
  }

  lemma RotationsAre(x: word)
    ensures Rotl1(x) as nat == 2 * (x as nat) % TWO_32 + x as nat / 0x8000_0000
    ensures Rotl5(x) as nat == 32 * (x as nat) % TWO_32 + x as nat / 0x800_0000
    ensures Rotl30(x) as nat == 0x4000_0000 * (x as nat) % TWO_32 + x as nat / 4
  {
    RotationBy1(x, Rotl1(x));
    RotationBy5(x, Rotl5(x));
    RotationBy30(x, Rotl30(x));
  }

  // The functions work bit by bit.
  lemma ChBit(x: word, y: word, z: word, i: word, r: word, a: word, b: word, c: word)
    requires i < 32 && r == (x & y) ^ (!x & z) && a == (x >> i) & 1 && b == (y >> i) & 1 && c == (z >> i) & 1
    ensures (r >> i) & 1 == (a & b) ^ ((a ^ 1) & c) && a <= 1
  {
  }

  lemma MajBit(x: word, y: word, z: word, i: word, r: word, a: word, b: word, c: word)
    requires i < 32 && r == (x & y) ^ (x & z) ^ (y & z) && a == (x >> i) & 1 && b == (y >> i) & 1 && c == (z >> i) & 1
    ensures (r >> i) & 1 == (a & b) ^ (a & c) ^ (b & c) && a <= 1 && b <= 1 && c <= 1
  {
  }

  lemma Small(a: word, b: word, c: word, x: word, y: word, z: word, i: word)
    requires i < 32 && a == (x >> i) & 1 && b == (y >> i) & 1 && c == (z >> i) & 1
    ensures a <= 1 && b <= 1 && c <= 1
  {
  }

  lemma BitCases(a: word, b: word, c: word)
    requires a <= 1 && b <= 1 && c <= 1
    ensures (a & b) ^ ((a ^ 1) & c) == (if a == 1 then b else c)
    ensures (a & b) ^ (a & c) ^ (b & c) == if a + b + c >= 2 then 1 else 0
  {
  }

  // Section 4.1.1: of each bit, the choice of x between y and z, and the majority.
  lemma ChIs(x: word, y: word, z: word, i: word, r: word, a: word, b: word, c: word)
    requires i < 32 && a == (x >> i) & 1 && b == (y >> i) & 1 && c == (z >> i) & 1 && r == Ch(x, y, z)
    ensures (r >> i) & 1 == if a == 1 then b else c
  {
    ChBit(x, y, z, i, r, a, b, c);
    Small(a, b, c, x, y, z, i);
    BitCases(a, b, c);
  }

  lemma MajIs(x: word, y: word, z: word, i: word, r: word, a: word, b: word, c: word)
    requires i < 32 && a == (x >> i) & 1 && b == (y >> i) & 1 && c == (z >> i) & 1 && r == Maj(x, y, z)
    ensures (r >> i) & 1 == if a + b + c >= 2 then 1 else 0
  {
    MajBit(x, y, z, i, r, a, b, c);
    Small(a, b, c, x, y, z, i);
    BitCases(a, b, c);
  }

  // Section 4.2.1: the square roots of 2, 3, 5 and 10, times 2^30.
  lemma ConstantsAre(t: nat)
    ensures SquareRoot((if t < 20 then 2 else if t < 40 then 3 else if t < 60 then 5 else 10) * 0x1000_0000_0000_0000, K(t) as nat)
  {
  }

  // Section 5.3.1: the bytes of the initial value, low bytes first, count up and down, and on.
  lemma InitialIs()
    ensures BytesOf(H0.a) == [0x67, 0x45, 0x23, 0x01] && BytesOf(H0.b) == [0xEF, 0xCD, 0xAB, 0x89]
    ensures BytesOf(H0.c) == [0x98, 0xBA, 0xDC, 0xFE] && BytesOf(H0.d) == [0x10, 0x32, 0x54, 0x76]
    ensures BytesOf(H0.e) == [0xC3, 0xD2, 0xE1, 0xF0]
  {
  }
}

module Sha2Meaning {
  import opened Probing
  import opened Sha
  import opened Sha2Spec
  import opened ShaRoots

  // ---- the functions of section 4.1.2

  lemma XorBits(a: word, b: word, c: word, i: word)
    requires i < 32
    ensures ((a ^ b ^ c) >> i) & 1 == ((a >> i) & 1) ^ ((b >> i) & 1) ^ ((c >> i) & 1)
  {
  }

  // Bit i of each is the exclusive or of the bits that the rotations and the shift bring there.
  lemma Big0Parts(x: word, a: word, b: word, c: word, i: word)
    requires i < 32 && a == (x >> 2) | (x << 30) && b == (x >> 13) | (x << 19) && c == (x >> 22) | (x << 10)
    ensures (a >> i) & 1 == (x >> ((i + 2) % 32)) & 1
    ensures (b >> i) & 1 == (x >> ((i + 13) % 32)) & 1
    ensures (c >> i) & 1 == (x >> ((i + 22) % 32)) & 1
  {
  }

  lemma Big0Is(x: word, i: word)
    requires i < 32
    ensures (Big0(x) >> i) & 1 == ((x >> ((i + 2) % 32)) & 1) ^ ((x >> ((i + 13) % 32)) & 1) ^ ((x >> ((i + 22) % 32)) & 1)
  {
    var a, b, c := (x >> 2) | (x << 30), (x >> 13) | (x << 19), (x >> 22) | (x << 10);
    Big0Parts(x, a, b, c, i);
    XorBits(a, b, c, i);
  }

  lemma Big1Parts(x: word, a: word, b: word, c: word, i: word)
    requires i < 32 && a == (x >> 6) | (x << 26) && b == (x >> 11) | (x << 21) && c == (x >> 25) | (x << 7)
    ensures (a >> i) & 1 == (x >> ((i + 6) % 32)) & 1
    ensures (b >> i) & 1 == (x >> ((i + 11) % 32)) & 1
    ensures (c >> i) & 1 == (x >> ((i + 25) % 32)) & 1
  {
  }

  lemma Big1Is(x: word, i: word)
    requires i < 32
    ensures (Big1(x) >> i) & 1 == ((x >> ((i + 6) % 32)) & 1) ^ ((x >> ((i + 11) % 32)) & 1) ^ ((x >> ((i + 25) % 32)) & 1)
  {
    var a, b, c := (x >> 6) | (x << 26), (x >> 11) | (x << 21), (x >> 25) | (x << 7);
    Big1Parts(x, a, b, c, i);
    XorBits(a, b, c, i);
  }

  lemma Small0Parts(x: word, a: word, b: word, c: word, i: word)
    requires i < 32 && a == (x >> 7) | (x << 25) && b == (x >> 18) | (x << 14) && c == x >> 3
    ensures (a >> i) & 1 == (x >> ((i + 7) % 32)) & 1
    ensures (b >> i) & 1 == (x >> ((i + 18) % 32)) & 1
    ensures (c >> i) & 1 == if i < 29 then (x >> (i + 3)) & 1 else 0
  {
  }

  lemma Small0Is(x: word, i: word)
    requires i < 32
    ensures (Small0(x) >> i) & 1 == ((x >> ((i + 7) % 32)) & 1) ^ ((x >> ((i + 18) % 32)) & 1) ^ (if i < 29 then (x >> (i + 3)) & 1 else 0)
  {
    var a, b, c := (x >> 7) | (x << 25), (x >> 18) | (x << 14), x >> 3;
    Small0Parts(x, a, b, c, i);
    XorBits(a, b, c, i);
  }

  lemma Small1Parts(x: word, a: word, b: word, c: word, i: word)
    requires i < 32 && a == (x >> 17) | (x << 15) && b == (x >> 19) | (x << 13) && c == x >> 10
    ensures (a >> i) & 1 == (x >> ((i + 17) % 32)) & 1
    ensures (b >> i) & 1 == (x >> ((i + 19) % 32)) & 1
    ensures (c >> i) & 1 == if i < 22 then (x >> (i + 10)) & 1 else 0
  {
  }

  lemma Small1Is(x: word, i: word)
    requires i < 32
    ensures (Small1(x) >> i) & 1 == ((x >> ((i + 17) % 32)) & 1) ^ ((x >> ((i + 19) % 32)) & 1) ^ (if i < 22 then (x >> (i + 10)) & 1 else 0)
  {
    var a, b, c := (x >> 17) | (x << 15), (x >> 19) | (x << 13), x >> 10;
    Small1Parts(x, a, b, c, i);
    XorBits(a, b, c, i);
  }

  // ---- the constants of sections 4.2.2 and 5.3

  const PRIMES: seq<nat> :=
    [2, 3, 5, 7, 11, 13, 17, 19] +
    [23, 29, 31, 37, 41, 43, 47, 53] +
    [59, 61, 67, 71, 73, 79, 83, 89] +
    [97, 101, 103, 107, 109, 113, 127, 131] +
    [137, 139, 149, 151, 157, 163, 167, 173] +
    [179, 181, 191, 193, 197, 199, 211, 223] +
    [227, 229, 233, 239, 241, 251, 257, 263] +
    [269, 271, 277, 281, 283, 293, 307, 311]

  // The fraction of the cube root of p, of 32 bits: with its integer part it is the cube root of p * 2^96.
  ghost predicate CubeFraction(p: nat, k: word) {
    exists c: nat :: CubeRoot(p * 0x1_0000_0000_0000_0000_0000_0000, c * TWO_32 + k as nat)
  }

  ghost predicate SquareFraction(p: nat, k: word) {
    exists c: nat :: SquareRoot(p * TWO_64, c * TWO_32 + k as nat)
  }

  lemma Cubed(p: nat, n: nat, c: nat, k: word)
    requires CubeRoot(p * 0x1_0000_0000_0000_0000_0000_0000, n) && n == c * TWO_32 + k as nat
    ensures CubeFraction(p, k)
  {
  }

  lemma Row0()
    ensures CubeFraction(2, K(0))
    ensures CubeFraction(3, K(1))
    ensures CubeFraction(5, K(2))
    ensures CubeFraction(7, K(3))
  {
    hide CubeFraction;
    Cubed(2, 0x1_428A2F98, 1, K(0));
    Cubed(3, 0x1_71374491, 1, K(1));
    Cubed(5, 0x1_B5C0FBCF, 1, K(2));
    Cubed(7, 0x1_E9B5DBA5, 1, K(3));
  }

  lemma Row1()
    ensures CubeFraction(11, K(4))
    ensures CubeFraction(13, K(5))
    ensures CubeFraction(17, K(6))
    ensures CubeFraction(19, K(7))
  {
    hide CubeFraction;
    Cubed(11, 0x2_3956C25B, 2, K(4));
    Cubed(13, 0x2_59F111F1, 2, K(5));
    Cubed(17, 0x2_923F82A4, 2, K(6));
    Cubed(19, 0x2_AB1C5ED5, 2, K(7));
  }

  lemma Row2()
    ensures CubeFraction(23, K(8))
    ensures CubeFraction(29, K(9))
    ensures CubeFraction(31, K(10))
    ensures CubeFraction(37, K(11))
  {
    hide CubeFraction;
    Cubed(23, 0x2_D807AA98, 2, K(8));
    Cubed(29, 0x3_12835B01, 3, K(9));
    Cubed(31, 0x3_243185BE, 3, K(10));
    Cubed(37, 0x3_550C7DC3, 3, K(11));
  }

  lemma Row3()
    ensures CubeFraction(41, K(12))
    ensures CubeFraction(43, K(13))
    ensures CubeFraction(47, K(14))
    ensures CubeFraction(53, K(15))
  {
    hide CubeFraction;
    Cubed(41, 0x3_72BE5D74, 3, K(12));
    Cubed(43, 0x3_80DEB1FE, 3, K(13));
    Cubed(47, 0x3_9BDC06A7, 3, K(14));
    Cubed(53, 0x3_C19BF174, 3, K(15));
  }

  lemma Row4()
    ensures CubeFraction(59, K(16))
    ensures CubeFraction(61, K(17))
    ensures CubeFraction(67, K(18))
    ensures CubeFraction(71, K(19))
  {
    hide CubeFraction;
    Cubed(59, 0x3_E49B69C1, 3, K(16));
    Cubed(61, 0x3_EFBE4786, 3, K(17));
    Cubed(67, 0x4_0FC19DC6, 4, K(18));
    Cubed(71, 0x4_240CA1CC, 4, K(19));
  }

  lemma Row5()
    ensures CubeFraction(73, K(20))
    ensures CubeFraction(79, K(21))
    ensures CubeFraction(83, K(22))
    ensures CubeFraction(89, K(23))
  {
    hide CubeFraction;
    Cubed(73, 0x4_2DE92C6F, 4, K(20));
    Cubed(79, 0x4_4A7484AA, 4, K(21));
    Cubed(83, 0x4_5CB0A9DC, 4, K(22));
    Cubed(89, 0x4_76F988DA, 4, K(23));
  }

  lemma Row6()
    ensures CubeFraction(97, K(24))
    ensures CubeFraction(101, K(25))
    ensures CubeFraction(103, K(26))
    ensures CubeFraction(107, K(27))
  {
    hide CubeFraction;
    Cubed(97, 0x4_983E5152, 4, K(24));
    Cubed(101, 0x4_A831C66D, 4, K(25));
    Cubed(103, 0x4_B00327C8, 4, K(26));
    Cubed(107, 0x4_BF597FC7, 4, K(27));
  }

  lemma Row7()
    ensures CubeFraction(109, K(28))
    ensures CubeFraction(113, K(29))
    ensures CubeFraction(127, K(30))
    ensures CubeFraction(131, K(31))
  {
    hide CubeFraction;
    Cubed(109, 0x4_C6E00BF3, 4, K(28));
    Cubed(113, 0x4_D5A79147, 4, K(29));
    Cubed(127, 0x5_06CA6351, 5, K(30));
    Cubed(131, 0x5_14292967, 5, K(31));
  }

  lemma Row8()
    ensures CubeFraction(137, K(32))
    ensures CubeFraction(139, K(33))
    ensures CubeFraction(149, K(34))
    ensures CubeFraction(151, K(35))
  {
    hide CubeFraction;
    Cubed(137, 0x5_27B70A85, 5, K(32));
    Cubed(139, 0x5_2E1B2138, 5, K(33));
    Cubed(149, 0x5_4D2C6DFC, 5, K(34));
    Cubed(151, 0x5_53380D13, 5, K(35));
  }

  lemma Row9()
    ensures CubeFraction(157, K(36))
    ensures CubeFraction(163, K(37))
    ensures CubeFraction(167, K(38))
    ensures CubeFraction(173, K(39))
  {
    hide CubeFraction;
    Cubed(157, 0x5_650A7354, 5, K(36));
    Cubed(163, 0x5_766A0ABB, 5, K(37));
    Cubed(167, 0x5_81C2C92E, 5, K(38));
    Cubed(173, 0x5_92722C85, 5, K(39));
  }

  lemma Row10()
    ensures CubeFraction(179, K(40))
    ensures CubeFraction(181, K(41))
    ensures CubeFraction(191, K(42))
    ensures CubeFraction(193, K(43))
  {
    hide CubeFraction;
    Cubed(179, 0x5_A2BFE8A1, 5, K(40));
    Cubed(181, 0x5_A81A664B, 5, K(41));
    Cubed(191, 0x5_C24B8B70, 5, K(42));
    Cubed(193, 0x5_C76C51A3, 5, K(43));
  }

  lemma Row11()
    ensures CubeFraction(197, K(44))
    ensures CubeFraction(199, K(45))
    ensures CubeFraction(211, K(46))
    ensures CubeFraction(223, K(47))
  {
    hide CubeFraction;
    Cubed(197, 0x5_D192E819, 5, K(44));
    Cubed(199, 0x5_D6990624, 5, K(45));
    Cubed(211, 0x5_F40E3585, 5, K(46));
    Cubed(223, 0x6_106AA070, 6, K(47));
  }

  lemma Row12()
    ensures CubeFraction(227, K(48))
    ensures CubeFraction(229, K(49))
    ensures CubeFraction(233, K(50))
    ensures CubeFraction(239, K(51))
  {
    hide CubeFraction;
    Cubed(227, 0x6_19A4C116, 6, K(48));
    Cubed(229, 0x6_1E376C08, 6, K(49));
    Cubed(233, 0x6_2748774C, 6, K(50));
    Cubed(239, 0x6_34B0BCB5, 6, K(51));
  }

  lemma Row13()
    ensures CubeFraction(241, K(52))
    ensures CubeFraction(251, K(53))
    ensures CubeFraction(257, K(54))
    ensures CubeFraction(263, K(55))
  {
    hide CubeFraction;
    Cubed(241, 0x6_391C0CB3, 6, K(52));
    Cubed(251, 0x6_4ED8AA4A, 6, K(53));
    Cubed(257, 0x6_5B9CCA4F, 6, K(54));
    Cubed(263, 0x6_682E6FF3, 6, K(55));
  }

  lemma Row14()
    ensures CubeFraction(269, K(56))
    ensures CubeFraction(271, K(57))
    ensures CubeFraction(277, K(58))
    ensures CubeFraction(281, K(59))
  {
    hide CubeFraction;
    Cubed(269, 0x6_748F82EE, 6, K(56));
    Cubed(271, 0x6_78A5636F, 6, K(57));
    Cubed(277, 0x6_84C87814, 6, K(58));
    Cubed(281, 0x6_8CC70208, 6, K(59));
  }

  lemma Row15()
    ensures CubeFraction(283, K(60))
    ensures CubeFraction(293, K(61))
    ensures CubeFraction(307, K(62))
    ensures CubeFraction(311, K(63))
  {
    hide CubeFraction;
    Cubed(283, 0x6_90BEFFFA, 6, K(60));
    Cubed(293, 0x6_A4506CEB, 6, K(61));
    Cubed(307, 0x6_BEF9A3F7, 6, K(62));
    Cubed(311, 0x6_C67178F2, 6, K(63));
  }

  // The first 32 bits of the fractions of the cube roots of the first sixty-four primes.
  lemma RoundConstantsAre()
    ensures forall t :: 0 <= t < 64 ==> CubeFraction(PRIMES[t], K(t))
  {
    hide CubeFraction, K;
    forall t | 0 <= t < 64 ensures CubeFraction(PRIMES[t], K(t)) { RoundConstantIs(t); }
  }

  lemma RoundConstantIs(t: nat)
    requires t < 64
    ensures CubeFraction(PRIMES[t], K(t))
  {
    hide CubeFraction, K, PRIMES;
    if t < 32 { EarlyConstant(t); } else { LateConstant(t); }
  }

  lemma EarlyConstant(t: nat)
    requires t < 32
    ensures CubeFraction(PRIMES[t], K(t))
  {
    hide CubeFraction, K;
    if t < 4 { Row0(); }
    else if t < 8 { Row1(); }
    else if t < 12 { Row2(); }
    else if t < 16 { Row3(); }
    else if t < 20 { Row4(); }
    else if t < 24 { Row5(); }
    else if t < 28 { Row6(); }
    else { Row7(); }
  }

  lemma LateConstant(t: nat)
    requires 32 <= t < 64
    ensures CubeFraction(PRIMES[t], K(t))
  {
    hide CubeFraction, K;
    if t < 36 { Row8(); }
    else if t < 40 { Row9(); }
    else if t < 44 { Row10(); }
    else if t < 48 { Row11(); }
    else if t < 52 { Row12(); }
    else if t < 56 { Row13(); }
    else if t < 60 { Row14(); }
    else { Row15(); }
  }

  lemma Squared(p: nat, n: nat, c: nat, k: word)
    requires SquareRoot(p * TWO_64, n) && n == c * TWO_32 + k as nat
    ensures SquareFraction(p, k)
  {
  }

  // Section 5.3.3: the first 32 bits of the fractions of the square roots of the first eight primes.
  lemma Initial256Is()
    ensures var h := H256;
            && SquareFraction(2, h.a) && SquareFraction(3, h.b) && SquareFraction(5, h.c) && SquareFraction(7, h.d)
            && SquareFraction(11, h.e) && SquareFraction(13, h.f) && SquareFraction(17, h.g) && SquareFraction(19, h.h)
  {
    hide SquareFraction;
    Squared(2, 0x1_6A09E667, 1, H256.a);
    Squared(3, 0x1_BB67AE85, 1, H256.b);
    Squared(5, 0x2_3C6EF372, 2, H256.c);
    Squared(7, 0x2_A54FF53A, 2, H256.d);
    Squared(11, 0x3_510E527F, 3, H256.e);
    Squared(13, 0x3_9B05688C, 3, H256.f);
    Squared(17, 0x4_1F83D9AB, 4, H256.g);
    Squared(19, 0x4_5BE0CD19, 4, H256.h);
  }

  // The second 32 bits of such a fraction.
  ghost predicate SecondFraction(p: nat, k: word) {
    exists c: nat :: SquareRoot(p * TWO_64 * TWO_64, c * TWO_32 + k as nat)
  }

  lemma SquaredTwice(p: nat, n: nat, c: nat, k: word)
    requires SquareRoot(p * TWO_64 * TWO_64, n) && n == c * TWO_32 + k as nat
    ensures SecondFraction(p, k)
  {
  }

  // Section 5.3.2: the second 32 bits, for the ninth to the sixteenth prime.
  lemma Initial224Is()
    ensures var h := H224;
            && SecondFraction(23, h.a) && SecondFraction(29, h.b) && SecondFraction(31, h.c) && SecondFraction(37, h.d)
            && SecondFraction(41, h.e) && SecondFraction(43, h.f) && SecondFraction(47, h.g) && SecondFraction(53, h.h)
  {
    hide SecondFraction;
    SquaredTwice(23, 0x4_CBBB9D5D_C1059ED8, 0x4_CBBB9D5D, H224.a);
    SquaredTwice(29, 0x5_629A292A_367CD507, 0x5_629A292A, H224.b);
    SquaredTwice(31, 0x5_9159015A_3070DD17, 0x5_9159015A, H224.c);
    SquaredTwice(37, 0x6_152FECD8_F70E5939, 0x6_152FECD8, H224.d);
    SquaredTwice(41, 0x6_67332667_FFC00B31, 0x6_67332667, H224.e);
    SquaredTwice(43, 0x6_8EB44A87_68581511, 0x6_8EB44A87, H224.f);
    SquaredTwice(47, 0x6_DB0C2E0D_64F98FA7, 0x6_DB0C2E0D, H224.g);
    SquaredTwice(53, 0x7_47B5481D_BEFA4FA4, 0x7_47B5481D, H224.h);
  }

  // ---- the primes

  ghost predicate Prime(n: nat) { n >= 2 && forall d :: 2 <= d < n ==> n % d != 0 }

  predicate Undivided(n: nat) {
    n % 2 != 0 && n % 3 != 0 && n % 5 != 0 && n % 7 != 0 && n % 11 != 0 && n % 13 != 0 && n % 17 != 0
  }

  lemma Primes0(n: nat)
    requires 0 <= n <= 7
    ensures Prime(n) <==> n in {2, 3, 5, 7}
  {
    assert 4 % 2 == 6 % 2 == 8 % 2 == 10 % 2 == 12 % 2 == 14 % 2 == 16 % 2 == 18 % 2 == 0 && 9 % 3 == 15 % 3 == 0;
  }

  lemma Primes1(n: nat)
    requires 8 <= n <= 19
    ensures Prime(n) <==> n in {11, 13, 17, 19}
  {
    assert 4 % 2 == 6 % 2 == 8 % 2 == 10 % 2 == 12 % 2 == 14 % 2 == 16 % 2 == 18 % 2 == 0 && 9 % 3 == 15 % 3 == 0;
  }

  lemma Primes2(n: nat)
    requires 20 <= n <= 37
    ensures Undivided(n) <==> n in {23, 29, 31, 37}
  {
  }

  lemma Primes3(n: nat)
    requires 38 <= n <= 53
    ensures Undivided(n) <==> n in {41, 43, 47, 53}
  {
  }

  lemma Primes4(n: nat)
    requires 54 <= n <= 71
    ensures Undivided(n) <==> n in {59, 61, 67, 71}
  {
  }

  lemma Primes5(n: nat)
    requires 72 <= n <= 89
    ensures Undivided(n) <==> n in {73, 79, 83, 89}
  {
  }

  lemma Primes6(n: nat)
    requires 90 <= n <= 107
    ensures Undivided(n) <==> n in {97, 101, 103, 107}
  {
  }

  lemma Primes7(n: nat)
    requires 108 <= n <= 131
    ensures Undivided(n) <==> n in {109, 113, 127, 131}
  {
  }

  lemma Primes8(n: nat)
    requires 132 <= n <= 151
    ensures Undivided(n) <==> n in {137, 139, 149, 151}
  {
  }

  lemma Primes9(n: nat)
    requires 152 <= n <= 173
    ensures Undivided(n) <==> n in {157, 163, 167, 173}
  {
  }

  lemma Primes10(n: nat)
    requires 174 <= n <= 193
    ensures Undivided(n) <==> n in {179, 181, 191, 193}
  {
  }

  lemma Primes11(n: nat)
    requires 194 <= n <= 223
    ensures Undivided(n) <==> n in {197, 199, 211, 223}
  {
  }

  lemma Primes12(n: nat)
    requires 224 <= n <= 239
    ensures Undivided(n) <==> n in {227, 229, 233, 239}
  {
  }

  lemma Primes13(n: nat)
    requires 240 <= n <= 263
    ensures Undivided(n) <==> n in {241, 251, 257, 263}
  {
  }

  lemma Primes14(n: nat)
    requires 264 <= n <= 281
    ensures Undivided(n) <==> n in {269, 271, 277, 281}
  {
  }

  lemma Primes15(n: nat)
    requires 282 <= n <= 311
    ensures Undivided(n) <==> n in {283, 293, 307, 311}
  {
  }

  // Below 18 * 18 it is enough to try the primes up to 17.
  lemma TrialDivision(n: nat)
    requires 17 < n < 324
    ensures Prime(n) <==> Undivided(n)
  {
    if Prime(n) {
      assert n % 2 != 0 && n % 3 != 0 && n % 5 != 0 && n % 7 != 0 && n % 11 != 0 && n % 13 != 0 && n % 17 != 0;
    }
    if Undivided(n) {
      forall d | 2 <= d < n ensures n % d != 0 {
        if n % d == 0 { Cofactor(n, d, n / d); }
      }
    }
  }

  lemma Cofactor(n: nat, d: nat, q: nat)
    requires 17 < n < 324 && 2 <= d < n && n == d * q
    ensures !Undivided(n)
  {
    hide Undivided;
    if d <= 17 {
      SmallFactor(n, q, d);
    } else if q >= 18 {
      Product(d, q);
    } else {
      SmallFactor(n, d, q);
    }
  }

  lemma Product(d: nat, q: nat)
    requires d >= 18 && q >= 18
    ensures d * q >= 324
  {
    assert d * q >= 18 * q;
  }

  lemma SmallFactor(n: nat, d: nat, q: nat)
    requires n == d * q && 2 <= q <= 17
    ensures !Undivided(n)
  {
    var p := if q % 2 == 0 then 2 else if q % 3 == 0 then 3 else if q % 5 == 0 then 5 else q;
    var r := q / p;
    assert q == p * r;
    Multiple(n, d, p, r);
  }

  lemma Multiple(n: nat, d: nat, p: nat, r: nat)
    requires p > 0 && n == d * (p * r)
    ensures n % p == 0
  {
    assert n == p * (d * r);
    RemainderIs(n, p, d * r, 0);
  }

  lemma LowPrimesAre(n: nat)
    requires n <= 131
    ensures Prime(n) <==> n in PRIMES
  {
    hide Prime, Undivided;
    if n > 17 { TrialDivision(n); }
    if n <= 7 { Primes0(n); }
    else if n <= 19 { Primes1(n); }
    else if n <= 37 { Primes2(n); }
    else if n <= 53 { Primes3(n); }
    else if n <= 71 { Primes4(n); }
    else if n <= 89 { Primes5(n); }
    else if n <= 107 { Primes6(n); }
    else { Primes7(n); }
  }

  lemma HighPrimesAre(n: nat)
    requires 131 < n < 312
    ensures Prime(n) <==> n in PRIMES
  {
    hide Prime, Undivided;
    TrialDivision(n);
    if n <= 151 { Primes8(n); }
    else if n <= 173 { Primes9(n); }
    else if n <= 193 { Primes10(n); }
    else if n <= 223 { Primes11(n); }
    else if n <= 239 { Primes12(n); }
    else if n <= 263 { Primes13(n); }
    else if n <= 281 { Primes14(n); }
    else { Primes15(n); }
  }

  // PRIMES are the primes below 312, in order.
  lemma PrimesAre(n: nat)
    requires n < 312
    ensures Prime(n) <==> n in PRIMES
  {
    hide Prime, PRIMES;
    if n <= 131 { LowPrimesAre(n); } else { HighPrimesAre(n); }
  }

  lemma PrimesOrdered(t: nat)
    requires t < 63
    ensures PRIMES[t] < PRIMES[t + 1]
  {
  }
}
