// SHA-224 and SHA-256 as section 6.2 of FIPS 180-4 defines them.
module Sha2Spec {
  import opened Sha

  datatype Regs = Regs(a: word, b: word, c: word, d: word, e: word, f: word, g: word, h: word)

  const H256 := Regs(0x6A09E667, 0xBB67AE85, 0x3C6EF372, 0xA54FF53A, 0x510E527F, 0x9B05688C, 0x1F83D9AB, 0x5BE0CD19)

  const H224 := Regs(0xC1059ED8, 0x367CD507, 0x3070DD17, 0xF70E5939, 0xFFC00B31, 0x68581511, 0x64F98FA7, 0xBEFA4FA4)

  const KS: seq<word> :=
    [0x428A2F98, 0x71374491, 0xB5C0FBCF, 0xE9B5DBA5, 0x3956C25B, 0x59F111F1, 0x923F82A4, 0xAB1C5ED5] +
    [0xD807AA98, 0x12835B01, 0x243185BE, 0x550C7DC3, 0x72BE5D74, 0x80DEB1FE, 0x9BDC06A7, 0xC19BF174] +
    [0xE49B69C1, 0xEFBE4786, 0x0FC19DC6, 0x240CA1CC, 0x2DE92C6F, 0x4A7484AA, 0x5CB0A9DC, 0x76F988DA] +
    [0x983E5152, 0xA831C66D, 0xB00327C8, 0xBF597FC7, 0xC6E00BF3, 0xD5A79147, 0x06CA6351, 0x14292967] +
    [0x27B70A85, 0x2E1B2138, 0x4D2C6DFC, 0x53380D13, 0x650A7354, 0x766A0ABB, 0x81C2C92E, 0x92722C85] +
    [0xA2BFE8A1, 0xA81A664B, 0xC24B8B70, 0xC76C51A3, 0xD192E819, 0xD6990624, 0xF40E3585, 0x106AA070] +
    [0x19A4C116, 0x1E376C08, 0x2748774C, 0x34B0BCB5, 0x391C0CB3, 0x4ED8AA4A, 0x5B9CCA4F, 0x682E6FF3] +
    [0x748F82EE, 0x78A5636F, 0x84C87814, 0x8CC70208, 0x90BEFFFA, 0xA4506CEB, 0xBEF9A3F7, 0xC67178F2]

  function K(t: nat): word
    requires t < 64
  {
    KS[t]
  }

  function Ch(x: word, y: word, z: word): word { (x & y) ^ (!x & z) }

  function Maj(x: word, y: word, z: word): word { (x & y) ^ (x & z) ^ (y & z) }

  function Big0(x: word): word { ((x >> 2) | (x << 30)) ^ ((x >> 13) | (x << 19)) ^ ((x >> 22) | (x << 10)) }

  function Big1(x: word): word { ((x >> 6) | (x << 26)) ^ ((x >> 11) | (x << 21)) ^ ((x >> 25) | (x << 7)) }

  function Small0(x: word): word { ((x >> 7) | (x << 25)) ^ ((x >> 18) | (x << 14)) ^ (x >> 3) }

  function Small1(x: word): word { ((x >> 17) | (x << 15)) ^ ((x >> 19) | (x << 13)) ^ (x >> 10) }

  function Expand(p: word, q: word, r: word, s: word): word { Small1(p) + q + Small0(r) + s }

  // The 64-word message schedule.
  function W(m: seq<word>, t: nat): word
    requires |m| == 16
  {
    if t < 16 then m[t] else Expand(W(m, t - 2), W(m, t - 7), W(m, t - 15), W(m, t - 16))
  }

  function T1(h: word, e: word, ch: word, k: word, w: word): word { h + Big1(e) + ch + k + w }

  function T2(a: word, maj: word): word { Big0(a) + maj }

  function Round(t: nat, r: Regs, w: word): Regs
    requires t < 64
  {
    var t1, t2 := T1(r.h, r.e, Ch(r.e, r.f, r.g), K(t), w), T2(r.a, Maj(r.a, r.b, r.c));
    Regs(Plus(t1, t2), r.a, r.b, r.c, Plus(r.d, t1), r.e, r.f, r.g)
  }

  // The working variables after t rounds.
  function After(m: seq<word>, h: Regs, t: nat): Regs
    requires |m| == 16 && t <= 64
  {
    if t == 0 then h else Round(t - 1, After(m, h, t - 1), W(m, t - 1))
  }

  function Compress(h: Regs, block: Block): Regs {
    var r := After(Words(block), h, 64);
    Regs(Plus(h.a, r.a), Plus(h.b, r.b), Plus(h.c, r.c), Plus(h.d, r.d),
         Plus(h.e, r.e), Plus(h.f, r.f), Plus(h.g, r.g), Plus(h.h, r.h))
  }

  function Initial(is224: bool): Regs { if is224 then H224 else H256 }

  // SHA-224 leaves out the last word.
  function Digest(r: Regs, is224: bool): seq<byte> {
    WordBytes([r.a, r.b, r.c, r.d, r.e, r.f, r.g] + if is224 then [] else [r.h])
  }

  function Sha2(msg: seq<byte>, is224: bool): seq<byte> {
    Digest(Fold(Compress, Initial(is224), Pad(msg)), is224)
  }
}

// mbedtls_internal_sha256_process, as the plain loop that rotates its registers and as the loop
// unrolled by eight that renames them.
module Sha2Process {
  import opened Sha
  import opened Sha2Spec

  // The macros F0 and F1.
  function F0(x: word, y: word, z: word): word { (x & y) | (z & (x | y)) }

  function F1(x: word, y: word, z: word): word { z ^ (x & (y ^ z)) }

  lemma MajForm(x: word, y: word, z: word)
    ensures (x & y) | (z & (x | y)) == (x & y) ^ (x & z) ^ (y & z)
  {
  }

  lemma ChForm(x: word, y: word, z: word)
    ensures z ^ (x & (y ^ z)) == (x & y) ^ (!x & z)
  {
  }

  lemma F0IsMaj(x: word, y: word, z: word)
    ensures F0(x, y, z) == Maj(x, y, z)
  {
    MajForm(x, y, z);
  }

  lemma F1IsCh(x: word, y: word, z: word)
    ensures F1(x, y, z) == Ch(x, y, z)
  {
    ChForm(x, y, z);
  }

  function RegsOf(s: seq<word>): Regs
    requires |s| == 8
  {
    Regs(s[0], s[1], s[2], s[3], s[4], s[5], s[6], s[7])
  }

  // What the cells standing for a to h hold.
  function Named(A: array<word>, a: nat, b: nat, c: nat, d: nat, e: nat, f: nat, g: nat, h: nat): Regs
    requires A.Length == 8 && a < 8 && b < 8 && c < 8 && d < 8 && e < 8 && f < 8 && g < 8 && h < 8
    reads A
  {
    Regs(A[a], A[b], A[c], A[d], A[e], A[f], A[g], A[h])
  }

  // The two cells a round writes are not among the others.
  predicate Apart(a: nat, b: nat, c: nat, d: nat, e: nat, f: nat, g: nat, h: nat) {
    && d != a && d != b && d != c && d != e && d != f && d != g && d != h
    && h != a && h != b && h != c && h != e && h != f && h != g
  }

  // The macro P is one round: the cell of h becomes that of a, and every other name moves on by one.
  method P(A: array<word>, a: nat, b: nat, c: nat, d: nat, e: nat, f: nat, g: nat, h: nat, x: word, k: word,
           ghost m: seq<word>, ghost s: Regs, ghost t: nat)
    requires A.Length == 8 && a < 8 && b < 8 && c < 8 && d < 8 && e < 8 && f < 8 && g < 8 && h < 8
    requires Apart(a, b, c, d, e, f, g, h)
    requires |m| == 16 && t < 64 && x == W(m, t) && k == K(t)
    requires Named(A, a, b, c, d, e, f, g, h) == After(m, s, t)
    modifies A
    ensures Named(A, h, a, b, c, d, e, f, g) == After(m, s, t + 1)
  {
    hide T1, T2, Ch, Maj, F0, F1, Plus, W, K;
    F1IsCh(A[e], A[f], A[g]);
    F0IsMaj(A[a], A[b], A[c]);
    var temp1 := T1(A[h], A[e], F1(A[e], A[f], A[g]), k, x);
    var temp2 := T2(A[a], F0(A[a], A[b], A[c]));
    A[d] := Plus(A[d], temp1);
    A[h] := Plus(temp1, temp2);
  }

  ghost predicate Scheduled(ws: array<word>, n: nat, m: seq<word>)
    reads ws
  {
    ws.Length == 64 && |m| == 16 && n <= 64 && forall j :: 0 <= j < n ==> ws[j] == W(m, j)
  }

  lemma ScheduleStep(m: seq<word>, t: nat)
    requires |m| == 16 && t >= 16
    ensures W(m, t) == Expand(W(m, t - 2), W(m, t - 7), W(m, t - 15), W(m, t - 16))
  {
    hide Expand;
  }

  // The macro R: the next word of the schedule.
  method R(ws: array<word>, t: nat, ghost m: seq<word>) returns (x: word)
    requires 16 <= t < 64 && Scheduled(ws, t, m)
    modifies ws
    ensures x == W(m, t) && Scheduled(ws, t + 1, m)
  {
    hide W, Expand;
    ScheduleStep(m, t);
    ws[t] := Expand(ws[t - 2], ws[t - 7], ws[t - 15], ws[t - 16]);
    x := ws[t];
  }

  // GET_UINT32_BE
  method Load(ws: array<word>, i: nat, block: Block)
    requires i < 16 && Scheduled(ws, i, Words(block))
    modifies ws
    ensures Scheduled(ws, i + 1, Words(block))
  {
    hide WordOf;
    ws[i] := WordOf(block[4 * i], block[4 * i + 1], block[4 * i + 2], block[4 * i + 3]);
  }

  // Adding the working variables to the state.
  method AddState(state: array<word>, A: array<word>, block: Block)
    requires state.Length == 8 && A.Length == 8 && A != state
    requires Named(A, 0, 1, 2, 3, 4, 5, 6, 7) == After(Words(block), RegsOf(state[..]), 64)
    modifies state
    ensures RegsOf(state[..]) == Compress(old(RegsOf(state[..])), block)
  {
    hide After, Plus;
    forall i | 0 <= i < 8 { state[i] := Plus(state[i], A[i]); }
  }

  method CopyState(state: array<word>) returns (A: array<word>)
    requires state.Length == 8
    ensures fresh(A) && A.Length == 8 && Named(A, 0, 1, 2, 3, 4, 5, 6, 7) == RegsOf(state[..])
  {
    A := new word[8](i requires 0 <= i < 8 reads state => state[i]);
  }

  method Rotate(A: array<word>)
    requires A.Length == 8
    modifies A
    ensures Named(A, 0, 1, 2, 3, 4, 5, 6, 7) == old(Named(A, 7, 0, 1, 2, 3, 4, 5, 6))
  {
    var temp1 := A[7];
    A[7] := A[6];
    A[6] := A[5];
    A[5] := A[4];
    A[4] := A[3];
    A[3] := A[2];
    A[2] := A[1];
    A[1] := A[0];
    A[0] := temp1;
  }

  // The variant with MBEDTLS_SHA256_SMALLER: rotate the cells after every round.
  method ProcessSmaller(state: array<word>, block: Block)
    requires state.Length == 8
    modifies state
    ensures RegsOf(state[..]) == Compress(old(RegsOf(state[..])), block)
  {
    hide Compress, After, W, K, Words, RegsOf;
    ghost var m, s := Words(block), RegsOf(state[..]);
    var ws := new word[64];
    var A := CopyState(state);
    StartState(m, s);
    var i := 0;
    while i < 64
      invariant i <= 64 && Scheduled(ws, i, m) && unchanged(state)
      invariant Named(A, 0, 1, 2, 3, 4, 5, 6, 7) == After(m, s, i)
    {
      if i < 16 {
        Load(ws, i, block);
      } else {
        var _ := R(ws, i, m);
      }
      P(A, 0, 1, 2, 3, 4, 5, 6, 7, ws[i], K(i), m, s, i);
      Rotate(A);
      i := i + 1;
    }
    assert state[..] == old(state[..]);
    AddState(state, A, block);
  }

  lemma StartState(m: seq<word>, s: Regs)
    requires |m| == 16
    ensures After(m, s, 0) == s
  {
  }

  // Eight rounds with the first words of the schedule, every name back in its place.
  method LoadedRounds(A: array<word>, ws: array<word>, i: nat, ghost m: seq<word>, ghost s: Regs)
    requires A.Length == 8 && A != ws && i + 8 <= 16 && Scheduled(ws, 16, m)
    requires Named(A, 0, 1, 2, 3, 4, 5, 6, 7) == After(m, s, i)
    modifies A
    ensures Named(A, 0, 1, 2, 3, 4, 5, 6, 7) == After(m, s, i + 8)
  {
    hide After, W, K, Named;
    P(A, 0, 1, 2, 3, 4, 5, 6, 7, ws[i], K(i), m, s, i);
    P(A, 7, 0, 1, 2, 3, 4, 5, 6, ws[i + 1], K(i + 1), m, s, i + 1);
    P(A, 6, 7, 0, 1, 2, 3, 4, 5, ws[i + 2], K(i + 2), m, s, i + 2);
    P(A, 5, 6, 7, 0, 1, 2, 3, 4, ws[i + 3], K(i + 3), m, s, i + 3);
    P(A, 4, 5, 6, 7, 0, 1, 2, 3, ws[i + 4], K(i + 4), m, s, i + 4);
    P(A, 3, 4, 5, 6, 7, 0, 1, 2, ws[i + 5], K(i + 5), m, s, i + 5);
    P(A, 2, 3, 4, 5, 6, 7, 0, 1, ws[i + 6], K(i + 6), m, s, i + 6);
    P(A, 1, 2, 3, 4, 5, 6, 7, 0, ws[i + 7], K(i + 7), m, s, i + 7);
  }

  // Eight rounds that extend the schedule as they go.
  method ExpandingRounds(A: array<word>, ws: array<word>, i: nat, ghost m: seq<word>, ghost s: Regs)
    requires A.Length == 8 && A != ws && |m| == 16 && 16 <= i && i + 8 <= 64 && Scheduled(ws, i, m)
    requires Named(A, 0, 1, 2, 3, 4, 5, 6, 7) == After(m, s, i)
    modifies A, ws
    ensures Scheduled(ws, i + 8, m)
    ensures Named(A, 0, 1, 2, 3, 4, 5, 6, 7) == After(m, s, i + 8)
  {
    hide After, W, K, Scheduled, Named;
    var x := R(ws, i, m);
    P(A, 0, 1, 2, 3, 4, 5, 6, 7, x, K(i), m, s, i);
    x := R(ws, i + 1, m);
    P(A, 7, 0, 1, 2, 3, 4, 5, 6, x, K(i + 1), m, s, i + 1);
    x := R(ws, i + 2, m);
    P(A, 6, 7, 0, 1, 2, 3, 4, 5, x, K(i + 2), m, s, i + 2);
    x := R(ws, i + 3, m);
    P(A, 5, 6, 7, 0, 1, 2, 3, 4, x, K(i + 3), m, s, i + 3);
    x := R(ws, i + 4, m);
    P(A, 4, 5, 6, 7, 0, 1, 2, 3, x, K(i + 4), m, s, i + 4);
    x := R(ws, i + 5, m);
    P(A, 3, 4, 5, 6, 7, 0, 1, 2, x, K(i + 5), m, s, i + 5);
    x := R(ws, i + 6, m);
    P(A, 2, 3, 4, 5, 6, 7, 0, 1, x, K(i + 6), m, s, i + 6);
    x := R(ws, i + 7, m);
    P(A, 1, 2, 3, 4, 5, 6, 7, 0, x, K(i + 7), m, s, i + 7);
  }

  method LoadAll(ws: array<word>, block: Block)
    requires ws.Length == 64
    modifies ws
    ensures Scheduled(ws, 16, Words(block))
  {
    hide W;
    var i := 0;
    while i < 16
      invariant i <= 16 && Scheduled(ws, i, Words(block))
    {
      Load(ws, i, block);
      i := i + 1;
    }
  }

  // The variant without MBEDTLS_SHA256_SMALLER: unrolled by eight, the names rotate instead.
  method Process(state: array<word>, block: Block)
    requires state.Length == 8
    modifies state
    ensures RegsOf(state[..]) == Compress(old(RegsOf(state[..])), block)
  {
    hide Compress, After, W, K, Words, RegsOf;
    ghost var m, s := Words(block), RegsOf(state[..]);
    var ws := new word[64];
    var A := CopyState(state);
    StartState(m, s);
    LoadAll(ws, block);
    var i := 0;
    while i < 16
      invariant i <= 16 && i % 8 == 0 && unchanged(state) && Scheduled(ws, 16, m)
      invariant Named(A, 0, 1, 2, 3, 4, 5, 6, 7) == After(m, s, i)
    {
      LoadedRounds(A, ws, i, m, s);
      i := i + 8;
    }
    i := 16;
    while i < 64
      invariant 16 <= i <= 64 && i % 8 == 0 && unchanged(state) && Scheduled(ws, i, m)
      invariant Named(A, 0, 1, 2, 3, 4, 5, 6, 7) == After(m, s, i)
    {
      ExpandingRounds(A, ws, i, m, s);
      i := i + 8;
    }
    assert state[..] == old(state[..]);
    AddState(state, A, block);
  }
}

// The hashing context of rktio_sha2.c: a byte counter in two 32-bit halves, a partly filled block
// and the chaining state.
module Sha2Context {
  import opened Sha
  import opened Sha2Spec
  import opened Sha2Process

  // ---- the byte counter (lines 222-226)

  function TotalLow(t0: nat, ilen: nat): nat { (t0 + ilen % TWO_32) % TWO_32 }

  function TotalHigh(t0: nat, t1: nat, ilen: nat): nat {
    if TotalLow(t0, ilen) < ilen % TWO_32 then (t1 + 1) % TWO_32 else t1
  }

  // From zero, 2^32 bytes are not counted at all.
  lemma NotCounted()
    ensures TotalLow(0, TWO_32) + TWO_32 * TotalHigh(0, 0, TWO_32) == 0 != TWO_32 % TWO_64
  {
  }

  // The total is right exactly when the length, a 64-bit size, fits in 32 bits.
  lemma TotalExact(t0: nat, t1: nat, ilen: nat)
    requires t0 < TWO_32 && t1 < TWO_32 && ilen < TWO_64
    ensures TotalLow(t0, ilen) + TWO_32 * TotalHigh(t0, t1, ilen) == (t0 + TWO_32 * t1 + ilen) % TWO_64
       <==> ilen < TWO_32
  {
    var q, r := ilen / TWO_32, ilen % TWO_32;
    assert ilen == TWO_32 * q + r && q < TWO_32;
    var carry := if t0 + r >= TWO_32 then 1 else 0;
    var low := t0 + r - TWO_32 * carry;
    assert TotalLow(t0, ilen) == low && (low < r <==> carry == 1);
    var high := t1 + q + carry;
    assert t0 + TWO_32 * t1 + ilen == low + TWO_32 * high;
    SplitHalves(low, high);
    OffBy(t1 + carry, q);
    HalvesApart(low, TotalHigh(t0, t1, ilen), high % TWO_32);
  }

  lemma OffBy(x: nat, q: nat)
    requires q < TWO_32
    ensures (x + q) % TWO_32 == x % TWO_32 <==> q == 0
  {
  }

  // The two halves hold the message length modulo 2^64.
  predicate Totals(t0: nat, t1: nat, n: nat) {
    t0 < TWO_32 && t1 < TWO_32 && t0 + TWO_32 * t1 == n % TWO_64
  }

  lemma TotalsStep(t0: nat, t1: nat, n: nat, ilen: nat)
    requires Totals(t0, t1, n) && ilen < TWO_32
    ensures Totals(TotalLow(t0, ilen), TotalHigh(t0, t1, ilen), n + ilen)
  {
    TotalExact(t0, t1, ilen);
    ModAdds(n, ilen);
  }

  lemma ModAdds(n: nat, k: nat)
    ensures (n % TWO_64 + k) % TWO_64 == (n + k) % TWO_64
  {
  }

  lemma Position(t0: nat, t1: nat, n: nat)
    requires Totals(t0, t1, n)
    ensures t0 % 64 == n % 64
  {
    var k := n / TWO_64;
    assert n == TWO_64 * k + t0 + TWO_32 * t1;
    Mod64Shift(0x400_0000_0000_0000 * k + 0x400_0000 * t1, t0);
  }

  // ---- the length in bits (lines 274-276); the two parts of `high` share no bit

  function BitsHigh(t0: nat, t1: nat): nat { t0 / TWO_29 + 8 * t1 % TWO_32 }

  function BitsLow(t0: nat): nat { 8 * t0 % TWO_32 }

  lemma BitsAre(t0: nat, t1: nat, n: nat)
    requires Totals(t0, t1, n)
    ensures Bytes32(BitsHigh(t0, t1)) + Bytes32(BitsLow(t0)) == Bytes64(BitLength(n))
  {
    hide Bytes32;
    var k := n / TWO_64;
    assert n == TWO_64 * k + t0 + TWO_32 * t1;
    var a, b := t0 / TWO_29, 8 * t1 / TWO_32;
    assert t0 == TWO_29 * a + t0 % TWO_29 && a < 8 && 8 * t1 == TWO_32 * b + 8 * t1 % TWO_32;
    assert 8 * t0 == TWO_32 * a + 8 * (t0 % TWO_29);
    assert BitsLow(t0) == 8 * (t0 % TWO_29) && 8 * t1 % TWO_32 <= TWO_32 - 8 by { EightsBelow(t1); }
    assert 8 * n == TWO_64 * (8 * k + b) + (TWO_32 * BitsHigh(t0, t1) + BitsLow(t0));
    SplitLength(8 * n, 8 * k + b, BitsHigh(t0, t1), BitsLow(t0));
  }

  lemma EightsBelow(t: nat)
    ensures 8 * t % TWO_32 <= TWO_32 - 8
  {
    var b := 8 * t / TWO_32;
    assert 8 * t - TWO_32 * b == 8 * (t - TWO_29 * b);
  }

  lemma SplitLength(x: nat, k: nat, high: nat, low: nat)
    requires high < TWO_32 && low < TWO_32 && x == TWO_64 * k + (TWO_32 * high + low)
    ensures x % TWO_64 / TWO_32 == high && x % TWO_64 % TWO_32 == low
  {
    assert x % TWO_64 == TWO_32 * high + low;
  }

  // The padding finish appends is that of section 5.1.1.
  lemma PaddingIs(n: nat)
    ensures (if n % 64 < 56 then 56 - n % 64 else 120 - n % 64) == 1 + ZeroCount(n)
  {
  }

  const PADDING: seq<byte> := [0x80] + Zeros(63)

  class Sha2Ctx {
    var total0: nat
    var total1: nat
    const state: array<word>
    const buffer: array<byte>
    const is224: bool
    ghost var msg: seq<byte>  // the bytes hashed so far

    ghost predicate Valid()
      reads this, state, buffer
    {
      && state.Length == 8 && buffer.Length == 64
      && Totals(total0, total1, |msg|)
      && Absorbed(Compress, Initial(is224), msg, RegsOf(state[..]), buffer[..])
    }

    // mbedtls_sha256_starts_ret
    constructor (is224: bool)
      ensures Valid() && msg == [] && this.is224 == is224 && fresh(state) && fresh(buffer)
    {
      state := new word[8];
      buffer := new byte[64];
      total0, total1, msg := 0, 0, [];
      this.is224 := is224;
      new;
      if !is224 {
        SetState(state, 0x6A09E667, 0xBB67AE85, 0x3C6EF372, 0xA54FF53A, 0x510E527F, 0x9B05688C, 0x1F83D9AB, 0x5BE0CD19);
      } else {
        SetState(state, 0xC1059ED8, 0x367CD507, 0x3070DD17, 0xF70E5939, 0xFFC00B31, 0x68581511, 0x64F98FA7, 0xBEFA4FA4);
      }
    }

    // Lines 219-226: find the buffered bytes and count the new ones.
    method Count(ilen: nat, ghost n: nat) returns (left: nat)
      requires Totals(total0, total1, n) && ilen < TWO_32
      modifies this`total0, this`total1
      ensures left == n % 64 && Totals(total0, total1, n + ilen)
    {
      Position(total0, total1, n);
      TotalsStep(total0, total1, n, ilen);
      left := total0 % 64;
      total0 := (total0 + ilen % TWO_32) % TWO_32;
      if total0 < ilen % TWO_32 { total1 := (total1 + 1) % TWO_32; }
    }

    // Lines 228-238: complete a buffered block if there is one.
    method FillBuffer(data: seq<byte>, left: nat) returns (i: nat, left': nat)
      requires state.Length == 8 && buffer.Length == 64 && left == |msg| % 64
      requires Absorbed(Compress, Initial(is224), msg, RegsOf(state[..]), buffer[..])
      modifies state, buffer
      ensures i <= |data| && left' == (|msg| + i) % 64 && (left' != 0 ==> |data| - i < 64 - left')
      ensures Absorbed(Compress, Initial(is224), msg + data[..i], RegsOf(state[..]), buffer[..])
    {
      hide Compress, Initial, Absorbed, RegsOf;
      i, left' := 0, left;
      assert msg + data[..0] == msg;
      if left != 0 && |data| >= 64 - left {
        i := 64 - left;
        ghost var before := buffer[..];
        CopyInto(buffer, left, data[..i]);
        assert buffer[..] == before[..left] + data[..i];
        AbsorbFill(Compress, Initial(is224), msg, RegsOf(state[..]), before, data[..i], buffer[..], buffer[..]);
        Process(state, buffer[..]);
        left' := 0;
      }
    }

    // Lines 243-245: a whole block from the data.
    method AbsorbBlock(b: Block, ghost m: seq<byte>)
      requires state.Length == 8 && buffer.Length == 64 && |m| % 64 == 0
      requires Absorbed(Compress, Initial(is224), m, RegsOf(state[..]), buffer[..])
      modifies state
      ensures Absorbed(Compress, Initial(is224), m + b, RegsOf(state[..]), buffer[..])
    {
      hide Compress, Initial, Absorbed, RegsOf;
      assert buffer[..][..0] + b == b;
      AbsorbFill(Compress, Initial(is224), m, RegsOf(state[..]), buffer[..], b, b, buffer[..]);
      Process(state, b);
    }

    // Lines 240-247: take whole blocks from the data, when nothing is buffered.
    method TakeBlocks(data: seq<byte>, start: nat) returns (i: nat)
      requires state.Length == 8 && buffer.Length == 64 && start <= |data|
      requires |data| - start >= 64 ==> (|msg| + start) % 64 == 0
      requires Absorbed(Compress, Initial(is224), msg + data[..start], RegsOf(state[..]), buffer[..])
      modifies state
      ensures start <= i <= |data| < i + 64 && (|msg| + i) % 64 == (|msg| + start) % 64
      ensures Absorbed(Compress, Initial(is224), msg + data[..i], RegsOf(state[..]), buffer[..])
    {
      hide Compress, Initial, Absorbed, RegsOf;
      i := start;
      while |data| - i >= 64
        invariant start <= i <= |data| && (|msg| + i) % 64 == (|msg| + start) % 64 && unchanged(buffer)
        invariant Absorbed(Compress, Initial(is224), msg + data[..i], RegsOf(state[..]), buffer[..])
      {
        AbsorbBlock(data[i..i + 64], msg + data[..i]);
        assert (msg + data[..i]) + data[i..i + 64] == msg + data[..i + 64];
        i := i + 64;
      }
    }

    // Lines 249-250: the rest is buffered.
    method Keep(rest: seq<byte>, left: nat, ghost m: seq<byte>)
      requires state.Length == 8 && buffer.Length == 64 && left == |m| % 64 && left + |rest| < 64
      requires Absorbed(Compress, Initial(is224), m, RegsOf(state[..]), buffer[..])
      modifies buffer
      ensures Absorbed(Compress, Initial(is224), m + rest, RegsOf(state[..]), buffer[..])
    {
      hide Compress, Initial, Absorbed, RegsOf;
      ghost var before := buffer[..];
      if |rest| > 0 {
        CopyInto(buffer, left, rest);
      }
      assert buffer[..][..left + |rest|] == before[..left] + rest;
      AbsorbShort(Compress, Initial(is224), m, RegsOf(state[..]), before, rest, buffer[..]);
    }

    // mbedtls_sha256_update_ret
    method Update(data: seq<byte>)
      requires Valid() && |data| < TWO_32
      modifies this, state, buffer
      ensures Valid() && msg == old(msg) + data
    {
      hide Compress, Initial, Absorbed, RegsOf, Totals;
      if |data| == 0 {
        assert msg + data == msg;
        return;
      }
      var left := Count(|data|, |msg|);
      var i;
      i, left := FillBuffer(data, left);
      i := TakeBlocks(data, i);
      Keep(data[i..], left, msg + data[..i]);
      assert msg + data[..i] + data[i..] == msg + data;
      msg := msg + data;
    }

    // Lines 274-288: append the padding of section 5.1.1, the length last.
    method AppendPadding()
      requires Valid()
      modifies this, state, buffer
      ensures Valid() && msg == Pad(old(msg))
    {
      hide Compress, Initial, Absorbed, RegsOf, Totals, ZeroCount, Bytes32, Bytes64, BitLength, BitsHigh, BitsLow;
      ghost var m, n := msg, |msg|;
      BitsAre(total0, total1, n);
      Position(total0, total1, n);
      PaddingIs(n);
      var msglen := Bytes32(BitsHigh(total0, total1)) + Bytes32(BitsLow(total0));
      var last := total0 % 64;
      var padn := if last < 56 then 56 - last else 120 - last;
      assert PADDING[..padn] == [0x80] + Zeros(ZeroCount(n));
      Update(PADDING[..padn]);
      Update(msglen);
      assert msg == m + [0x80] + Zeros(ZeroCount(n)) + Bytes64(BitLength(n));
    }

    // Lines 290-299: the state, high bytes first; SHA-224 leaves out the last word.
    method WriteDigest(output: array<byte>)
      requires state.Length == 8 && output.Length >= (if is224 then 28 else 32)
      modifies output
      ensures var d := Digest(RegsOf(state[..]), is224);
              |d| == (if is224 then 28 else 32) && output[..|d|] == d && output[|d|..] == old(output[|d|..])
    {
      hide BytesOf, WordBytes, Digest;
      ghost var was := output[..];
      var n := if is224 then 7 else 8;
      var i := 0;
      NoWords(state[..], was);
      while i < n
        invariant i <= n && output[..] == WordBytes(state[..i]) + was[4 * i..]
      {
        ghost var now := output[..];
        CopyInto(output, 4 * i, BytesOf(state[i]));
        WordWritten(state[..], i, was, now, output[..]);
        i := i + 1;
      }
      DigestIs(state[..], is224);
    }

    // mbedtls_sha256_finish_ret
    method Finish(output: array<byte>)
      requires Valid() && output.Length >= (if is224 then 28 else 32) && output != buffer
      modifies this, state, buffer, output
      ensures var d := Sha2(old(msg), is224);
              |d| == (if is224 then 28 else 32) && output[..|d|] == d && output[|d|..] == old(output[|d|..])
    {
      hide Compress, Initial, Absorbed, Totals, Pad, Digest, RegsOf;
      ghost var m := msg;
      AppendPadding();
      PaddedState(m, is224, RegsOf(state[..]), buffer[..]);
      WriteDigest(output);
    }
  }

  lemma NoWords(ws: seq<word>, was: seq<byte>)
    ensures WordBytes(ws[..0]) + was[0..] == was
  {
  }

  lemma DigestIs(ws: seq<word>, is224: bool)
    requires |ws| == 8
    ensures Digest(RegsOf(ws), is224) == WordBytes(ws[..if is224 then 7 else 8])
  {
    hide WordBytes;
    assert ws[..if is224 then 7 else 8] == [ws[0], ws[1], ws[2], ws[3], ws[4], ws[5], ws[6]] + (if is224 then [] else [ws[7]]);
  }

  lemma WordWritten(ws: seq<word>, i: nat, was: seq<byte>, now: seq<byte>, after: seq<byte>)
    requires i < |ws| && 4 * i + 4 <= |was| && now == WordBytes(ws[..i]) + was[4 * i..]
    requires after == now[..4 * i] + BytesOf(ws[i]) + now[4 * i + 4..]
    ensures after == WordBytes(ws[..i + 1]) + was[4 * (i + 1)..]
  {
    hide BytesOf, WordBytes;
    WordBytesStep(ws, i);
    assert now[..4 * i] == WordBytes(ws[..i]) && now[4 * i + 4..] == was[4 * i + 4..];
  }

  lemma WordBytesStep(ws: seq<word>, i: nat)
    requires i < |ws|
    ensures WordBytes(ws[..i + 1]) == WordBytes(ws[..i]) + BytesOf(ws[i])
  {
    hide BytesOf;
  }

  method SetState(state: array<word>, a: word, b: word, c: word, d: word, e: word, f: word, g: word, h: word)
    requires state.Length == 8
    modifies state
    ensures RegsOf(state[..]) == Regs(a, b, c, d, e, f, g, h)
  {
    state[0] := a;
    state[1] := b;
    state[2] := c;
    state[3] := d;
    state[4] := e;
    state[5] := f;
    state[6] := g;
    state[7] := h;
  }

  lemma PaddedState(m: seq<byte>, is224: bool, r: Regs, buffer: seq<byte>)
    requires Absorbed(Compress, Initial(is224), Pad(m), r, buffer)
    ensures r == Fold(Compress, Initial(is224), Pad(m))
  {
    hide Pad;
    assert Pad(m)[..|Pad(m)|] == Pad(m);
  }

  // However a message is split into updates of less than 2^32 bytes, the digest is that of the
  // whole message.
  method HashChunks(chunks: seq<seq<byte>>, is224: bool) returns (digest: array<byte>)
    requires forall i :: 0 <= i < |chunks| ==> |chunks[i]| < TWO_32
    ensures digest[..] == Sha2(Flatten(chunks), is224)
  {
    hide Sha2Ctx.Valid, Sha2;
    var ctx := new Sha2Ctx(is224);
    var i := 0;
    while i < |chunks|
      invariant i <= |chunks| && ctx.Valid() && fresh(ctx) && fresh(ctx.state) && fresh(ctx.buffer)
      invariant ctx.msg == Flatten(chunks[..i])
    {
      FlattenAppend(chunks[..i], chunks[i]);
      assert chunks[..i + 1] == chunks[..i] + [chunks[i]];
      ctx.Update(chunks[i]);
      i := i + 1;
    }
    assert chunks[..|chunks|] == chunks;
    digest := new byte[if is224 then 28 else 32];
    ctx.Finish(digest);
    assert digest[..] == digest[..digest.Length];
  }
}
