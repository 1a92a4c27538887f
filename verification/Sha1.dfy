// SHA-1 as section 6.1.2 of FIPS 180-4 defines it.
module Sha1Spec {
  import opened Sha

  datatype Regs = Regs(a: word, b: word, c: word, d: word, e: word)

  const H0 := Regs(0x67452301, 0xEFCDAB89, 0x98BADCFE, 0x10325476, 0xC3D2E1F0)

  function Rotl1(x: word): word { (x << 1) | (x >> 31) }

  function Rotl5(x: word): word { (x << 5) | (x >> 27) }

  function Rotl30(x: word): word { (x << 30) | (x >> 2) }

  function Ch(x: word, y: word, z: word): word { (x & y) ^ (!x & z) }

  function Parity(x: word, y: word, z: word): word { x ^ y ^ z }

  function Maj(x: word, y: word, z: word): word { (x & y) ^ (x & z) ^ (y & z) }

  function F(t: nat, x: word, y: word, z: word): word {
    if t < 20 then Ch(x, y, z) else if t < 40 then Parity(x, y, z) else if t < 60 then Maj(x, y, z) else Parity(x, y, z)
  }

  function K(t: nat): word {
    if t < 20 then 0x5A827999 else if t < 40 then 0x6ED9EBA1 else if t < 60 then 0x8F1BBCDC else 0xCA62C1D6
  }

  function Expand(p: word, q: word, r: word, s: word): word { Rotl1(p ^ q ^ r ^ s) }

  // The 80-word message schedule.
  function W(m: seq<word>, t: nat): word
    requires |m| == 16
  {
    if t < 16 then m[t] else Expand(W(m, t - 3), W(m, t - 8), W(m, t - 14), W(m, t - 16))
  }

  function Sum5(p: word, q: word, r: word, s: word, t: word): word { p + q + r + s + t }

  function Round(t: nat, r: Regs, w: word): Regs {
    Regs(Sum5(Rotl5(r.a), F(t, r.b, r.c, r.d), r.e, K(t), w), r.a, Rotl30(r.b), r.c, r.d)
  }

  // The working variables after t rounds.
  function After(m: seq<word>, h: Regs, t: nat): Regs
    requires |m| == 16
  {
    if t == 0 then h else Round(t - 1, After(m, h, t - 1), W(m, t - 1))
  }

  function Compress(h: Regs, block: Block): Regs {
    var r := After(Words(block), h, 80);
    Regs(Plus(h.a, r.a), Plus(h.b, r.b), Plus(h.c, r.c), Plus(h.d, r.d), Plus(h.e, r.e))
  }

  function Digest(r: Regs): (d: seq<byte>)
    ensures |d| == 20
  {
    WordBytes([r.a, r.b, r.c, r.d, r.e])
  }

  function Sha1(msg: seq<byte>): (d: seq<byte>)
    ensures |d| == 20
  {
    Digest(Fold(Compress, H0, Pad(msg)))
  }
}

// The transform of rktio_sha1.c: the rounds unrolled with renamed registers, over sixteen words
// that are expanded in place (the form of section 6.1.3 of FIPS 180-4).
module Sha1Transform {
  import opened Sha
  import opened Sha1Spec

  // A word as a little-endian machine loads it, and the byte swap of blk0.
  function LoadLittle(b: Block, i: nat): word
    requires i < 16
  {
    WordOf(b[4 * i + 3], b[4 * i + 2], b[4 * i + 1], b[4 * i])
  }

  function Swap(x: word): word { (((x << 24) | (x >> 8)) & 0xFF00FF00) | (((x << 8) | (x >> 24)) & 0x00FF00FF) }

  lemma SwapBits(a: byte, b: byte, c: byte, d: byte, x: word)
    requires x == ((d as word) << 24) | ((c as word) << 16) | ((b as word) << 8) | (a as word)
    ensures ((((x << 24) | (x >> 8)) & 0xFF00FF00) | (((x << 8) | (x >> 24)) & 0x00FF00FF))
         == (((a as word) << 24) | ((b as word) << 16) | ((c as word) << 8) | (d as word))
  {
  }

  lemma SwapLoads(a: byte, b: byte, c: byte, d: byte, x: word)
    requires x == WordOf(d, c, b, a)
    ensures Swap(x) == WordOf(a, b, c, d)
  {
    SwapBits(a, b, c, d, x);
  }

  // The code's three round functions are those of the standard.
  lemma ChForm(w: word, x: word, y: word)
    ensures (w & (x ^ y)) ^ y == (w & x) ^ (!w & y)
  {
  }

  lemma MajForm(w: word, x: word, y: word)
    ensures ((w | x) & y) | (w & x) == (w & x) ^ (w & y) ^ (x & y)
  {
  }

  // The order in which a round macro adds.
  lemma SumForm(z: word, f: word, x: word, k: word, v5: word)
    ensures z + (f + x + k + v5) == v5 + f + z + k + x
  {
  }

  // The sixteen words of the block before round t: word j of the schedule is in cell j mod 16 for
  // the last sixteen j, or not yet swapped.
  ghost predicate Window(l: seq<word>, block: Block, t: nat) {
    |l| == 16 && forall k :: 0 <= k < 16 ==> l[k] == CellAt(block, t, k)
  }

  // What cell k holds before round t.
  ghost function CellAt(block: Block, t: nat, k: nat): word
    requires k < 16
  {
    if k >= t then LoadLittle(block, k) else W(Words(block), LastIn(t, k))
  }

  // The last j below t with j mod 16 == k.
  function LastIn(t: nat, k: nat): (j: nat)
    requires k < 16 && k < t
    ensures j < t <= j + 16 && j % 16 == k
  {
    k + (t - 1 - k) / 16 * 16
  }

  lemma LastInIs(t: nat, k: nat, j: nat)
    requires k < 16 && k < t && j < t <= j + 16 && j % 16 == k
    ensures LastIn(t, k) == j
  {
  }

  lemma WindowAt(l: seq<word>, block: Block, t: nat, j: nat)
    requires Window(l, block, t) && j < t <= j + 16
    ensures l[j % 16] == W(Words(block), j)
  {
    LastInIs(t, j % 16, j);
  }

  lemma WindowStep(l: seq<word>, block: Block, t: nat)
    requires Window(l, block, t)
    ensures Window(l[t % 16 := W(Words(block), t)], block, t + 1)
  {
    hide W;
    var l' := l[t % 16 := W(Words(block), t)];
    forall k: nat | k < 16 ensures l'[k] == CellAt(block, t + 1, k) {
      assert l[k] == CellAt(block, t, k);
      NextCell(block, t, k);
    }
  }

  lemma NextCell(block: Block, t: nat, k: nat)
    requires k < 16
    ensures CellAt(block, t + 1, k) == if k == t % 16 then W(Words(block), t) else CellAt(block, t, k)
  {
    hide W;
    if k == t % 16 {
      LastInIs(t + 1, k, t);
    } else if k < t {
      LastInIs(t + 1, k, LastIn(t, k));
    }
  }

  // blk0: swap a word on its first use.
  method Blk0(l: array<word>, i: nat, ghost block: Block) returns (x: word)
    requires l.Length == 16 && i < 16 && Window(l[..], block, i)
    modifies l
    ensures x == W(Words(block), i) && Window(l[..], block, i + 1)
  {
    hide Swap, W, CellAt;
    FirstUse(l[..], block, i);
    WindowStep(l[..], block, i);
    ghost var l0 := l[..];
    l[i] := Swap(l[i]);
    assert l[..] == l0[i % 16 := W(Words(block), i)];
    x := l[i];
  }

  lemma FirstUse(l: seq<word>, block: Block, i: nat)
    requires i < 16 && Window(l, block, i)
    ensures Swap(l[i]) == W(Words(block), i)
  {
    hide Swap, WordOf;
    assert l[i] == CellAt(block, i, i);
    SwapLoads(block[4 * i], block[4 * i + 1], block[4 * i + 2], block[4 * i + 3], l[i]);
  }

  // blk: expand the schedule in place.
  method Blk(l: array<word>, i: nat, ghost block: Block) returns (x: word)
    requires l.Length == 16 && i >= 16 && Window(l[..], block, i)
    modifies l
    ensures x == W(Words(block), i) && Window(l[..], block, i + 1)
  {
    hide CellAt, Window, Expand, W;
    WindowAt(l[..], block, i, i - 3);
    WindowAt(l[..], block, i, i - 8);
    WindowAt(l[..], block, i, i - 14);
    WindowAt(l[..], block, i, i - 16);
    WindowStep(l[..], block, i);
    CellsUsed(i);
    ScheduleStep(Words(block), i);
    ghost var l0 := l[..];
    l[i % 16] := Expand(l[(i + 13) % 16], l[(i + 8) % 16], l[(i + 2) % 16], l[i % 16]);
    assert l[..] == l0[i % 16 := W(Words(block), i)];
    x := l[i % 16];
  }

  lemma CellsUsed(i: nat)
    requires i >= 16
    ensures (i + 13) % 16 == (i - 3) % 16 && (i + 8) % 16 == (i - 8) % 16
    ensures (i + 2) % 16 == (i - 14) % 16 && i % 16 == (i - 16) % 16
  {
    OnceAround(i - 3);
    OnceAround(i - 8);
    OnceAround(i - 14);
    OnceAround(i - 16);
  }

  lemma OnceAround(x: nat)
    ensures (x + 16) % 16 == x % 16
  {
  }

  lemma ScheduleStep(m: seq<word>, i: nat)
    requires |m| == 16 && i >= 16
    ensures W(m, i) == Expand(W(m, i - 3), W(m, i - 8), W(m, i - 14), W(m, i - 16))
  {
    hide Expand;
  }

  // The right-hand side of the macros' `z +=`, added to z.
  function Sum(z: word, f: word, x: word, k: word, v5: word): word { z + (f + x + k + v5) }

  lemma SumIsSum5(z: word, f: word, x: word, k: word, v5: word)
    ensures Sum(z, f, x, k, v5) == Sum5(v5, f, z, k, x)
  {
    SumForm(z, f, x, k, v5);
  }

  // One round, whatever the names of the registers that hold a, b, c, d, e: the one holding e
  // becomes a, and the one holding b is rotated.
  lemma RoundRenamed(block: Block, h: Regs, i: nat, v: word, w: word, x: word, y: word, z: word, f: word)
    requires After(Words(block), h, i) == Regs(v, w, x, y, z) && f == F(i, w, x, y)
    ensures After(Words(block), h, i + 1) ==
            Regs(Sum(z, f, W(Words(block), i), K(i), Rotl5(v)), v, Rotl30(w), x, y)
  {
    hide W, F, K, Rotl5, Rotl30, Sum, Sum5;
    SumIsSum5(z, f, W(Words(block), i), K(i), Rotl5(v));
  }

  // The round functions as the macros write them.
  function Mux(w: word, x: word, y: word): word { (w & (x ^ y)) ^ y }

  function Major(w: word, x: word, y: word): word { ((w | x) & y) | (w & x) }

  lemma MuxIsCh(w: word, x: word, y: word)
    ensures Mux(w, x, y) == Ch(w, x, y)
  {
    ChForm(w, x, y);
  }

  lemma MajorIsMaj(w: word, x: word, y: word)
    ensures Major(w, x, y) == Maj(w, x, y)
  {
    MajForm(w, x, y);
  }

  ghost predicate Ready(l: array<word>, i: nat, block: Block, h: Regs, r: Regs)
    reads l
  {
    l.Length == 16 && Window(l[..], block, i) && After(Words(block), h, i) == r
  }

  method R0(l: array<word>, i: nat, v: word, w: word, x: word, y: word, z: word, ghost block: Block, ghost h: Regs)
    returns (z': word, w': word)
    requires i < 16 && Ready(l, i, block, h, Regs(v, w, x, y, z))
    modifies l
    ensures Ready(l, i + 1, block, h, Regs(z', v, w', x, y))
  {
    hide W, Window, After, Mux, Ch, Maj, Parity, Rotl5, Rotl30, Sum;
    MuxIsCh(w, x, y);
    RoundRenamed(block, h, i, v, w, x, y, z, Mux(w, x, y));
    var b := Blk0(l, i, block);
    z' := Sum(z, Mux(w, x, y), b, 0x5A827999, Rotl5(v));
    w' := Rotl30(w);
  }

  method R1(l: array<word>, i: nat, v: word, w: word, x: word, y: word, z: word, ghost block: Block, ghost h: Regs)
    returns (z': word, w': word)
    requires 16 <= i < 20 && Ready(l, i, block, h, Regs(v, w, x, y, z))
    modifies l
    ensures Ready(l, i + 1, block, h, Regs(z', v, w', x, y))
  {
    hide W, Window, After, Mux, Ch, Maj, Parity, Rotl5, Rotl30, Sum;
    MuxIsCh(w, x, y);
    RoundRenamed(block, h, i, v, w, x, y, z, Mux(w, x, y));
    var b := Blk(l, i, block);
    z' := Sum(z, Mux(w, x, y), b, 0x5A827999, Rotl5(v));
    w' := Rotl30(w);
  }

  method R2(l: array<word>, i: nat, v: word, w: word, x: word, y: word, z: word, ghost block: Block, ghost h: Regs)
    returns (z': word, w': word)
    requires 20 <= i < 40 && Ready(l, i, block, h, Regs(v, w, x, y, z))
    modifies l
    ensures Ready(l, i + 1, block, h, Regs(z', v, w', x, y))
  {
    hide W, Window, After, Ch, Maj, Parity, Rotl5, Rotl30, Sum;
    RoundRenamed(block, h, i, v, w, x, y, z, Parity(w, x, y));
    var b := Blk(l, i, block);
    z' := Sum(z, Parity(w, x, y), b, 0x6ED9EBA1, Rotl5(v));
    w' := Rotl30(w);
  }

  method R3(l: array<word>, i: nat, v: word, w: word, x: word, y: word, z: word, ghost block: Block, ghost h: Regs)
    returns (z': word, w': word)
    requires 40 <= i < 60 && Ready(l, i, block, h, Regs(v, w, x, y, z))
    modifies l
    ensures Ready(l, i + 1, block, h, Regs(z', v, w', x, y))
  {
    hide W, Window, After, Major, Ch, Maj, Parity, Rotl5, Rotl30, Sum;
    MajorIsMaj(w, x, y);
    RoundRenamed(block, h, i, v, w, x, y, z, Major(w, x, y));
    var b := Blk(l, i, block);
    z' := Sum(z, Major(w, x, y), b, 0x8F1BBCDC, Rotl5(v));
    w' := Rotl30(w);
  }

  method R4(l: array<word>, i: nat, v: word, w: word, x: word, y: word, z: word, ghost block: Block, ghost h: Regs)
    returns (z': word, w': word)
    requires 60 <= i < 80 && Ready(l, i, block, h, Regs(v, w, x, y, z))
    modifies l
    ensures Ready(l, i + 1, block, h, Regs(z', v, w', x, y))
  {
    hide W, Window, After, Ch, Maj, Parity, Rotl5, Rotl30, Sum;
    RoundRenamed(block, h, i, v, w, x, y, z, Parity(w, x, y));
    var b := Blk(l, i, block);
    z' := Sum(z, Parity(w, x, y), b, 0xCA62C1D6, Rotl5(v));
    w' := Rotl30(w);
  }

  // Rounds 0 to 19, unrolled; five of them bring every register name back to its place.
  method Rounds0(l: array<word>, r: Regs, ghost block: Block, ghost h: Regs) returns (r': Regs)
    requires Ready(l, 0, block, h, r)
    modifies l
    ensures Ready(l, 20, block, h, r')
  {
    hide Ready;
    var Regs(a, b, c, d, e) := r;
    e, b := R0(l, 0, a, b, c, d, e, block, h);
    d, a := R0(l, 1, e, a, b, c, d, block, h);
    c, e := R0(l, 2, d, e, a, b, c, block, h);
    b, d := R0(l, 3, c, d, e, a, b, block, h);
    a, c := R0(l, 4, b, c, d, e, a, block, h);
    e, b := R0(l, 5, a, b, c, d, e, block, h);
    d, a := R0(l, 6, e, a, b, c, d, block, h);
    c, e := R0(l, 7, d, e, a, b, c, block, h);
    b, d := R0(l, 8, c, d, e, a, b, block, h);
    a, c := R0(l, 9, b, c, d, e, a, block, h);
    e, b := R0(l, 10, a, b, c, d, e, block, h);
    d, a := R0(l, 11, e, a, b, c, d, block, h);
    c, e := R0(l, 12, d, e, a, b, c, block, h);
    b, d := R0(l, 13, c, d, e, a, b, block, h);
    a, c := R0(l, 14, b, c, d, e, a, block, h);
    e, b := R0(l, 15, a, b, c, d, e, block, h);
    d, a := R1(l, 16, e, a, b, c, d, block, h);
    c, e := R1(l, 17, d, e, a, b, c, block, h);
    b, d := R1(l, 18, c, d, e, a, b, block, h);
    a, c := R1(l, 19, b, c, d, e, a, block, h);
    r' := Regs(a, b, c, d, e);
  }

  // Rounds 20 to 39, unrolled; five of them bring every register name back to its place.
  method Rounds20(l: array<word>, r: Regs, ghost block: Block, ghost h: Regs) returns (r': Regs)
    requires Ready(l, 20, block, h, r)
    modifies l
    ensures Ready(l, 40, block, h, r')
  {
    hide Ready;
    var Regs(a, b, c, d, e) := r;
    e, b := R2(l, 20, a, b, c, d, e, block, h);
    d, a := R2(l, 21, e, a, b, c, d, block, h);
    c, e := R2(l, 22, d, e, a, b, c, block, h);
    b, d := R2(l, 23, c, d, e, a, b, block, h);
    a, c := R2(l, 24, b, c, d, e, a, block, h);
    e, b := R2(l, 25, a, b, c, d, e, block, h);
    d, a := R2(l, 26, e, a, b, c, d, block, h);
    c, e := R2(l, 27, d, e, a, b, c, block, h);
    b, d := R2(l, 28, c, d, e, a, b, block, h);
    a, c := R2(l, 29, b, c, d, e, a, block, h);
    e, b := R2(l, 30, a, b, c, d, e, block, h);
    d, a := R2(l, 31, e, a, b, c, d, block, h);
    c, e := R2(l, 32, d, e, a, b, c, block, h);
    b, d := R2(l, 33, c, d, e, a, b, block, h);
    a, c := R2(l, 34, b, c, d, e, a, block, h);
    e, b := R2(l, 35, a, b, c, d, e, block, h);
    d, a := R2(l, 36, e, a, b, c, d, block, h);
    c, e := R2(l, 37, d, e, a, b, c, block, h);
    b, d := R2(l, 38, c, d, e, a, b, block, h);
    a, c := R2(l, 39, b, c, d, e, a, block, h);
    r' := Regs(a, b, c, d, e);
  }

  // Rounds 40 to 59, unrolled; five of them bring every register name back to its place.
  method Rounds40(l: array<word>, r: Regs, ghost block: Block, ghost h: Regs) returns (r': Regs)
    requires Ready(l, 40, block, h, r)
    modifies l
    ensures Ready(l, 60, block, h, r')
  {
    hide Ready;
    var Regs(a, b, c, d, e) := r;
    e, b := R3(l, 40, a, b, c, d, e, block, h);
    d, a := R3(l, 41, e, a, b, c, d, block, h);
    c, e := R3(l, 42, d, e, a, b, c, block, h);
    b, d := R3(l, 43, c, d, e, a, b, block, h);
    a, c := R3(l, 44, b, c, d, e, a, block, h);
    e, b := R3(l, 45, a, b, c, d, e, block, h);
    d, a := R3(l, 46, e, a, b, c, d, block, h);
    c, e := R3(l, 47, d, e, a, b, c, block, h);
    b, d := R3(l, 48, c, d, e, a, b, block, h);
    a, c := R3(l, 49, b, c, d, e, a, block, h);
    e, b := R3(l, 50, a, b, c, d, e, block, h);
    d, a := R3(l, 51, e, a, b, c, d, block, h);
    c, e := R3(l, 52, d, e, a, b, c, block, h);
    b, d := R3(l, 53, c, d, e, a, b, block, h);
    a, c := R3(l, 54, b, c, d, e, a, block, h);
    e, b := R3(l, 55, a, b, c, d, e, block, h);
    d, a := R3(l, 56, e, a, b, c, d, block, h);
    c, e := R3(l, 57, d, e, a, b, c, block, h);
    b, d := R3(l, 58, c, d, e, a, b, block, h);
    a, c := R3(l, 59, b, c, d, e, a, block, h);
    r' := Regs(a, b, c, d, e);
  }

  // Rounds 60 to 79, unrolled; five of them bring every register name back to its place.
  method Rounds60(l: array<word>, r: Regs, ghost block: Block, ghost h: Regs) returns (r': Regs)
    requires Ready(l, 60, block, h, r)
    modifies l
    ensures Ready(l, 80, block, h, r')
  {
    hide Ready;
    var Regs(a, b, c, d, e) := r;
    e, b := R4(l, 60, a, b, c, d, e, block, h);
    d, a := R4(l, 61, e, a, b, c, d, block, h);
    c, e := R4(l, 62, d, e, a, b, c, block, h);
    b, d := R4(l, 63, c, d, e, a, b, block, h);
    a, c := R4(l, 64, b, c, d, e, a, block, h);
    e, b := R4(l, 65, a, b, c, d, e, block, h);
    d, a := R4(l, 66, e, a, b, c, d, block, h);
    c, e := R4(l, 67, d, e, a, b, c, block, h);
    b, d := R4(l, 68, c, d, e, a, b, block, h);
    a, c := R4(l, 69, b, c, d, e, a, block, h);
    e, b := R4(l, 70, a, b, c, d, e, block, h);
    d, a := R4(l, 71, e, a, b, c, d, block, h);
    c, e := R4(l, 72, d, e, a, b, c, block, h);
    b, d := R4(l, 73, c, d, e, a, b, block, h);
    a, c := R4(l, 74, b, c, d, e, a, block, h);
    e, b := R4(l, 75, a, b, c, d, e, block, h);
    d, a := R4(l, 76, e, a, b, c, d, block, h);
    c, e := R4(l, 77, d, e, a, b, c, block, h);
    b, d := R4(l, 78, c, d, e, a, b, block, h);
    a, c := R4(l, 79, b, c, d, e, a, block, h);
    r' := Regs(a, b, c, d, e);
  }

  // SHA1_Transform
  method Transform(state: array<word>, block: Block)
    requires state.Length == 5
    modifies state
    ensures RegsOf(state[..]) == Compress(old(RegsOf(state[..])), block)
  {
    hide After, Window, Plus, LoadLittle;
    ghost var h := RegsOf(state[..]);
    var l := new word[16](i requires 0 <= i < 16 => LoadLittle(block, i));
    var r := Regs(state[0], state[1], state[2], state[3], state[4]);
    StartReady(l, block, h);
    r := Rounds0(l, r, block, h);
    r := Rounds20(l, r, block, h);
    r := Rounds40(l, r, block, h);
    r := Rounds60(l, r, block, h);
    state[0] := Plus(state[0], r.a);
    state[1] := Plus(state[1], r.b);
    state[2] := Plus(state[2], r.c);
    state[3] := Plus(state[3], r.d);
    state[4] := Plus(state[4], r.e);
  }

  function RegsOf(s: seq<word>): Regs
    requires |s| == 5
  {
    Regs(s[0], s[1], s[2], s[3], s[4])
  }

  lemma StartReady(l: array<word>, block: Block, h: Regs)
    requires l.Length == 16 && forall i :: 0 <= i < 16 ==> l[i] == LoadLittle(block, i)
    ensures Ready(l, 0, block, h, h)
  {
    hide LoadLittle;
  }
}

// The hashing context of rktio_sha1.c: a bit counter in two 32-bit halves, a partly filled block
// and the chaining state.
module Sha1Context {
  import opened Sha
  import opened Sha1Spec
  import opened Sha1Transform

  // ---- the bit counter (lines 213-215)

  function CountLow(c0: nat, len: nat): nat { (c0 + 8 * len) % TWO_32 }

  function CountHigh(c0: nat, c1: nat, len: nat): nat {
    var c1' := if CountLow(c0, len) < 8 * len then (c1 + 1) % TWO_32 else c1;
    (c1' + len / TWO_29) % TWO_32
  }

  // The carry test is right for fewer than 2^29 bytes, or when the low halves do carry.
  predicate CarryTestRight(c0: nat, len: nat) {
    len < TWO_29 || c0 + 8 * len % TWO_32 >= TWO_32
  }

  // From zero, 2^29 bytes are counted as 2^30: their bit count is itself above the wrapped low half.
  lemma CountedTwice()
    ensures CountLow(0, TWO_29) + TWO_32 * CountHigh(0, 0, TWO_29) == 2 * TWO_32
    ensures (0 + TWO_32 * 0 + 8 * TWO_29) % TWO_64 == TWO_32
  {
  }

  // The counter counts right exactly then (for lengths a size_t can shift left by three).
  lemma CountExact(c0: nat, c1: nat, len: nat)
    requires c0 < TWO_32 && c1 < TWO_32 && len < 0x2000_0000_0000_0000
    ensures CountLow(c0, len) + TWO_32 * CountHigh(c0, c1, len) == (c0 + TWO_32 * c1 + 8 * len) % TWO_64
       <==> CarryTestRight(c0, len)
  {
    var q, r := 8 * len / TWO_32, 8 * len % TWO_32;
    assert 8 * len == TWO_32 * q + r && q == len / TWO_29;
    var carry := if c0 + r >= TWO_32 then 1 else 0;
    var low := c0 + r - TWO_32 * carry;
    assert CountLow(c0, len) == low by { SplitLow(c0, r, q, carry); }
    var high := c1 + q + carry;
    assert c0 + TWO_32 * c1 + 8 * len == low + TWO_32 * high;
    SplitHalves(low, high);
    HalvesApart(low, CountHigh(c0, c1, len), high % TWO_32);
    assert low < 8 * len <==> (q > 0 || carry == 1);
    HighHalf(c1, q, if low < 8 * len then 1 else 0);
    OneOff(c1 + q, if low < 8 * len then 1 else 0, carry);
  }

  lemma SplitLow(c0: nat, r: nat, q: nat, carry: nat)
    requires c0 < TWO_32 && r < TWO_32 && carry == (if c0 + r >= TWO_32 then 1 else 0)
    ensures (c0 + (TWO_32 * q + r)) % TWO_32 == c0 + r - TWO_32 * carry
  {
  }

  lemma HighHalf(c1: nat, q: nat, inc: nat)
    requires c1 < TWO_32 && inc <= 1
    ensures ((if inc == 1 then (c1 + 1) % TWO_32 else c1) + q) % TWO_32 == (c1 + q + inc) % TWO_32
  {
  }

  lemma OneOff(x: nat, a: nat, b: nat)
    requires a <= 1 && b <= 1
    ensures (x + a) % TWO_32 == (x + b) % TWO_32 <==> a == b
  {
  }

  lemma CountStep(c0: nat, c1: nat, n: nat, len: nat)
    requires c0 < TWO_32 && c1 < TWO_32 && c0 + TWO_32 * c1 == BitLength(n)
    requires len < 0x2000_0000_0000_0000 && CarryTestRight(c0, len)
    ensures CountLow(c0, len) + TWO_32 * CountHigh(c0, c1, len) == BitLength(n + len)
  {
    hide CountLow, CountHigh;
    CountExact(c0, c1, len);
    BitLengthAdds(n, len);
  }

  lemma BitLengthAdds(n: nat, len: nat)
    ensures (BitLength(n) + 8 * len) % TWO_64 == BitLength(n + len)
  {
  }

  lemma Position(c0: nat, c1: nat, n: nat)
    requires c0 < TWO_32 && c1 < TWO_32 && c0 + TWO_32 * c1 == BitLength(n)
    ensures c0 / 8 % 64 == n % 64
  {
    var k := 8 * n / TWO_64;
    assert 8 * n == TWO_64 * k + (c0 + TWO_32 * c1);
    var e := n - 0x2000_0000_0000_0000 * k - 0x2000_0000 * c1;
    assert c0 == 8 * e;
    Mod64Shift(0x80_0000_0000_0000 * k + 0x80_0000 * c1, e);
  }

  lemma FillsBlock(n: nat)
    ensures (n + (64 - n % 64)) % 64 == 0
  {
  }

  lemma NextBlock(n: nat)
    ensures (n + 64) % 64 == n % 64
  {
  }

  class Sha1Ctx {
    const state: array<word>
    var count0: nat
    var count1: nat
    const buffer: array<byte>
    ghost var msg: seq<byte>  // the bytes hashed so far

    ghost predicate Valid()
      reads this, state, buffer
    {
      && state.Length == 5 && buffer.Length == 64
      && count0 < TWO_32 && count1 < TWO_32
      && count0 + TWO_32 * count1 == BitLength(|msg|)
      && Absorbed(Compress, H0, msg, RegsOf(state[..]), buffer[..])
    }

    // SHA1_Init
    constructor ()
      ensures Valid() && msg == [] && fresh(state) && fresh(buffer)
    {
      state := new word[5];
      buffer := new byte[64];
      count0, count1, msg := 0, 0, [];
      new;
      state[0] := 0x67452301;
      state[1] := 0xEFCDAB89;
      state[2] := 0x98BADCFE;
      state[3] := 0x10325476;
      state[4] := 0xC3D2E1F0;
    }

    // Lines 212-215: count the bytes; j is where the buffered ones end.
    method Count(len: nat, ghost n: nat) returns (j: nat)
      requires count0 < TWO_32 && count1 < TWO_32 && count0 + TWO_32 * count1 == BitLength(n)
      requires len < 0x2000_0000_0000_0000 && CarryTestRight(count0, len)
      modifies this`count0, this`count1
      ensures j == n % 64
      ensures count0 < TWO_32 && count1 < TWO_32 && count0 + TWO_32 * count1 == BitLength(n + len)
    {
      Position(count0, count1, n);
      CountStep(count0, count1, n, len);
      j := count0 / 8 % 64;
      count0 := (count0 + 8 * len) % TWO_32;
      if count0 < 8 * len { count1 := (count1 + 1) % TWO_32; }
      count1 := (count1 + len / TWO_29) % TWO_32;
    }

    // Lines 217-218: complete the buffered block.
    method CompleteBlock(data: seq<byte>, j: nat)
      requires state.Length == 5 && buffer.Length == 64 && Absorbed(Compress, H0, msg, RegsOf(state[..]), buffer[..])
      requires j == |msg| % 64 && |data| == 64 - j
      modifies state, buffer
      ensures Absorbed(Compress, H0, msg + data, RegsOf(state[..]), buffer[..])
    {
      hide Compress, Absorbed, RegsOf;
      ghost var before := buffer[..];
      CopyInto(buffer, j, data);
      assert buffer[..] == before[..j] + data;
      AbsorbFill(Compress, H0, msg, RegsOf(state[..]), before, data, buffer[..], buffer[..]);
      Transform(state, buffer[..]);
    }

    // Lines 219-221: a whole block from the data.
    method AbsorbBlock(b: Block, ghost m: seq<byte>)
      requires state.Length == 5 && buffer.Length == 64 && |m| % 64 == 0
      requires Absorbed(Compress, H0, m, RegsOf(state[..]), buffer[..])
      modifies state
      ensures Absorbed(Compress, H0, m + b, RegsOf(state[..]), buffer[..])
    {
      hide Compress, Absorbed, RegsOf;
      assert buffer[..][..0] + b == b;
      AbsorbFill(Compress, H0, m, RegsOf(state[..]), buffer[..], b, b, buffer[..]);
      Transform(state, b);
    }

    // Lines 216-222: complete the buffered block, then take whole blocks from the data.
    method TakeBlocks(data: seq<byte>, j: nat) returns (i: nat)
      requires state.Length == 5 && buffer.Length == 64 && Absorbed(Compress, H0, msg, RegsOf(state[..]), buffer[..])
      requires j == |msg| % 64 && j + |data| > 63
      modifies state, buffer
      ensures i <= |data| < i + 64 && |msg + data[..i]| % 64 == 0
      ensures Absorbed(Compress, H0, msg + data[..i], RegsOf(state[..]), buffer[..])
    {
      hide Compress, Absorbed, RegsOf;
      i := 64 - j;
      FillsBlock(|msg|);
      CompleteBlock(data[..i], j);
      while i + 63 < |data|
        invariant 64 - j <= i <= |data| && (|msg| + i) % 64 == 0
        invariant Absorbed(Compress, H0, msg + data[..i], RegsOf(state[..]), buffer[..])
      {
        NextBlock(|msg| + i);
        AbsorbBlock(data[i..i + 64], msg + data[..i]);
        assert (msg + data[..i]) + data[i..i + 64] == msg + data[..i + 64];
        i := i + 64;
      }
    }

    // SHA1_Update
    method Update(data: seq<byte>)
      requires Valid() && |data| < 0x2000_0000_0000_0000 && CarryTestRight(count0, |data|)
      modifies this, state, buffer
      ensures Valid() && msg == old(msg) + data
    {
      hide Compress, BitLength, CarryTestRight, Absorbed, RegsOf;
      var i := 0;
      var j := Count(|data|, |msg|);
      ghost var m := msg;
      if j + |data| > 63 {
        i := TakeBlocks(data, j);
        m := msg + data[..i];
        j := 0;
      }
      ghost var before := buffer[..];
      CopyInto(buffer, j, data[i..]);
      assert m + data[i..] == msg + data;
      AbsorbShort(Compress, H0, m, RegsOf(state[..]), before, data[i..], buffer[..]);
      msg := msg + data;
    }

    // Lines 239-243: the bit count, high bytes first.
    method CountBytes() returns (finalcount: array<byte>)
      requires Valid()
      ensures fresh(finalcount) && finalcount[..] == Bytes64(BitLength(|msg|))
    {
      hide Compress, BitLength, Absorbed, RegsOf, ByteAt;
      finalcount := new byte[8];
      var i := 0;
      while i < 8
        invariant i <= 8
        invariant forall k :: 0 <= k < i ==> finalcount[k] == Bytes64(BitLength(|msg|))[k]
      {
        Bytes32At(if i >= 4 then count0 else count1, i % 4);
        LengthHalves(count0, count1, |msg|);
        finalcount[i] := ByteAt(if i >= 4 then count0 else count1, Unit(i % 4));
        i := i + 1;
      }
    }

    // Lines 239-249: append the padding of section 5.1.1, the length last.
    method AppendPadding()
      requires Valid()
      modifies this, state, buffer
      ensures Valid() && msg == Pad(old(msg))
    {
      hide Compress, BitLength, Absorbed, RegsOf, ByteAt, ZeroCount;
      ghost var m, n := msg, |msg|;
      var finalcount := CountBytes();
      Update([0x80]);
      ghost var k := 0;
      ZeroCountLeast(n, 0);
      while count0 / 8 % 64 != 56
        invariant Valid() && msg == m + [0x80] + Zeros(k)
        invariant k <= ZeroCount(n)
        invariant finalcount[..] == Bytes64(BitLength(n))
        decreases ZeroCount(n) - k
      {
        Position(count0, count1, |msg|);
        Update([0]);
        assert Zeros(k) + [0] == Zeros(k + 1);
        k := k + 1;
      }
      Position(count0, count1, |msg|);
      ZeroCountLeast(n, k);
      Update(finalcount[..]);
    }

    // Lines 248-251: write the state out, high bytes first.
    method WriteDigest(digest: array<byte>)
      requires state.Length == 5 && digest.Length >= 20
      modifies digest
      ensures digest[..20] == Digest(RegsOf(state[..])) && digest[20..] == old(digest[20..])
    {
      hide ByteOfWord, Digest;
      var i := 0;
      while i < 20
        invariant i <= 20
        invariant forall k :: 0 <= k < i ==> digest[k] == Digest(RegsOf(state[..]))[k]
        invariant forall k :: 20 <= k < digest.Length ==> digest[k] == old(digest[k])
      {
        DigestAt(RegsOf(state[..]), i);
        digest[i] := ByteOfWord(state[i / 4], i % 4);
        i := i + 1;
      }
    }

    // Lines 254-260: wipe the context.
    method Wipe()
      requires state.Length == 5 && buffer.Length == 64
      modifies this`count0, this`count1, state, buffer
      ensures count0 == 0 && count1 == 0 && buffer[..] == Zeros(64)
    {
      hide Compress;
      forall k | 0 <= k < 64 { buffer[k] := 0; }
      forall k | 0 <= k < 5 { state[k] := 0; }
      count0, count1 := 0, 0;
      assert buffer[..] == Zeros(64);
      Transform(state, buffer[..]);
    }

    // SHA1_Final: the digest of everything hashed, and the context wiped.
    method Final(digest: array<byte>)
      requires Valid() && digest.Length >= 20 && digest != buffer
      modifies this, state, buffer, digest
      ensures digest[..20] == Sha1(old(msg)) && digest[20..] == old(digest[20..])
      ensures count0 == 0 && count1 == 0 && buffer[..] == Zeros(64)
    {
      hide Compress, Absorbed, Digest, Pad, RegsOf, BitLength;
      ghost var m := msg;
      AppendPadding();
      PaddedState(m, RegsOf(state[..]), buffer[..]);
      WriteDigest(digest);
      Wipe();
    }
  }

  lemma PaddedState(m: seq<byte>, r: Regs, buffer: seq<byte>)
    requires Absorbed(Compress, H0, Pad(m), r, buffer)
    ensures r == Fold(Compress, H0, Pad(m))
  {
    hide Pad;
    assert Pad(m)[..|Pad(m)|] == Pad(m);
  }

  lemma DigestAt(r: Regs, i: nat)
    requires i < 20
    ensures Digest(r)[i] == ByteOfWord([r.a, r.b, r.c, r.d, r.e][i / 4], i % 4)
  {
    hide ByteOfWord, BytesOf;
    var ws := [r.a, r.b, r.c, r.d, r.e];
    ByteOfWordIs(ws[i / 4], i % 4);
  }

  // However a message is split into updates (each short enough for the carry test), the digest is
  // that of the whole message.
  method HashChunks(chunks: seq<seq<byte>>) returns (digest: array<byte>)
    requires forall i :: 0 <= i < |chunks| ==> |chunks[i]| < TWO_29
    ensures digest[..] == Sha1(Flatten(chunks))
  {
    hide Sha1Ctx.Valid, Sha1;
    var ctx := new Sha1Ctx();
    var i := 0;
    while i < |chunks|
      invariant i <= |chunks| && ctx.Valid() && fresh(ctx) && fresh(ctx.state) && fresh(ctx.buffer)
      invariant ctx.msg == Flatten(chunks[..i])
    {
      FlattenAppend(chunks[..i], chunks[i]);
      assert chunks[..i + 1] == chunks[..i] + [chunks[i]];
      ctx.Update(chunks[i]);
      i := i + 1;
    }
    assert chunks[..|chunks|] == chunks;
    digest := new byte[20];
    ctx.Final(digest);
    assert digest[..] == digest[..20];
  }

  lemma LengthHalves(c0: nat, c1: nat, n: nat)
    requires c0 < TWO_32 && c0 + TWO_32 * c1 == BitLength(n)
    ensures Bytes64(BitLength(n)) == Bytes32(c1) + Bytes32(c0)
  {
    hide Bytes32;
    assert BitLength(n) / TWO_32 == c1 && BitLength(n) % TWO_32 == c0;
  }
}
