// What the hash functions of rktio_sha1.c and rktio_sha2.c share: big-endian words, padding to a
// whole number of 64-byte blocks, and folding a compression function over them (FIPS 180-4).
module Sha {
  type byte = bv8
  type word = bv32

  const TWO_29 := 0x2000_0000
  const TWO_32 := 0x1_0000_0000
  const TWO_64 := 0x1_0000_0000_0000_0000

  type Block = b: seq<byte> | |b| == 64 witness seq(64, _ => 0)

  function Plus(x: word, y: word): word { x + y }

  function WordOf(a: byte, b: byte, c: byte, d: byte): word {
    ((a as word) << 24) | ((b as word) << 16) | ((c as word) << 8) | (d as word)
  }

  function BytesOf(x: word): (r: seq<byte>)
    ensures |r| == 4
  {
    [(x >> 24) as byte, ((x >> 16) & 0xFF) as byte, ((x >> 8) & 0xFF) as byte, (x & 0xFF) as byte]
  }

  // The i-th big-endian word of a block.
  function WordAt(b: Block, i: nat): word
    requires i < 16
  {
    WordOf(b[4 * i], b[4 * i + 1], b[4 * i + 2], b[4 * i + 3])
  }

  function Words(b: Block): (m: seq<word>)
    ensures |m| == 16
  {
    seq(16, i requires 0 <= i < 16 => WordAt(b, i))
  }

  // ---- words as numbers (sections 2.2 and 3.1 of FIPS 180-4)

  lemma FourBytes(a: byte, b: byte, c: byte, d: byte, x: word)
    requires x == ((a as word) << 24) | ((b as word) << 16) | ((c as word) << 8) | (d as word)
    ensures x as nat == 0x100_0000 * (a as nat) + 0x1_0000 * (b as nat) + 0x100 * (c as nat) + d as nat
  {
  }

  // A word of four bytes is the number they write, high byte first.
  lemma WordOfIs(a: byte, b: byte, c: byte, d: byte)
    ensures WordOf(a, b, c, d) as nat == 0x100_0000 * (a as nat) + 0x1_0000 * (b as nat) + 0x100 * (c as nat) + d as nat
  {
    FourBytes(a, b, c, d, WordOf(a, b, c, d));
  }

  lemma BytesJoin(x: word, a: byte, b: byte, c: byte, d: byte)
    requires a == (x >> 24) as byte && b == ((x >> 16) & 0xFF) as byte && c == ((x >> 8) & 0xFF) as byte && d == (x & 0xFF) as byte
    ensures x == ((a as word) << 24) | ((b as word) << 16) | ((c as word) << 8) | (d as word)
  {
  }

  // ... and the bytes of a word write it.
  lemma BytesOfIs(x: word)
    ensures var r := BytesOf(x);
            x as nat == 0x100_0000 * (r[0] as nat) + 0x1_0000 * (r[1] as nat) + 0x100 * (r[2] as nat) + r[3] as nat
  {
    var r := BytesOf(x);
    BytesJoin(x, r[0], r[1], r[2], r[3]);
    FourBytes(r[0], r[1], r[2], r[3], x);
  }

  // ---- padding (section 5.1.1 of FIPS 180-4)

  function Zeros(n: nat): (z: seq<byte>)
    ensures |z| == n
  {
    seq(n, _ => 0)
  }

  function ZeroCount(n: nat): nat { (119 - n % 64) % 64 }

  // It is the least k with n + 1 + k congruent to 56 modulo 64.
  lemma ZeroCountLeast(n: nat, k: nat)
    ensures (n + 1 + ZeroCount(n)) % 64 == 56
    ensures (n + 1 + k) % 64 == 56 ==> k >= ZeroCount(n)
  {
    var q, r := n / 64, n % 64;
    var z := if r <= 55 then 55 - r else 119 - r;
    assert ZeroCount(n) == z;
    assert n + 1 + z == 64 * (if r <= 55 then q else q + 1) + 56;
    if k < z {
      var m := r + 1 + k;
      assert n + 1 + k == 64 * q + m && m != 56;
    }
  }

  function ByteAt(x: nat, unit: nat): byte
    requires unit > 0
  {
    (x / unit % 256) as byte
  }

  function Bytes32(x: nat): (r: seq<byte>)
    ensures |r| == 4
  {
    [ByteAt(x, 0x100_0000), ByteAt(x, 0x1_0000), ByteAt(x, 0x100), ByteAt(x, 1)]
  }

  function Bytes64(x: nat): (r: seq<byte>)
    ensures |r| == 8
  {
    Bytes32(x / TWO_32) + Bytes32(x % TWO_32)
  }

  lemma FourDigits(x: nat, k: nat, l: nat, m: nat, n: nat)
    requires x == 0x100_0000 * k + 0x1_0000 * l + 0x100 * m + n && k < 256 && l < 256 && m < 256 && n < 256
    ensures x / 0x100_0000 % 256 == k && x / 0x1_0000 % 256 == l && x / 0x100 % 256 == m && x % 256 == n
  {
    Quotients(x, k, 0x1_0000 * l + 0x100 * m + n, 256 * k + l, 0x100 * m + n, 0x1_0000 * k + 256 * l + m, n);
    LastDigit(0, k);
    LastDigit(k, l);
    LastDigit(256 * k + l, m);
    LastDigit(0x1_0000 * k + 256 * l + m, n);
  }

  lemma Quotients(x: nat, p: nat, i: nat, q: nat, j: nat, r: nat, k: nat)
    requires x == 0x100_0000 * p + i == 0x1_0000 * q + j == 0x100 * r + k && i < 0x100_0000 && j < 0x1_0000 && k < 0x100
    ensures x / 0x100_0000 == p && x / 0x1_0000 == q && x / 0x100 == r
  {
  }

  lemma LastDigit(high: nat, low: nat)
    requires low < 256
    ensures (256 * high + low) % 256 == low
  {
  }

  lemma ByteAtIs(x: nat, unit: nat, b: byte, n: nat)
    requires unit > 0 && n == x / unit % 256 && n == b as nat
    ensures ByteAt(x, unit) == b
  {
    SameByte(b, n);
  }

  lemma SameByte(b: byte, n: nat)
    requires n < 256 && n == b as nat
    ensures n as byte == b
  {
  }

  // The bytes are those that write the number, high byte first.
  lemma Bytes32Is(x: nat, a: byte, b: byte, c: byte, d: byte)
    requires x == 0x100_0000 * (a as nat) + 0x1_0000 * (b as nat) + 0x100 * (c as nat) + d as nat
    ensures Bytes32(x) == [a, b, c, d]
  {
    hide ByteAt;
    var k, l, m, n := a as nat, b as nat, c as nat, d as nat;
    FourDigits(x, k, l, m, n);
    ByteAtIs(x, 0x100_0000, a, k);
    ByteAtIs(x, 0x1_0000, b, l);
    ByteAtIs(x, 0x100, c, m);
    ByteAtIs(x, 1, d, n);
  }

  lemma Bytes64Is(high: nat, low: nat)
    requires low < TWO_32
    ensures Bytes64(TWO_32 * high + low) == Bytes32(high) + Bytes32(low)
  {
    hide Bytes32;
  }

  // The message length in bits, as the 64-bit counters hold it.
  function BitLength(n: nat): nat { 8 * n % TWO_64 }

  lemma PaddedLength(n: nat)
    ensures (n + 1 + ZeroCount(n) + 8) % 64 == 0
  {
    hide ZeroCount;
    ZeroCountLeast(n, 0);
    EightMore(n + 1 + ZeroCount(n));
  }

  lemma EightMore(x: nat)
    requires x % 64 == 56
    ensures (x + 8) % 64 == 0
  {
    assert x == 64 * (x / 64) + 56;
  }

  function Pad(msg: seq<byte>): (r: seq<byte>)
    ensures |r| % 64 == 0
  {
    hide BitLength, ZeroCount;
    PaddedLength(|msg|);
    msg + [0x80] + Zeros(ZeroCount(|msg|)) + Bytes64(BitLength(|msg|))
  }

  // ---- counters in two 32-bit halves

  lemma SplitHalves(low: nat, high: nat)
    requires low < TWO_32
    ensures (low + TWO_32 * high) % TWO_64 == low + TWO_32 * (high % TWO_32)
  {
    assert high == TWO_32 * (high / TWO_32) + high % TWO_32;
    var k := high / TWO_32;
    assert low + TWO_32 * high == TWO_64 * k + (low + TWO_32 * (high % TWO_32));
  }

  lemma HalvesApart(low: nat, a: nat, b: nat)
    ensures low + TWO_32 * a == low + TWO_32 * b <==> a == b
  {
  }

  lemma Mod64Shift(x: nat, e: nat)
    ensures (64 * x + e) % 64 == e % 64
  {
  }

  // ---- folding

  function Fold<S>(f: (S, Block) -> S, s: S, m: seq<byte>): S
    requires |m| % 64 == 0
    decreases |m|
  {
    if m == [] then s else Fold(f, f(s, m[..64]), m[64..])
  }

  lemma {:induction false} FoldAppend<S>(f: (S, Block) -> S, s: S, m: seq<byte>, n: seq<byte>)
    requires |m| % 64 == 0 && |n| % 64 == 0
    ensures Fold(f, s, m + n) == Fold(f, Fold(f, s, m), n)
    decreases |m|
  {
    if m == [] {
      assert m + n == n;
    } else {
      assert (m + n)[..64] == m[..64] && (m + n)[64..] == m[64..] + n;
      FoldAppend(f, f(s, m[..64]), m[64..], n);
    }
  }

  lemma FoldOne<S>(f: (S, Block) -> S, s: S, b: Block)
    ensures Fold(f, s, b) == f(s, b)
  {
    assert b[..64] == b && b[64..] == [];
  }

  // Where the last whole block of a message of length n ends.
  function Whole(n: nat): (r: nat)
    ensures r <= n && r % 64 == 0 && n - r == n % 64
  {
    n - n % 64
  }

  // The chaining state and the buffered tail after the bytes of msg.
  ghost predicate Absorbed<S>(f: (S, Block) -> S, s0: S, msg: seq<byte>, s: S, buffer: seq<byte>) {
    && |buffer| == 64
    && s == Fold(f, s0, msg[..Whole(|msg|)])
    && buffer[..|msg| % 64] == msg[Whole(|msg|)..]
  }

  // Absorbing less than what fills the buffer.
  lemma AbsorbShort<S>(f: (S, Block) -> S, s0: S, msg: seq<byte>, s: S, before: seq<byte>, data: seq<byte>, after: seq<byte>)
    requires Absorbed(f, s0, msg, s, before) && |msg| % 64 + |data| < 64
    requires |after| == 64 && after[..|msg| % 64 + |data|] == before[..|msg| % 64] + data
    ensures Absorbed(f, s0, msg + data, s, after)
  {
    var m := msg + data;
    assert Whole(|m|) == Whole(|msg|);
    assert m[..Whole(|m|)] == msg[..Whole(|msg|)];
    assert m[Whole(|m|)..] == msg[Whole(|msg|)..] + data;
  }

  // Filling the buffer exactly, and compressing it: afterwards nothing is buffered.
  lemma AbsorbFill<S>(f: (S, Block) -> S, s0: S, msg: seq<byte>, s: S, before: seq<byte>, data: seq<byte>, full: Block, after: seq<byte>)
    requires Absorbed(f, s0, msg, s, before) && |msg| % 64 + |data| == 64
    requires full == before[..|msg| % 64] + data && |after| == 64
    ensures Absorbed(f, s0, msg + data, f(s, full), after)
  {
    var m := msg + data;
    var k := Whole(|msg|);
    assert Whole(|m|) == |m| == k + 64;
    assert m[..|m|] == msg[..k] + full;
    FoldAppend(f, s0, msg[..k], full);
    FoldOne(f, s, full);
  }

  // memcpy into a buffer.
  method CopyInto(dst: array<byte>, at: nat, src: seq<byte>)
    requires at + |src| <= dst.Length
    modifies dst
    ensures dst[..] == old(dst[..at]) + src + old(dst[at + |src|..])
  {
    forall k | 0 <= k < |src| {
      dst[at + k] := src[k];
    }
  }

  // Byte k of a word, from the high end, as a shift by (3 - k) * 8 and a mask pick it.
  function ByteOfWord(x: word, k: nat): byte
    requires k < 4
  {
    if k == 0 then ((x >> 24) & 0xFF) as byte
    else if k == 1 then ((x >> 16) & 0xFF) as byte
    else if k == 2 then ((x >> 8) & 0xFF) as byte
    else (x & 0xFF) as byte
  }

  lemma TopByte(x: word)
    ensures (x >> 24) & 0xFF == x >> 24
  {
  }

  lemma ByteOfWordIs(x: word, k: nat)
    requires k < 4
    ensures ByteOfWord(x, k) == BytesOf(x)[k]
  {
    TopByte(x);
  }

  // The words one after the other, each from its high byte.
  function WordBytes(ws: seq<word>): (r: seq<byte>)
    ensures |r| == 4 * |ws|
  {
    seq(4 * |ws|, i requires 0 <= i < 4 * |ws| => BytesOf(ws[i / 4])[i % 4])
  }

  // The place value of byte k of a 32-bit number, from the high end.
  function Unit(k: nat): nat {
    if k == 0 then 0x100_0000 else if k == 1 then 0x1_0000 else if k == 2 then 0x100 else 1
  }

  lemma Bytes32At(x: nat, k: nat)
    requires k < 4
    ensures Bytes32(x)[k] == ByteAt(x, Unit(k))
  {
  }

  function Flatten(chunks: seq<seq<byte>>): seq<byte> {
    if chunks == [] then [] else chunks[0] + Flatten(chunks[1..])
  }

  lemma {:induction false} FlattenAppend(chunks: seq<seq<byte>>, c: seq<byte>)
    ensures Flatten(chunks + [c]) == Flatten(chunks) + c
  {
    if chunks == [] {
      assert chunks + [c] == [c] && [c][1..] == [];
    } else {
      FlattenAppend(chunks[1..], c);
      assert (chunks + [c])[1..] == chunks[1..] + [c];
    }
  }
}
