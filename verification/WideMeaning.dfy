// The bytes of a character and the value of a surrogate pair, as numbers.
module WideMeaning {
  import opened WideSpec

  lemma Digits1(v: code, a: byte)
    requires v < 0x80 && a == v as byte
    ensures a as nat == v as nat
  {
  }

  lemma Digits2(v: code, a: byte, b: byte)
    requires 0x80 <= v < 0x800 && a == (0xC0 | (v >> 6)) as byte && b == (0x80 | (v & 0x3F)) as byte
    ensures a >= 0xC0 && 0x80 <= b < 0xC0 && v as nat == 0x40 * (a as nat - 0xC0) + (b as nat - 0x80)
  {
  }

  lemma Digits3(v: code, a: byte, b: byte, c: byte)
    requires 0x800 <= v < 0x10000 && a == (0xE0 | (v >> 12)) as byte && b == (0x80 | ((v >> 6) & 0x3F)) as byte && c == (0x80 | (v & 0x3F)) as byte
    ensures a >= 0xE0 && 0x80 <= b < 0xC0 && 0x80 <= c < 0xC0
    ensures v as nat == 0x1000 * (a as nat - 0xE0) + 0x40 * (b as nat - 0x80) + (c as nat - 0x80)
  {
  }

  lemma Halves4(v: code, p: code, q: code, a: byte, b: byte, c: byte, d: byte)
    requires 0x10000 <= v <= 0x10FFFF && a == (0xF0 | (v >> 18)) as byte && b == (0x80 | ((v >> 12) & 0x3F)) as byte
    requires c == (0x80 | ((v >> 6) & 0x3F)) as byte && d == (0x80 | (v & 0x3F)) as byte && p == v >> 12 && q == v & 0xFFF
    ensures a >= 0xF0 && 0x80 <= b < 0xC0 && 0x80 <= c < 0xC0 && 0x80 <= d < 0xC0
    ensures p < 0x200 && a == (0xF0 | (p >> 6)) as byte && b == (0x80 | (p & 0x3F)) as byte
    ensures q < 0x1000 && c == (0x80 | (q >> 6)) as byte && d == (0x80 | (q & 0x3F)) as byte
  {
  }

  lemma Joined4(v: code, p: code, q: code)
    requires v <= 0x10FFFF && p == v >> 12 && q == v & 0xFFF
    ensures v as nat == 0x1000 * (p as nat) + q as nat
  {
  }

  lemma UpperHalf(p: code, a: byte, b: byte)
    requires p < 0x200 && a == (0xF0 | (p >> 6)) as byte && b == (0x80 | (p & 0x3F)) as byte
    ensures a >= 0xF0 && b >= 0x80 && p as nat == 0x40 * (a as nat - 0xF0) + (b as nat - 0x80)
  {
  }

  lemma LowerHalf(q: code, c: byte, d: byte)
    requires q < 0x1000 && c == (0x80 | (q >> 6)) as byte && d == (0x80 | (q & 0x3F)) as byte
    ensures c >= 0x80 && d >= 0x80 && q as nat == 0x40 * (c as nat - 0x80) + (d as nat - 0x80)
  {
  }

  lemma Digits4(v: code, a: byte, b: byte, c: byte, d: byte)
    requires 0x10000 <= v <= 0x10FFFF && a == (0xF0 | (v >> 18)) as byte && b == (0x80 | ((v >> 12) & 0x3F)) as byte
    requires c == (0x80 | ((v >> 6) & 0x3F)) as byte && d == (0x80 | (v & 0x3F)) as byte
    ensures a >= 0xF0 && 0x80 <= b < 0xC0 && 0x80 <= c < 0xC0 && 0x80 <= d < 0xC0
    ensures v as nat == 0x40000 * (a as nat - 0xF0) + 0x1000 * (b as nat - 0x80) + 0x40 * (c as nat - 0x80) + (d as nat - 0x80)
  {
    var p, q := v >> 12, v & 0xFFF;
    Halves4(v, p, q, a, b, c, d);
    Joined4(v, p, q);
    UpperHalf(p, a, b);
    LowerHalf(q, c, d);
  }

  // Section 3 of RFC 3629: each length for its range, and the value that the bytes write.
  lemma OneByteIs(v: code) returns (a: byte)
    requires v < 0x80
    ensures EncodeChar(v) == [a] && v as nat == a as nat
  {
    a := v as byte;
    Digits1(v, a);
  }

  lemma TwoBytesAre(v: code) returns (a: byte, b: byte)
    requires 0x80 <= v < 0x800
    ensures EncodeChar(v) == [a, b] && a >= 0xC0 && 0x80 <= b < 0xC0
    ensures v as nat == 0x40 * (a as nat - 0xC0) + (b as nat - 0x80)
  {
    a, b := (0xC0 | (v >> 6)) as byte, (0x80 | (v & 0x3F)) as byte;
    Digits2(v, a, b);
  }

  lemma ThreeBytesAre(v: code) returns (a: byte, b: byte, c: byte)
    requires 0x800 <= v < 0x10000
    ensures EncodeChar(v) == [a, b, c] && a >= 0xE0 && 0x80 <= b < 0xC0 && 0x80 <= c < 0xC0
    ensures v as nat == 0x1000 * (a as nat - 0xE0) + 0x40 * (b as nat - 0x80) + (c as nat - 0x80)
  {
    a, b, c := (0xE0 | (v >> 12)) as byte, (0x80 | ((v >> 6) & 0x3F)) as byte, (0x80 | (v & 0x3F)) as byte;
    Digits3(v, a, b, c);
  }

  lemma FourBytesAre(v: code) returns (a: byte, b: byte, c: byte, d: byte)
    requires 0x10000 <= v <= 0x10FFFF
    ensures EncodeChar(v) == [a, b, c, d] && a >= 0xF0 && 0x80 <= b < 0xC0 && 0x80 <= c < 0xC0 && 0x80 <= d < 0xC0
    ensures v as nat == 0x40000 * (a as nat - 0xF0) + 0x1000 * (b as nat - 0x80) + 0x40 * (c as nat - 0x80) + (d as nat - 0x80)
  {
    a, b := (0xF0 | (v >> 18)) as byte, (0x80 | ((v >> 12) & 0x3F)) as byte;
    c, d := (0x80 | ((v >> 6) & 0x3F)) as byte, (0x80 | (v & 0x3F)) as byte;
    Digits4(v, a, b, c, d);
  }

  lemma Offset(a: unit, x: code)
    requires 0xD800 <= a <= 0xDBFF && x == (a & 0x3FF) as code
    ensures a as nat == 0xD800 + x as nat && x < 0x400
  {
  }

  lemma LowOffset(a: unit, x: code)
    requires 0xDC00 <= a <= 0xDFFF && x == (a & 0x3FF) as code
    ensures a as nat == 0xDC00 + x as nat && x < 0x400
  {
  }

  lemma Shifted(x: code, y: code, w: code)
    requires x < 0x400 && y < 0x400 && w == (x << 10) | y
    ensures w as nat == 0x400 * (x as nat) + y as nat && w < 0x100000
  {
  }

  lemma Carried(w: code, v: code, h: code, k: code, l: code)
    requires w < 0x100000 && v == w + 0x10000 && h == w >> 16 && k == v >> 16 && l == w & 0xFFFF
    ensures k == h + 1 && h < 0x10 && v & 0xFFFF == l
  {
  }

  lemma TwoHalves(v: code, k: code, l: code)
    requires v <= 0x10FFFF && k == v >> 16 && l == v & 0xFFFF
    ensures v as nat == 0x10000 * (k as nat) + l as nat
  {
  }

  lemma Next(h: code, k: code)
    requires h < 0x10 && k == h + 1
    ensures k as nat == h as nat + 1
  {
  }

  lemma Sum(w: code, v: code)
    requires w < 0x100000 && v == w + 0x10000
    ensures v as nat == w as nat + 0x10000
  {
    var h, k, l := w >> 16, v >> 16, w & 0xFFFF;
    Carried(w, v, h, k, l);
    Next(h, k);
    TwoHalves(v, k, l);
    TwoHalves(w, h, l);
  }

  lemma PairForm(a: unit, b: unit) returns (x: code, y: code, w: code)
    ensures x == (a & 0x3FF) as code && y == (b & 0x3FF) as code && PairValue(a, b) == w + 0x10000
    ensures x < 0x400 && y < 0x400 ==> w as nat == 0x400 * (x as nat) + y as nat && w < 0x100000
  {
    x, y := (a & 0x3FF) as code, (b & 0x3FF) as code;
    w := (x << 10) | y;
    if x < 0x400 && y < 0x400 { Shifted(x, y, w); }
  }

  // Section 2.1 of RFC 2781.
  lemma PairIs(a: unit, b: unit)
    requires 0xD800 <= a <= 0xDBFF && 0xDC00 <= b <= 0xDFFF
    ensures PairValue(a, b) as nat == 0x10000 + 0x400 * (a as nat - 0xD800) + (b as nat - 0xDC00)
  {
    hide PairValue;
    var x, y, w := PairForm(a, b);
    Offset(a, x);
    LowOffset(b, y);
    Sum(w, PairValue(a, b));
  }
}
