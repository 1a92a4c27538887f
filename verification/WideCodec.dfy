// The extended UTF-8 / UTF-16 codec of racket/src/rktio/rktio_wide.c.  Every sequence of 16-bit
// units has exactly one encoding, unpaired surrogates included.

// Both encodings as grammars: values up to 0x10FFFF, surrogate values among them.
module WideSpec {
  import opened Options

  type byte = bv8
  type unit = bv16
  type code = bv32

  predicate Hi(v: code) { 0xD800 <= v <= 0xDBFF }

  predicate Lo(v: code) { 0xDC00 <= v <= 0xDFFF }

  // ---- bytes (section 4 of RFC 3629, without its exclusion of surrogates)

  function EncodeChar(v: code): (r: seq<byte>)
    requires v <= 0x10FFFF
    ensures 1 <= |r| <= 4
  {
    if v < 0x80 then [v as byte]
    else if v < 0x800 then [(0xC0 | (v >> 6)) as byte, (0x80 | (v & 0x3F)) as byte]
    else if v < 0x10000 then
      [(0xE0 | (v >> 12)) as byte, (0x80 | ((v >> 6) & 0x3F)) as byte, (0x80 | (v & 0x3F)) as byte]
    else
      [(0xF0 | (v >> 18)) as byte, (0x80 | ((v >> 12) & 0x3F)) as byte,
       (0x80 | ((v >> 6) & 0x3F)) as byte, (0x80 | (v & 0x3F)) as byte]
  }

  predicate Tail(b: byte) { 0x80 <= b <= 0xBF }

  // How many bytes a lead byte calls for; 0 for a byte that leads nothing.
  function LeadLength(b: byte): nat {
    if b <= 0x7F then 1
    else if 0xC2 <= b <= 0xDF then 2
    else if 0xE0 <= b <= 0xEF then 3
    else if 0xF0 <= b <= 0xF4 then 4
    else 0
  }

  // The second byte's range after a lead byte that would otherwise allow an overlong form or a
  // value beyond 0x10FFFF.
  predicate SecondOk(lead: byte, b: byte) {
    && Tail(b)
    && (lead == 0xE0 ==> b >= 0xA0)
    && (lead == 0xF0 ==> b >= 0x90)
    && (lead == 0xF4 ==> b <= 0x8F)
  }

  function LeadBits(b: byte): code {
    if b <= 0x7F then b as code
    else if b <= 0xDF then (b & 0x1F) as code
    else if b <= 0xEF then (b & 0x0F) as code
    else (b & 0x07) as code
  }

  function AddTail(v: code, b: byte): code { (v << 6) | (b & 0x3F) as code }

  predicate WellFormedChar(bs: seq<byte>) {
    && bs != [] && LeadLength(bs[0]) == |bs|
    && (|bs| >= 2 ==> SecondOk(bs[0], bs[1]))
    && (|bs| >= 3 ==> Tail(bs[2]))
    && (|bs| >= 4 ==> Tail(bs[3]))
  }

  function CharValue(bs: seq<byte>): code
    requires 1 <= |bs| <= 4
  {
    if |bs| == 1 then LeadBits(bs[0])
    else if |bs| == 2 then AddTail(LeadBits(bs[0]), bs[1])
    else if |bs| == 3 then AddTail(AddTail(LeadBits(bs[0]), bs[1]), bs[2])
    else AddTail(AddTail(AddTail(LeadBits(bs[0]), bs[1]), bs[2]), bs[3])
  }

  // The bit arithmetic, one length at a time, both ways.

  lemma Bits2(v: code)
    requires 0x80 <= v < 0x800
    ensures var a, b := (0xC0 | (v >> 6)) as byte, (0x80 | (v & 0x3F)) as byte;
            0xC2 <= a <= 0xDF && SecondOk(a, b) && AddTail((a & 0x1F) as code, b) == v
  {
  }

  lemma Bits3(v: code)
    requires 0x800 <= v < 0x10000
    ensures var a, b, c := (0xE0 | (v >> 12)) as byte, (0x80 | ((v >> 6) & 0x3F)) as byte, (0x80 | (v & 0x3F)) as byte;
            0xE0 <= a <= 0xEF && SecondOk(a, b) && Tail(c) && AddTail(AddTail((a & 0x0F) as code, b), c) == v
  {
  }

  lemma Bits4Range(v: code)
    requires 0x10000 <= v <= 0x10FFFF
    ensures var a, b := (0xF0 | (v >> 18)) as byte, (0x80 | ((v >> 12) & 0x3F)) as byte;
            0xF0 <= a <= 0xF4 && 0x80 <= b <= 0xBF && (a == 0xF0 ==> b >= 0x90) && (a == 0xF4 ==> b <= 0x8F)
  {
  }

  lemma Bits4Value(v: code)
    requires 0x10000 <= v <= 0x10FFFF
    ensures var a, b := (0xF0 | (v >> 18)) as byte, (0x80 | ((v >> 12) & 0x3F)) as byte;
            var c, d := (0x80 | ((v >> 6) & 0x3F)) as byte, (0x80 | (v & 0x3F)) as byte;
            0x80 <= c <= 0xBF && 0x80 <= d <= 0xBF
            && ((((((((a & 0x07) as code) << 6) | (b & 0x3F) as code) << 6) | (c & 0x3F) as code) << 6) | (d & 0x3F) as code) == v
  {
  }

  lemma Bits4(v: code)
    requires 0x10000 <= v <= 0x10FFFF
    ensures var a, b := (0xF0 | (v >> 18)) as byte, (0x80 | ((v >> 12) & 0x3F)) as byte;
            var c, d := (0x80 | ((v >> 6) & 0x3F)) as byte, (0x80 | (v & 0x3F)) as byte;
            0xF0 <= a <= 0xF4 && SecondOk(a, b) && Tail(c) && Tail(d)
            && AddTail(AddTail(AddTail((a & 0x07) as code, b), c), d) == v
  {
    Bits4Range(v);
    Bits4Value(v);
  }

  lemma Bytes2(a: byte, b: byte)
    requires 0xC2 <= a <= 0xDF && SecondOk(a, b)
    ensures var v := AddTail((a & 0x1F) as code, b);
            0x80 <= v < 0x800 && (0xC0 | (v >> 6)) as byte == a && (0x80 | (v & 0x3F)) as byte == b
  {
  }

  lemma Bytes3(a: byte, b: byte, c: byte)
    requires 0xE0 <= a <= 0xEF && SecondOk(a, b) && Tail(c)
    ensures var v := AddTail(AddTail((a & 0x0F) as code, b), c);
            0x800 <= v < 0x10000 && (0xE0 | (v >> 12)) as byte == a
            && (0x80 | ((v >> 6) & 0x3F)) as byte == b && (0x80 | (v & 0x3F)) as byte == c
  {
  }

  lemma Bytes4(a: byte, b: byte, c: byte, d: byte)
    requires 0xF0 <= a <= 0xF4 && SecondOk(a, b) && Tail(c) && Tail(d)
    ensures var v := AddTail(AddTail(AddTail((a & 0x07) as code, b), c), d);
            0x10000 <= v <= 0x10FFFF && (0xF0 | (v >> 18)) as byte == a && (0x80 | ((v >> 12) & 0x3F)) as byte == b
            && (0x80 | ((v >> 6) & 0x3F)) as byte == c && (0x80 | (v & 0x3F)) as byte == d
  {
  }

  lemma EncodedIsWellFormed(v: code)
    requires v <= 0x10FFFF
    ensures WellFormedChar(EncodeChar(v)) && CharValue(EncodeChar(v)) == v
  {
    hide AddTail, SecondOk, Tail;
    if v < 0x80 {
    } else if v < 0x800 {
      Bits2(v);
    } else if v < 0x10000 {
      Bits3(v);
    } else {
      Bits4(v);
    }
  }

  lemma LeadRanges(a: byte)
    ensures LeadLength(a) <= 4 && (LeadLength(a) == 1 <==> a <= 0x7F)
    ensures LeadLength(a) == 2 <==> 0xC2 <= a <= 0xDF
    ensures LeadLength(a) == 3 <==> 0xE0 <= a <= 0xEF
    ensures LeadLength(a) == 4 <==> 0xF0 <= a <= 0xF4
    ensures LeadLength(a) == 1 ==> LeadBits(a) < 0x80 && LeadBits(a) as byte == a
    ensures LeadLength(a) == 2 ==> LeadBits(a) == (a & 0x1F) as code
    ensures LeadLength(a) == 3 ==> LeadBits(a) == (a & 0x0F) as code
    ensures LeadLength(a) == 4 ==> LeadBits(a) == (a & 0x07) as code
  {
  }

  lemma Parsed2(a: byte, b: byte)
    requires 0xC2 <= a <= 0xDF && SecondOk(a, b)
    ensures var v := AddTail((a & 0x1F) as code, b); v <= 0x10FFFF && EncodeChar(v) == [a, b]
  {
    hide AddTail, SecondOk;
    Bytes2(a, b);
  }

  lemma Parsed3(a: byte, b: byte, c: byte)
    requires 0xE0 <= a <= 0xEF && SecondOk(a, b) && Tail(c)
    ensures var v := AddTail(AddTail((a & 0x0F) as code, b), c); v <= 0x10FFFF && EncodeChar(v) == [a, b, c]
  {
    hide AddTail, SecondOk, Tail;
    Bytes3(a, b, c);
  }

  lemma Parsed4(a: byte, b: byte, c: byte, d: byte)
    requires 0xF0 <= a <= 0xF4 && SecondOk(a, b) && Tail(c) && Tail(d)
    ensures var v := AddTail(AddTail(AddTail((a & 0x07) as code, b), c), d);
            v <= 0x10FFFF && EncodeChar(v) == [a, b, c, d]
  {
    hide AddTail, SecondOk, Tail;
    Bytes4(a, b, c, d);
  }

  lemma ParsedIsEncoded(bs: seq<byte>)
    requires WellFormedChar(bs)
    ensures CharValue(bs) <= 0x10FFFF && EncodeChar(CharValue(bs)) == bs
  {
    hide AddTail, SecondOk, Tail, LeadLength, LeadBits;
    LeadRanges(bs[0]);
    if |bs| == 1 {
      assert bs == [bs[0]];
    } else if |bs| == 2 {
      assert bs == [bs[0], bs[1]];
      Parsed2(bs[0], bs[1]);
    } else if |bs| == 3 {
      assert bs == [bs[0], bs[1], bs[2]];
      Parsed3(bs[0], bs[1], bs[2]);
    } else {
      assert bs == [bs[0], bs[1], bs[2], bs[3]];
      Parsed4(bs[0], bs[1], bs[2], bs[3]);
    }
  }

  function EncodeAll(vs: seq<code>): seq<byte>
    requires Codes(vs)
  {
    if vs == [] then [] else EncodeChar(vs[0]) + EncodeAll(vs[1..])
  }

  predicate Codes(vs: seq<code>) {
    forall i :: 0 <= i < |vs| ==> vs[i] <= 0x10FFFF
  }

  // The values of a byte string read from position i on, if it is well formed from there.
  function Parse(bs: seq<byte>, i: nat): (r: Option<seq<code>>)
    requires i <= |bs|
    ensures r.Some? ==> Codes(r.value)
    decreases |bs| - i
  {
    if i == |bs| then Some([])
    else
      var n := LeadLength(bs[i]);
      if n == 0 || i + n > |bs| || !WellFormedChar(bs[i..i + n]) then None
      else
        var rest := Parse(bs, i + n);
        ParsedIsEncoded(bs[i..i + n]);
        if rest.None? then None else Some([CharValue(bs[i..i + n])] + rest.value)
  }

  // Parsing undoes encoding, wherever the encoding stands ...
  lemma {:induction false} ParseEncoded(pre: seq<byte>, vs: seq<code>)
    requires Codes(vs)
    ensures Parse(pre + EncodeAll(vs), |pre|) == Some(vs)
    decreases |vs|
  {
    hide WellFormedChar, CharValue, EncodeChar, LeadLength;
    if vs != [] {
      var c := EncodeChar(vs[0]);
      EncodedIsWellFormed(vs[0]);
      ParseEncoded(pre + c, vs[1..]);
      ParseStep(pre, c, EncodeAll(vs[1..]), vs[1..]);
      assert pre + c + EncodeAll(vs[1..]) == pre + EncodeAll(vs);
      assert [vs[0]] + vs[1..] == vs;
    }
  }

  lemma ParseStep(pre: seq<byte>, c: seq<byte>, post: seq<byte>, vs: seq<code>)
    requires WellFormedChar(c) && Parse(pre + c + post, |pre| + |c|) == Some(vs)
    ensures Parse(pre + c + post, |pre|) == Some([CharValue(c)] + vs)
  {
    hide WellFormedChar, CharValue, EncodeChar, LeadLength;
    WellFormedLength(c);
    var bs := pre + c + post;
    assert bs[|pre|..|pre| + |c|] == c && bs[|pre|] == c[0];
  }

  lemma WellFormedLength(bs: seq<byte>)
    requires WellFormedChar(bs)
    ensures bs != [] && LeadLength(bs[0]) == |bs|
  {
  }

  // ... and encoding undoes parsing: no two byte strings have the same values.
  lemma {:induction false} EncodeParsed(bs: seq<byte>, i: nat)
    requires i <= |bs| && Parse(bs, i).Some?
    ensures EncodeAll(Parse(bs, i).value) == bs[i..]
    decreases |bs| - i
  {
    hide WellFormedChar, CharValue, EncodeChar, LeadLength;
    if i < |bs| {
      var n := LeadLength(bs[i]);
      EncodeParsed(bs, i + n);
      ParsedIsEncoded(bs[i..i + n]);
      var vs := Parse(bs, i).value;
      assert vs[1..] == Parse(bs, i + n).value;
      assert bs[i..] == bs[i..i + n] + bs[i + n..];
    }
  }

  // ---- 16-bit units (section 2 of RFC 2781, with unpaired surrogates standing for themselves)

  predicate HiUnit(u: unit) { 0xD800 <= u <= 0xDBFF }

  predicate LoUnit(u: unit) { 0xDC00 <= u <= 0xDFFF }

  function Wide(u: unit): (v: code)
    ensures v <= 0xFFFF && v <= 0x10FFFF
  {
    u as code
  }

  function Narrow(v: code): unit
    requires v <= 0xFFFF
  {
    v as unit
  }

  function PairValue(a: unit, b: unit): code {
    ((((a & 0x3FF) as code) << 10) | (b & 0x3FF) as code) + 0x10000
  }

  function HighUnit(v: code): unit
    requires 0x10000 <= v <= 0x10FFFF
  {
    (0xD800 | ((v - 0x10000) >> 10)) as unit
  }

  function LowUnit(v: code): unit
    requires 0x10000 <= v <= 0x10FFFF
  {
    (0xDC00 | ((v - 0x10000) & 0x3FF)) as unit
  }

  function UnitsOf(v: code): (r: seq<unit>)
    requires v <= 0x10FFFF
    ensures 1 <= |r| <= 2
  {
    if v <= 0xFFFF then [Narrow(v)] else [HighUnit(v), LowUnit(v)]
  }

  function Units(vs: seq<code>): seq<unit>
    requires Codes(vs)
  {
    if vs == [] then [] else UnitsOf(vs[0]) + Units(vs[1..])
  }

  function Values(us: seq<unit>): (vs: seq<code>)
    ensures Codes(vs)
  {
    if us == [] then []
    else if |us| >= 2 && HiUnit(us[0]) && LoUnit(us[1]) then
      PairRange(us[0], us[1]);
      [PairValue(us[0], us[1])] + Values(us[2..])
    else [Wide(us[0])] + Values(us[1..])
  }

  lemma PairBits(a: unit, b: unit)
    ensures var v := ((((a & 0x3FF) as code) << 10) | (b & 0x3FF) as code) + 0x10000;
            0x10000 <= v <= 0x10FFFF && !(v <= 0xFFFF)
            && (0xD800 <= a <= 0xDBFF ==> (0xD800 | ((v - 0x10000) >> 10)) as unit == a)
            && (0xDC00 <= b <= 0xDFFF ==> (0xDC00 | ((v - 0x10000) & 0x3FF)) as unit == b)
  {
  }

  lemma UnitBits(w: code)
    requires w < 0x100000
    ensures var a, b := (0xD800 | (w >> 10)) as unit, (0xDC00 | (w & 0x3FF)) as unit;
            0xD800 <= a <= 0xDBFF && 0xDC00 <= b <= 0xDFFF && (((a & 0x3FF) as code) << 10) | (b & 0x3FF) as code == w
  {
  }

  lemma Rebased(v: code) returns (w: code)
    requires 0x10000 <= v <= 0x10FFFF
    ensures w < 0x100000 && v == w + 0x10000
  {
    w := v - 0x10000;
  }

  lemma Based(w: code)
    requires w < 0x100000
    ensures var v := w + 0x10000;
            0x10000 <= v <= 0x10FFFF && !(v <= 0xFFFF) && v - 0x10000 == w
  {
  }

  lemma PairRange(a: unit, b: unit)
    ensures 0x10000 <= PairValue(a, b) <= 0x10FFFF
  {
    PairBits(a, b);
  }

  lemma PairParts(a: unit, b: unit)
    requires HiUnit(a) && LoUnit(b)
    ensures var v := PairValue(a, b);
            0x10000 <= v <= 0x10FFFF && !(v <= 0xFFFF) && HighUnit(v) == a && LowUnit(v) == b
  {
    PairBits(a, b);
  }

  lemma PairUnits(a: unit, b: unit)
    requires HiUnit(a) && LoUnit(b)
    ensures 0x10000 <= PairValue(a, b) <= 0x10FFFF && UnitsOf(PairValue(a, b)) == [a, b]
  {
    hide PairValue, HighUnit, LowUnit;
    PairParts(a, b);
  }

  lemma OffsetUnits(w: code)
    requires w < 0x100000
    ensures 0x10000 <= w + 0x10000 <= 0x10FFFF && !(w + 0x10000 <= 0xFFFF)
    ensures HighUnit(w + 0x10000) == (0xD800 | (w >> 10)) as unit && LowUnit(w + 0x10000) == (0xDC00 | (w & 0x3FF)) as unit
  {
    Based(w);
    UnitBits(w);
  }

  lemma JoinParts(w: code, a: unit, b: unit)
    requires w < 0x100000
    requires a == (0xD800 | (w >> 10)) as unit && b == (0xDC00 | (w & 0x3FF)) as unit
    ensures HiUnit(a) && LoUnit(b) && PairValue(a, b) == w + 0x10000
  {
    UnitBits(w);
  }

  lemma OffsetParts(w: code, v: code)
    requires w < 0x100000 && v == w + 0x10000 && 0x10000 <= v <= 0x10FFFF
    ensures !(v <= 0xFFFF) && HiUnit(HighUnit(v)) && LoUnit(LowUnit(v)) && PairValue(HighUnit(v), LowUnit(v)) == v
  {
    hide HighUnit, LowUnit, HiUnit, LoUnit, PairValue;
    OffsetUnits(w);
    JoinParts(w, HighUnit(v), LowUnit(v));
  }

  lemma ValueParts(v: code)
    requires 0x10000 <= v <= 0x10FFFF
    ensures !(v <= 0xFFFF) && HiUnit(HighUnit(v)) && LoUnit(LowUnit(v)) && PairValue(HighUnit(v), LowUnit(v)) == v
  {
    hide HighUnit, LowUnit, HiUnit, LoUnit, PairValue;
    var w := Rebased(v);
    OffsetParts(w, v);
  }

  lemma UnitsPair(v: code)
    requires 0x10000 <= v <= 0x10FFFF
    ensures var us := UnitsOf(v); |us| == 2 && HiUnit(us[0]) && LoUnit(us[1]) && PairValue(us[0], us[1]) == v
  {
    hide PairValue, HighUnit, LowUnit, HiUnit, LoUnit;
    ValueParts(v);
  }

  // ---- the two layers of units

  // No unpaired high surrogate directly before an unpaired low one: those two are a pair.
  predicate Separated(vs: seq<code>) {
    forall i :: 0 <= i < |vs| - 1 ==> !(Hi(vs[i]) && Lo(vs[i + 1]))
  }

  lemma SingleUnit(u: unit)
    ensures Wide(u) <= 0xFFFF && Wide(u) <= 0x10FFFF && UnitsOf(Wide(u)) == [u]
    ensures (Hi(Wide(u)) <==> HiUnit(u)) && (Lo(Wide(u)) <==> LoUnit(u))
  {
  }

  lemma {:induction false} UnitsValues(us: seq<unit>)
    ensures Units(Values(us)) == us
    decreases |us|
  {
    hide UnitsOf, PairValue, HiUnit, LoUnit, Wide;
    if us == [] {
    } else if |us| >= 2 && HiUnit(us[0]) && LoUnit(us[1]) {
      UnitsValues(us[2..]);
      PairUnits(us[0], us[1]);
      assert Values(us)[1..] == Values(us[2..]);
    } else {
      UnitsValues(us[1..]);
      SingleUnit(us[0]);
      assert Values(us)[1..] == Values(us[1..]);
    }
  }

  // The first value of a sequence of units: low exactly when the first unit is.
  lemma FirstValue(us: seq<unit>)
    requires us != []
    ensures Values(us) != [] && (Lo(Values(us)[0]) ==> LoUnit(us[0])) && (Hi(Values(us)[0]) ==> HiUnit(us[0]))
  {
    hide PairValue, Hi, Lo, HiUnit, LoUnit, Wide;
    SingleUnit(us[0]);
    if |us| >= 2 && HiUnit(us[0]) && LoUnit(us[1]) { PairNotSurrogate(us[0], us[1]); }
  }

  lemma PairNotSurrogate(a: unit, b: unit)
    ensures !Hi(PairValue(a, b)) && !Lo(PairValue(a, b))
  {
    PairBits(a, b);
  }

  lemma {:induction false} ValuesSeparated(us: seq<unit>)
    ensures Separated(Values(us))
    decreases |us|
  {
    hide PairValue, Hi, Lo, HiUnit, LoUnit, Wide;
    if us == [] {
    } else if |us| >= 2 && HiUnit(us[0]) && LoUnit(us[1]) {
      ValuesSeparated(us[2..]);
      PairNotSurrogate(us[0], us[1]);
      SeparatedCons(PairValue(us[0], us[1]), Values(us[2..]));
    } else {
      ValuesSeparated(us[1..]);
      SingleUnit(us[0]);
      if |us| >= 2 { FirstValue(us[1..]); }
      SeparatedCons(Wide(us[0]), Values(us[1..]));
    }
  }

  lemma SeparatedCons(v: code, vs: seq<code>)
    ensures Separated([v] + vs) <==> Separated(vs) && (vs != [] ==> !(Hi(v) && Lo(vs[0])))
  {
    hide Hi, Lo;
    var ws := [v] + vs;
    if Separated(ws) {
      assert vs != [] ==> !(Hi(ws[0]) && Lo(ws[0 + 1]));
      forall i | 0 <= i < |vs| - 1 ensures !(Hi(vs[i]) && Lo(vs[i + 1])) {
        assert !(Hi(ws[i + 1]) && Lo(ws[(i + 1) + 1]));
      }
    }
  }

  lemma SmallBits(v: code)
    requires v <= 0xFFFF
    ensures var u := v as unit;
            u as code == v && (0xD800 <= u <= 0xDBFF <==> 0xD800 <= v <= 0xDBFF) && (0xDC00 <= u <= 0xDFFF <==> 0xDC00 <= v <= 0xDFFF)
  {
  }

  lemma NarrowBits(v: code)
    requires v <= 0xFFFF
    ensures 0xD800 <= Narrow(v) <= 0xDBFF <==> 0xD800 <= v <= 0xDBFF
    ensures 0xDC00 <= Narrow(v) <= 0xDFFF <==> 0xDC00 <= v <= 0xDFFF
    ensures Wide(Narrow(v)) == v
  {
    SmallBits(v);
  }

  lemma SmallUnit(v: code)
    requires v <= 0xFFFF
    ensures UnitsOf(v) == [Narrow(v)] && Wide(Narrow(v)) == v
    ensures (HiUnit(Narrow(v)) <==> Hi(v)) && (LoUnit(Narrow(v)) <==> Lo(v))
  {
    hide Wide, Narrow;
    NarrowBits(v);
  }

  lemma LargeUnit(v: code)
    requires 0x10000 <= v <= 0x10FFFF
    ensures !Hi(v) && !Lo(v) && !LoUnit(UnitsOf(v)[0])
  {
    hide HighUnit, LowUnit, PairValue;
    ValueParts(v);
    HiNotLo(HighUnit(v));
  }

  lemma FirstUnit(v: code)
    requires v <= 0x10FFFF
    ensures LoUnit(UnitsOf(v)[0]) ==> Lo(v)
    ensures v <= 0xFFFF ==> UnitsOf(v) == [Narrow(v)] && (HiUnit(Narrow(v)) <==> Hi(v)) && Wide(Narrow(v)) == v
  {
    hide UnitsOf, HiUnit, LoUnit, Hi, Lo, Wide, Narrow;
    if v <= 0xFFFF { SmallUnit(v); } else { LargeUnit(v); }
  }

  lemma HiNotLo(u: unit)
    ensures !(HiUnit(u) && LoUnit(u))
  {
  }

  lemma ValuesOfSingle(u: unit, rest: seq<unit>)
    requires !(HiUnit(u) && rest != [] && LoUnit(rest[0]))
    ensures Values([u] + rest) == [Wide(u)] + Values(rest)
  {
    hide HiUnit, LoUnit, PairValue, Wide;
    var us := [u] + rest;
    assert us[0] == u && us[1..] == rest && (rest != [] ==> us[1] == rest[0]);
  }

  lemma ValuesOfPair(a: unit, b: unit, rest: seq<unit>)
    requires HiUnit(a) && LoUnit(b)
    ensures Values([a, b] + rest) == [PairValue(a, b)] + Values(rest)
  {
    hide HiUnit, LoUnit, PairValue, Wide;
    var us := [a, b] + rest;
    assert us[0] == a && us[1] == b && us[2..] == rest;
  }

  lemma {:induction false} ValuesUnits(vs: seq<code>)
    requires Codes(vs) && Separated(vs)
    ensures Values(Units(vs)) == vs
    decreases |vs|
  {
    hide UnitsOf, PairValue, HiUnit, LoUnit, Hi, Lo, Values, Wide, Narrow;
    if vs == [] {
      NoValues();
    } else {
      var v, rest := vs[0], vs[1..];
      assert vs == [v] + rest;
      SeparatedCons(v, rest);
      ValuesUnits(rest);
      FirstUnit(v);
      if rest != [] { FirstUnit(rest[0]); }
      if v <= 0xFFFF {
        ValuesOfSingle(Narrow(v), Units(rest));
      } else {
        BeyondBmp(v);
        UnitsPair(v);
        var us := UnitsOf(v);
        assert us == [us[0], us[1]];
        ValuesOfPair(us[0], us[1], Units(rest));
      }
    }
  }

  lemma NoValues()
    ensures Values([]) == []
  {
  }

  lemma BeyondBmp(v: code)
    requires v <= 0x10FFFF && !(v <= 0xFFFF)
    ensures 0x10000 <= v
  {
  }

  // ---- the codec

  function Encode(us: seq<unit>): seq<byte> {
    EncodeAll(Values(us))
  }

  // The decoder accepts a well-formed string unless it writes a pair as two surrogates.
  function Decode(bs: seq<byte>): Option<seq<unit>> {
    var vs := Parse(bs, 0);
    if vs.Some? && Separated(vs.value) then Some(Units(vs.value)) else None
  }

  // Decoding undoes encoding, for every sequence of 16-bit units.
  lemma DecodeEncode(us: seq<unit>)
    ensures Decode(Encode(us)) == Some(us)
  {
    hide Values, Units, Separated;
    ParseEncoded([], Values(us));
    assert [] + Encode(us) == Encode(us);
    ValuesSeparated(us);
    UnitsValues(us);
  }

  // Encoding undoes decoding, for every byte string that is accepted.
  lemma EncodeDecode(bs: seq<byte>)
    requires Decode(bs).Some?
    ensures Encode(Decode(bs).value) == bs
  {
    hide Values, Units, Separated;
    EncodeParsed(bs, 0);
    ValuesUnits(Parse(bs, 0).value);
    assert bs[0..] == bs;
  }

  // The accepted strings are the encoder's image.
  lemma AcceptedExactly(bs: seq<byte>)
    ensures Decode(bs).Some? <==> exists us :: Encode(us) == bs
  {
    if Decode(bs).Some? { EncodeDecode(bs); }
    if us :| Encode(us) == bs { DecodeEncode(us); }
  }

  // Decoding never produces more units than it reads bytes.
  lemma DecodeShrinks(bs: seq<byte>)
    requires Decode(bs).Some?
    ensures |Decode(bs).value| <= |bs|
  {
    ParseShrinks(bs, 0);
  }

  lemma {:induction false} ParseShrinks(bs: seq<byte>, i: nat)
    requires i <= |bs| && Parse(bs, i).Some?
    ensures |Units(Parse(bs, i).value)| <= |bs| - i
    decreases |bs| - i
  {
    hide WellFormedChar, CharValue;
    if i < |bs| {
      var n := LeadLength(bs[i]);
      ParseShrinks(bs, i + n);
      assert Parse(bs, i).value[1..] == Parse(bs, i + n).value;
      OneUnitPerByte(bs[i..i + n]);
    }
  }

  lemma OneUnitPerByte(c: seq<byte>)
    requires WellFormedChar(c)
    ensures CharValue(c) <= 0x10FFFF && |UnitsOf(CharValue(c))| <= |c|
  {
    hide HighUnit, LowUnit;
    ParsedIsEncoded(c);
  }
}

// The two loops of rktio_wide.c, and the measure-then-fill conversions built on them.
module WideCodec {
  import opened Options
  import opened WideSpec

  lemma {:induction false} EncodeAllAppend(vs: seq<code>, ws: seq<code>)
    requires Codes(vs) && Codes(ws)
    ensures Codes(vs + ws) && EncodeAll(vs + ws) == EncodeAll(vs) + EncodeAll(ws)
  {
    hide EncodeChar;
    if vs == [] {
      assert vs + ws == ws;
    } else {
      EncodeAllAppend(vs[1..], ws);
      assert (vs + ws)[1..] == vs[1..] + ws;
    }
  }

  lemma {:induction false} UnitsAppend(vs: seq<code>, ws: seq<code>)
    requires Codes(vs) && Codes(ws)
    ensures Codes(vs + ws) && Units(vs + ws) == Units(vs) + Units(ws)
  {
    hide UnitsOf;
    if vs == [] {
      assert vs + ws == ws;
    } else {
      UnitsAppend(vs[1..], ws);
      assert (vs + ws)[1..] == vs[1..] + ws;
    }
  }

  // The bytes written on lines 233-245.
  function Lead2(wc: code): byte { (0xC0 | ((wc & 0x7C0) >> 6)) as byte }

  function Lead3(wc: code): byte { (0xE0 | ((wc & 0xF000) >> 12)) as byte }

  function Lead4(wc: code): byte { (0xF0 | ((wc & 0x1C0000) >> 18)) as byte }

  function Tail12(wc: code): byte { (0x80 | ((wc & 0x03F000) >> 12)) as byte }

  function Tail6(wc: code): byte { (0x80 | ((wc & 0x0FC0) >> 6)) as byte }

  function Tail0(wc: code): byte { (0x80 | (wc & 0x3F)) as byte }

  // Their masks select the same bits as the encoding's definition.
  lemma MaskForms(wc: code)
    requires wc <= 0x10FFFF
    ensures wc < 0x800 ==> (wc & 0x7C0) >> 6 == wc >> 6
    ensures wc < 0x10000 ==> (wc & 0xF000) >> 12 == wc >> 12
    ensures (wc & 0x0FC0) >> 6 == (wc >> 6) & 0x3F
    ensures (wc & 0x1C0000) >> 18 == wc >> 18
    ensures (wc & 0x03F000) >> 12 == (wc >> 12) & 0x3F
    ensures wc < 0x200000
  {
  }

  lemma BytesWritten(wc: code)
    requires 0x80 <= wc <= 0x10FFFF
    ensures EncodeChar(wc) ==
      if wc < 0x800 then [Lead2(wc), Tail0(wc)]
      else if wc < 0x10000 then [Lead3(wc), Tail6(wc), Tail0(wc)]
      else [Lead4(wc), Tail12(wc), Tail6(wc), Tail0(wc)]
  {
    MaskForms(wc);
  }

  method PutTwo(s: array<byte>, j: nat, a: byte, b: byte) returns (j': nat)
    requires j + 2 <= s.Length
    modifies s
    ensures j' == j + 2 && s[..] == old(s[..j]) + [a, b] + old(s[j'..])
  {
    s[j] := a;
    s[j + 1] := b;
    j' := j + 2;
  }

  method PutThree(s: array<byte>, j: nat, a: byte, b: byte, c: byte) returns (j': nat)
    requires j + 3 <= s.Length
    modifies s
    ensures j' == j + 3 && s[..] == old(s[..j]) + [a, b, c] + old(s[j'..])
  {
    s[j] := a;
    j' := PutTwo(s, j + 1, b, c);
  }

  method PutFour(s: array<byte>, j: nat, a: byte, b: byte, c: byte, d: byte) returns (j': nat)
    requires j + 4 <= s.Length
    modifies s
    ensures j' == j + 4 && s[..] == old(s[..j]) + [a, b, c, d] + old(s[j'..])
  {
    s[j] := a;
    j' := PutThree(s, j + 1, b, c, d);
  }

  lemma OneByte(wc: code)
    requires wc < 0x80
    ensures EncodeChar(wc) == [wc as byte]
  {
  }

  // Lines 217-260: the length of one character's encoding, or its bytes.  The forms of five and
  // six bytes (lines 226-229 and 246-258) are for values that never arise here.
  method PutChar(wc: code, s: array?<byte>, j: nat) returns (j': nat)
    requires wc <= 0x10FFFF
    requires s != null ==> j + |EncodeChar(wc)| <= s.Length
    modifies s
    ensures j' == j + |EncodeChar(wc)|
    ensures s != null ==> s[..] == old(s[..j]) + EncodeChar(wc) + old(s[j'..])
  {
    hide EncodeChar, Lead2, Lead3, Lead4, Tail12, Tail6, Tail0;
    if wc < 0x80 { OneByte(wc); } else { BytesWritten(wc); }
    j' := j;
    if s == null {
      if wc < 0x80 { j' := j' + 1; }
      else if wc < 0x800 { j' := j' + 2; }
      else if wc < 0x10000 { j' := j' + 3; }
      else { j' := j' + 4; }
    } else {
      if wc < 0x80 {
        s[j'] := wc as byte; j' := j' + 1;
      } else if wc < 0x800 {
        j' := PutTwo(s, j', Lead2(wc), Tail0(wc));
      } else if wc < 0x10000 {
        j' := PutThree(s, j', Lead3(wc), Tail6(wc), Tail0(wc));
      } else {
        j' := PutFour(s, j', Lead4(wc), Tail12(wc), Tail6(wc), Tail0(wc));
      }
    }
  }

  // The bit tests of lines 204-209, and lines 213-214.
  predicate SurrogateBits(wc: code) { wc & 0xF800 == 0xD800 }

  predicate HighBits(wc: code) { wc & 0xFC00 == 0xD800 }

  predicate LowBits(w: unit) { w & 0xFC00 == 0xDC00 }

  function Join(wc: code, w: unit): code { ((wc & 0x3FF) << 10) + ((w as code) & 0x3FF) + 0x10000 }

  lemma SurrogateTests(u: unit)
    ensures SurrogateBits(Wide(u)) <==> HiUnit(u) || LoUnit(u)
    ensures HighBits(Wide(u)) <==> HiUnit(u)
    ensures LowBits(u) <==> LoUnit(u)
  {
  }

  lemma JoinIsPair(u: unit, w: unit)
    ensures Join(Wide(u), w) == PairValue(u, w)
  {
  }

  // One round of the encoder's loop takes one value.
  lemma ValuesStep(us: seq<unit>, i: nat)
    requires i < |us|
    ensures var v := if HiUnit(us[i]) && i + 1 < |us| && LoUnit(us[i + 1]) then PairValue(us[i], us[i + 1]) else Wide(us[i]);
            var k := if HiUnit(us[i]) && i + 1 < |us| && LoUnit(us[i + 1]) then i + 2 else i + 1;
            v <= 0x10FFFF && Values(us[i..]) == [v] + Values(us[k..])
  {
    hide HiUnit, LoUnit, PairValue, Values, Wide;
    var t := us[i..];
    if HiUnit(us[i]) && i + 1 < |us| && LoUnit(us[i + 1]) {
      PairRange(us[i], us[i + 1]);
      ValuesOfPair(us[i], us[i + 1], us[i + 2..]);
      assert t == [us[i], us[i + 1]] + us[i + 2..];
    } else {
      ValuesOfSingle(us[i], us[i + 1..]);
      assert t == [us[i]] + us[i + 1..];
    }
  }

  // Lines 203-216: the value at position i, and where the next one starts.
  method NextValue(us: seq<unit>, i: nat) returns (wc: code, i': nat)
    requires i < |us|
    ensures i < i' <= |us| && wc <= 0x10FFFF
    ensures Values(us[i..]) == [wc] + Values(us[i'..])
  {
    hide Values, PairValue, HiUnit, LoUnit, SurrogateBits, HighBits, LowBits, Join, Wide;
    ValuesStep(us, i);
    SurrogateTests(us[i]);
    wc, i' := Wide(us[i]), i;
    if SurrogateBits(wc) {
      if !HighBits(wc) {
      } else {
        if i' + 1 < |us| { SurrogateTests(us[i' + 1]); }
        if i' + 1 >= |us| || !LowBits(us[i' + 1]) {
        } else {
          JoinIsPair(us[i], us[i + 1]);
          i' := i' + 1;
          wc := Join(wc, us[i']);
        }
      }
    }
    i' := i' + 1;
  }

  // utf16ish_to_utf8ish: with a NULL buffer it measures, otherwise it fills.
  method Utf16ishToUtf8ish(us: seq<unit>, s: array?<byte>) returns (j: nat)
    requires s != null ==> s.Length >= |Encode(us)|
    modifies s
    ensures j == |Encode(us)|
    ensures s != null ==> s[..j] == Encode(us) && s[j..] == old(s[j..])
  {
    hide Values, EncodeChar;
    NoValues();
    j := 0;
    var i := 0;
    ghost var done: seq<code> := [];
    assert us[0..] == us;
    while i < |us|
      invariant i <= |us| && Codes(done)
      invariant Values(us) == done + Values(us[i..])
      invariant j == |EncodeAll(done)| <= |Encode(us)|
      invariant s != null ==> s[..j] == EncodeAll(done) && s[j..] == old(s[j..])
      decreases |us| - i
    {
      var wc, next := NextValue(us, i);
      EncodeOne(us, done, wc, i, next);
      ghost var j0 := j;
      j := PutChar(wc, s, j);
      done := done + [wc];
      i := next;
    }
    assert us[|us|..] == [] && done + [] == done;
  }

  lemma EncodeOne(us: seq<unit>, done: seq<code>, wc: code, i: nat, next: nat)
    requires i < next <= |us| && Codes(done) && wc <= 0x10FFFF
    requires Values(us) == done + Values(us[i..]) && Values(us[i..]) == [wc] + Values(us[next..])
    ensures Codes(done + [wc]) && Values(us) == (done + [wc]) + Values(us[next..])
    ensures EncodeAll(done + [wc]) == EncodeAll(done) + EncodeChar(wc)
    ensures |EncodeAll(done)| + |EncodeChar(wc)| <= |Encode(us)|
  {
    hide Values, EncodeChar;
    EncodeAllAppend(done, [wc]);
    assert EncodeAll([wc]) == EncodeChar(wc) + EncodeAll([]) == EncodeChar(wc);
    EncodeAllAppend(done + [wc], Values(us[next..]));
  }

  // ---- decoding, one byte at a time

  // What the second byte is checked for when it comes (line 70); F4 8F is only checked at the end.
  predicate LooseSecond(lead: byte, b: byte) {
    Tail(b) && (lead == 0xE0 ==> b >= 0xA0) && (lead == 0xF0 ==> b >= 0x90)
  }

  function RequiredBits(p: seq<byte>): byte {
    if |p| == 1 && p[0] == 0xE0 then 0x20 else if |p| == 1 && p[0] == 0xF0 then 0x30 else 0
  }

  // `state`, `v` and `nextbits` after the bytes p of an unfinished character.
  predicate Partial(p: seq<byte>, state: nat, v: code, nextbits: byte) {
    if p == [] then state == 0 && nextbits == 0
    else
      && |p| <= 3 && state > 0 && LeadLength(p[0]) == |p| + state
      && (|p| >= 2 ==> LooseSecond(p[0], p[1]))
      && (|p| >= 3 ==> Tail(p[2]))
      && v == CharValue(p) && nextbits == RequiredBits(p)
  }

  // No well-formed character starts with the bytes q.
  predicate Doomed(q: seq<byte>) {
    q != []
    && (LeadLength(q[0]) == 0
        || (2 <= |q| <= LeadLength(q[0])
            && (!SecondOk(q[0], q[1]) || (|q| >= 3 && !Tail(q[2])) || (|q| >= 4 && !Tail(q[3])))))
  }

  lemma DoomedParse(bs: seq<byte>, c: nat, q: seq<byte>)
    requires c + |q| <= |bs| && bs[c..c + |q|] == q && Doomed(q)
    ensures Parse(bs, c) == None
  {
    hide SecondOk, Tail, CharValue, LeadLength;
    assert bs[c] == q[0];
    var n := LeadLength(bs[c]);
    if n > 0 && c + n <= |bs| {
      var t := bs[c..c + n];
      assert t[0] == q[0] && t[1] == q[1] && (|q| >= 3 ==> t[2] == q[2]) && (|q| >= 4 ==> t[3] == q[3]);
    }
  }

  // The bit tests of lines 60-120 on a byte.
  predicate TailBits(b: byte) { b & 0xC0 == 0x80 }

  predicate TwoBits(b: byte) { b & 0xE0 == 0xC0 }

  predicate TwoLong(b: byte) { b & 0x1E != 0 }

  predicate ThreeBits(b: byte) { b & 0xF0 == 0xE0 }

  predicate FourBits(b: byte) { b & 0xF8 == 0xF0 }

  predicate HasBits(b: byte, nextbits: byte) { b & nextbits != 0 }

  function Bits(b: byte, mask: byte): code { (b & mask) as code }

  function Append(v: code, b: byte): code { (v << 6) + (b & 0x3F) as code }

  lemma ByteTests(b: byte)
    ensures TailBits(b) <==> Tail(b)
    ensures b < 0x80 <==> LeadLength(b) == 1
    ensures !(b < 0x80) && !TailBits(b) && TwoBits(b) ==> (TwoLong(b) <==> LeadLength(b) == 2) && (!TwoLong(b) ==> LeadLength(b) == 0)
    ensures !TwoBits(b) && ThreeBits(b) ==> LeadLength(b) == 3
    ensures !TwoBits(b) && !ThreeBits(b) && FourBits(b) ==>
              (Bits(b, 0x07) <= 4 <==> LeadLength(b) == 4) && (!(Bits(b, 0x07) <= 4) ==> LeadLength(b) == 0)
    ensures !(b < 0x80) && !TwoBits(b) && !ThreeBits(b) && !FourBits(b) ==> LeadLength(b) == 0
    ensures Tail(b) ==> LeadLength(b) == 0
    ensures ThreeBits(b) ==> (Bits(b, 0x0F) == 0 <==> b == 0xE0)
    ensures FourBits(b) ==> b != 0xE0 && (Bits(b, 0x07) == 0 <==> b == 0xF0)
    ensures (ThreeBits(b) ==> b != 0xF0) && (TwoBits(b) ==> b != 0xE0 && b != 0xF0)
  {
  }

  lemma ByteValues(b: byte)
    ensures LeadLength(b) == 1 ==> LeadBits(b) == b as code
    ensures LeadLength(b) == 2 ==> LeadBits(b) == Bits(b, 0x1F)
    ensures LeadLength(b) == 3 ==> LeadBits(b) == Bits(b, 0x0F)
    ensures LeadLength(b) == 4 ==> LeadBits(b) == Bits(b, 0x07)
  {
  }

  lemma AppendIsAddTail(v: code, b: byte)
    ensures Append(v, b) == AddTail(v, b)
  {
  }

  lemma RequiredTests(b: byte)
    requires Tail(b)
    ensures HasBits(b, 0x20) <==> b >= 0xA0
    ensures HasBits(b, 0x30) <==> b >= 0x90
  {
  }

  // Line 80: a value above 0x10FFFF is F4 with a second byte above 8F.
  lemma TooLarge(a: byte, b: byte, c: byte, d: byte)
    requires 0xF0 <= a <= 0xF4 && LooseSecond(a, b) && Tail(c) && Tail(d)
    ensures AddTail(AddTail(AddTail((a & 0x07) as code, b), c), d) > 0x10FFFF <==> !SecondOk(a, b)
  {
  }

  lemma NotTooLarge(p: seq<byte>)
    requires 2 <= |p| <= 3 && LeadLength(p[0]) == |p| && LooseSecond(p[0], p[1]) && (|p| == 3 ==> Tail(p[2]))
    ensures WellFormedChar(p) && !(CharValue(p) > 0x10FFFF)
  {
  }

  // Lines 59-124: one byte b after the bytes p of an unfinished character (none when state is 0).
  method Feed(b: byte, state: nat, v: code, nextbits: byte, ghost p: seq<byte>)
    returns (ok: bool, complete: bool, state': nat, v': code, nextbits': byte)
    requires Partial(p, state, v, nextbits)
    ensures !ok ==> Doomed(p + [b])
    ensures ok && !complete ==> state' > 0 && Partial(p + [b], state', v', nextbits')
    ensures ok && complete ==> state' == 0 && nextbits' == 0 && WellFormedChar(p + [b]) && v' == CharValue(p + [b])
  {
    hide Tail, SecondOk, LooseSecond, LeadLength, LeadBits, AddTail, TailBits, TwoBits, TwoLong, ThreeBits, FourBits, HasBits, Bits, Append;
    ByteTests(b);
    ByteValues(b);
    state', v', nextbits' := state, v, nextbits;
    ok, complete := true, false;
    ghost var q := p + [b];
    if b < 0x80 {
      if state' > 0 {
        LeadIsNoTail(p, b);
        ok := false;
        return;
      }
      v' := b as code;
    } else if TailBits(b) {
      if state' > 0 {
        if nextbits' == 0 || HasBits(b, nextbits') {
          TailAccepted(p, state, v, nextbits, b);
          v' := Append(v', b);
          nextbits' := 0;
          state' := state' - 1;
          if state' > 0 { return; }
          if v' > 0x10FFFF {
            TailTooLarge(p, state, v, nextbits, b);
            ok := false;
            return;
          }
          TailFinishes(p, state, v, nextbits, b);
        } else {
          TailRejected(p, state, v, nextbits, b);
          ok := false;
          return;
        }
      } else {
        ok := false;
        return;
      }
    } else if state' > 0 {
      LeadIsNoTail(p, b);
      ok := false;
      return;
    } else {
      if TwoBits(b) {
        if TwoLong(b) {
          state' := 1;
          v' := Bits(b, 0x1F);
          return;
        }
      } else if ThreeBits(b) {
        state' := 2;
        v' := Bits(b, 0x0F);
        if Bits(b, 0x0F) == 0 { nextbits' := 0x20; }
        return;
      } else if FourBits(b) {
        v' := Bits(b, 0x07);
        if Bits(b, 0x07) <= 4 {
          state' := 3;
          if Bits(b, 0x07) == 0 { nextbits' := 0x30; }
          return;
        }
      }
      ok := false;
      return;
    }
    complete := true;
  }

  lemma LeadIsNoTail(p: seq<byte>, b: byte)
    requires p != [] && |p| <= 3 && |p| < LeadLength(p[0]) && !Tail(b)
    ensures Doomed(p + [b])
  {
    hide LeadLength;
    var q := p + [b];
    assert q[0] == p[0] && q[|p|] == b && SecondOk(q[0], q[1]) ==> Tail(q[1]);
  }

  lemma TailRejected(p: seq<byte>, state: nat, v: code, nextbits: byte, b: byte)
    requires Partial(p, state, v, nextbits) && p != [] && Tail(b)
    requires nextbits != 0 && !HasBits(b, nextbits)
    ensures Doomed(p + [b])
  {
    hide LeadLength, HasBits, CharValue, Tail;
    RequiredTests(b);
    var q := p + [b];
    assert q[0] == p[0] && q[1] == b;
  }

  lemma TailAccepted(p: seq<byte>, state: nat, v: code, nextbits: byte, b: byte)
    requires Partial(p, state, v, nextbits) && p != [] && Tail(b)
    requires nextbits == 0 || HasBits(b, nextbits)
    ensures var q := p + [b];
            |q| <= 4 && LeadLength(q[0]) == |q| + state - 1 && LooseSecond(q[0], q[1])
            && (|q| >= 3 ==> Tail(q[2])) && (|q| >= 4 ==> Tail(q[3]))
            && Append(v, b) == CharValue(q)
    ensures state > 1 ==> Partial(p + [b], state - 1, Append(v, b), 0)
  {
    hide LeadLength, HasBits, Tail, Append, AddTail, LeadBits;
    LeadAtMostFour(p[0]);
    RequiredTests(b);
    AppendIsAddTail(v, b);
    var q := p + [b];
    assert q[0] == p[0] && q[|p|] == b && (|p| >= 2 ==> q[1] == p[1]) && (|p| >= 3 ==> q[2] == p[2]);
  }

  lemma LeadAtMostFour(b: byte)
    ensures LeadLength(b) <= 4 && (LeadLength(b) == 4 ==> 0xF0 <= b <= 0xF4 && LeadBits(b) == (b & 0x07) as code)
  {
  }

  lemma TailTooLarge(p: seq<byte>, state: nat, v: code, nextbits: byte, b: byte)
    requires Partial(p, state, v, nextbits) && p != [] && Tail(b) && state == 1
    requires nextbits == 0 || HasBits(b, nextbits)
    requires Append(v, b) > 0x10FFFF
    ensures Doomed(p + [b])
  {
    hide LeadLength, HasBits, Tail, Append, AddTail, LeadBits, SecondOk, LooseSecond;
    TailAccepted(p, state, v, nextbits, b);
    var q := p + [b];
    LeadAtMostFour(q[0]);
    if |q| == 4 {
      TooLarge(q[0], q[1], q[2], q[3]);
    } else {
      NotTooLarge(q);
    }
  }

  lemma TailFinishes(p: seq<byte>, state: nat, v: code, nextbits: byte, b: byte)
    requires Partial(p, state, v, nextbits) && p != [] && Tail(b) && state == 1
    requires nextbits == 0 || HasBits(b, nextbits)
    requires !(Append(v, b) > 0x10FFFF)
    ensures WellFormedChar(p + [b])
  {
    hide LeadLength, HasBits, Tail, Append, AddTail, LeadBits, SecondOk, LooseSecond;
    TailAccepted(p, state, v, nextbits, b);
    var q := p + [b];
    LeadAtMostFour(q[0]);
    if |q| == 4 {
      TooLarge(q[0], q[1], q[2], q[3]);
    } else {
      NotTooLarge(q);
    }
  }

  // ---- output, with a high surrogate held back until the next value is known

  predicate Holds(vs: seq<code>) { vs != [] && Hi(vs[|vs| - 1]) }

  // j and pending_surrogate after the values vs.
  ghost predicate OutState(j: int, pending: unit, vs: seq<code>) {
    && Codes(vs) && Separated(vs)
    && (if Holds(vs) then
          j == |Units(vs)| - 1 && j >= 0 && pending != 0 && pending == Units(vs)[j]
        else j == |Units(vs)| && pending == 0)
  }

  lemma SeparatedAppend(vs: seq<code>, v: code)
    ensures Separated(vs + [v]) <==> Separated(vs) && !(Holds(vs) && Lo(v))
  {
    hide Hi, Lo;
    var ws := vs + [v];
    if Separated(ws) {
      forall i | 0 <= i < |vs| - 1 ensures !(Hi(vs[i]) && Lo(vs[i + 1])) {
        assert !(Hi(ws[i]) && Lo(ws[i + 1]));
      }
      if vs != [] { assert !(Hi(ws[|vs| - 1]) && Lo(ws[|vs| - 1 + 1])); }
    }
  }

  lemma UnitsSnoc(vs: seq<code>, v: code)
    requires Codes(vs) && v <= 0x10FFFF
    ensures Codes(vs + [v]) && Units(vs + [v]) == Units(vs) + UnitsOf(v)
  {
    hide UnitsOf;
    UnitsAppend(vs, [v]);
    assert Units([v]) == UnitsOf(v) + Units([]) == UnitsOf(v);
  }

  // The tests of lines 128 and 147-158, and the two halves of lines 138-140.
  predicate IsSurrogate(v: code) { v >= 0xD800 && v <= 0xDFFF }

  predicate LowTest(v: code) { v & 0xDC00 == 0xDC00 }

  predicate HighTest(v: code) { v & 0xDC00 == 0xD800 }

  function FirstHalf(v: code): unit
    requires 0x10000 <= v <= 0x10FFFF
  {
    (0xD800 | (((v - 0x10000) >> 10) & 0x3FF)) as unit
  }

  lemma EmitTests(v: code)
    ensures IsSurrogate(v) ==> (LowTest(v) <==> Lo(v)) && (HighTest(v) <==> Hi(v))
    ensures Hi(v) || Lo(v) ==> IsSurrogate(v)
    ensures Hi(v) ==> !Lo(v) && v <= 0xFFFF
    ensures v > 0xFFFF ==> 0x10000 <= v && !(v <= 0xFFFF) && !Hi(v) && !Lo(v)
    ensures !(v > 0xFFFF) ==> v <= 0xFFFF && v <= 0x10FFFF
  {
  }

  lemma MaskTop(w: code)
    requires w < 0x100000
    ensures (w >> 10) & 0x3FF == w >> 10
  {
  }

  lemma FirstHalfIsHigh(v: code)
    requires 0x10000 <= v <= 0x10FFFF
    ensures FirstHalf(v) == HighUnit(v)
  {
    var w := Rebased(v);
    Based(w);
    MaskTop(w);
  }

  lemma SurrogateNonzero(v: code)
    requires Hi(v) && v <= 0xFFFF
    ensures Narrow(v) != 0
  {
    SmallBits(v);
  }

  // Lines 129-135, 152-157 and 164-169: the surrogate held back turned out unpaired.
  method Flush(us: array?<unit>, j: int, pending: unit, ghost vs: seq<code>) returns (j': int)
    requires OutState(j, pending, vs)
    requires us != null ==> |Units(vs)| <= us.Length && us[..j] == Units(vs)[..j]
    modifies us
    ensures j' == |Units(vs)|
    ensures us != null ==> us[..j'] == Units(vs) && forall k :: j' <= k < us.Length ==> us[k] == old(us[k])
  {
    hide Units, Separated;
    j' := j;
    if pending != 0 {
      if us != null { us[j'] := pending; }
      j' := j' + 1;
      assert us != null ==> us[..j'] == us[..j] + [pending];
    }
  }

  // Lines 126-177: output one value, or refuse a pair written as two surrogates.
  method Emit(v: code, us: array?<unit>, j: int, pending: unit, ghost vs: seq<code>)
    returns (ok: bool, j': int, pending': unit)
    requires OutState(j, pending, vs) && v <= 0x10FFFF
    requires us != null ==> |Units(vs) + UnitsOf(v)| <= us.Length && us[..j] == Units(vs)[..j]
    modifies us
    ensures Codes(vs + [v]) && Units(vs + [v]) == Units(vs) + UnitsOf(v)
    ensures ok <==> Separated(vs + [v])
    ensures ok ==> OutState(j', pending', vs + [v])
    ensures ok && us != null ==> us[..j'] == Units(vs + [v])[..j']
    ensures us != null ==> forall k :: |Units(vs + [v])| <= k < us.Length ==> us[k] == old(us[k])
  {
    hide Units, Separated, Hi, Lo, HighUnit, LowUnit, IsSurrogate, LowTest, HighTest, FirstHalf, Narrow;
    SeparatedAppend(vs, v);
    UnitsSnoc(vs, v);
    EmitTests(v);
    ok, j', pending' := true, j, pending;
    if v > 0xFFFF {
      j' := Flush(us, j', pending', vs);
      pending' := 0;
      FirstHalfIsHigh(v);
      if us != null {
        us[j'] := FirstHalf(v);
        us[j' + 1] := LowUnit(v);
        assert us[..j' + 2] == us[..j'] + [us[j'], us[j' + 1]];
      }
      j' := j' + 1;
    } else {
      if IsSurrogate(v) {
        if pending' != 0 && LowTest(v) {
          ok := false;
          return;
        } else {
          j' := Flush(us, j', pending', vs);
          if HighTest(v) {
            SurrogateNonzero(v);
            pending' := Narrow(v);
          } else {
            pending' := 0;
          }
        }
      } else {
        j' := Flush(us, j', pending', vs);
        pending' := 0;
      }
      if pending' != 0 {
        j' := j' - 1;
      } else if us != null {
        us[j'] := Narrow(v);
        assert us[..j' + 1] == us[..j'] + [us[j']];
      }
    }
    j' := j' + 1;
  }

  lemma ParseStep(bs: seq<byte>, c: nat, n: nat)
    requires c < c + n <= |bs| && WellFormedChar(bs[c..c + n])
    ensures n <= 4 && CharValue(bs[c..c + n]) <= 0x10FFFF
    ensures Parse(bs, c) == if Parse(bs, c + n).None? then None else Some([CharValue(bs[c..c + n])] + Parse(bs, c + n).value)
  {
    hide CharValue, SecondOk, Tail;
    assert bs[c] == bs[c..c + n][0];
    ParsedIsEncoded(bs[c..c + n]);
  }

  lemma SeparatedPrefix(vs: seq<code>, ws: seq<code>)
    requires Separated(vs + ws)
    ensures Separated(vs)
  {
    hide Hi, Lo;
    forall i | 0 <= i < |vs| - 1 ensures !(Hi(vs[i]) && Lo(vs[i + 1])) {
      assert (vs + ws)[i] == vs[i] && (vs + ws)[i + 1] == vs[i + 1];
    }
  }

  // How far decoding has come: bs[..c] read as the values vs, which the rest may still spoil.
  ghost predicate Decoded(bs: seq<byte>, c: nat, vs: seq<code>) {
    c <= |bs| && Codes(vs)
    && (Parse(bs, 0).None? <==> Parse(bs, c).None?)
    && (Parse(bs, 0).Some? ==> Parse(bs, 0).value == vs + Parse(bs, c).value)
  }

  lemma DecodedStep(bs: seq<byte>, c: nat, n: nat, vs: seq<code>)
    requires Decoded(bs, c, vs) && c < c + n <= |bs| && WellFormedChar(bs[c..c + n])
    ensures CharValue(bs[c..c + n]) <= 0x10FFFF && Decoded(bs, c + n, vs + [CharValue(bs[c..c + n])])
    ensures Decode(bs).Some? ==>
      Separated(vs + [CharValue(bs[c..c + n])])
      && |Units(vs) + UnitsOf(CharValue(bs[c..c + n]))| <= |Decode(bs).value|
  {
    hide WellFormedChar, CharValue, UnitsOf, Separated;
    ParseStep(bs, c, n);
    var v := CharValue(bs[c..c + n]);
    if Decode(bs).Some? {
      var rest := Parse(bs, c + n).value;
      assert vs + ([v] + rest) == (vs + [v]) + rest;
      SeparatedPrefix(vs + [v], rest);
      UnitsSnoc(vs, v);
      UnitsAppend(vs + [v], rest);
    }
  }

  // utf8ish_to_utf16ish: with a NULL buffer it measures, otherwise it fills what was measured.
  method Utf8ishToUtf16ish(bs: seq<byte>, us: array?<unit>) returns (r: int)
    requires us != null ==> Decode(bs).Some? && |Decode(bs).value| <= us.Length
    modifies us
    ensures r == if Decode(bs).Some? then |Decode(bs).value| else -1
    ensures us != null ==> us[..r] == Decode(bs).value && us[r..] == old(us[r..])
  {
    hide Units, UnitsOf, Separated, WellFormedChar, CharValue, Partial, Doomed;
    var j, i, state, nextbits, v, pending := 0, 0, 0, 0 as byte, 0 as code, 0 as unit;
    ghost var c, vs: seq<code> := 0, [];
    StartFacts();
    while i < |bs|
      invariant c <= i <= |bs| && Decoded(bs, c, vs) && OutState(j, pending, vs)
      invariant Partial(bs[c..i], state, v, nextbits)
      invariant us != null ==> |Units(vs)| <= |Decode(bs).value| && us[..j] == Units(vs)[..j]
      invariant us != null ==> forall k :: |Units(vs)| <= k < us.Length ==> us[k] == old(us[k])
      decreases |bs| - i
    {
      ghost var p := bs[c..i];
      var ok, complete;
      ok, complete, state, v, nextbits := Feed(bs[i], state, v, nextbits, p);
      assert p + [bs[i]] == bs[c..i + 1];
      if !ok {
        DoomedParse(bs, c, p + [bs[i]]);
        return -1;
      }
      if complete {
        DecodedStep(bs, c, i + 1 - c, vs);
        var fine;
        fine, j, pending := Emit(v, us, j, pending, vs);
        if !fine { return -1; }
        vs := vs + [v];
        c := i + 1;
        NothingPartial(v);
        assert bs[c..i + 1] == [];
      }
      i := i + 1;
    }
    j := Flush(us, j, pending, vs);
    assert bs[c..i] == bs[c..];
    if state != 0 {
      Unfinished(bs, c, state, v, nextbits);
      return -1;
    }
    PartialDone(bs[c..i], state, v, nextbits);
    assert vs + [] == vs;
    return j;
  }

  lemma StartFacts()
    ensures Partial([], 0, 0, 0) && Units([]) == [] && Separated([])
  {
  }

  lemma NothingPartial(v: code)
    ensures Partial([], 0, v, 0)
  {
  }

  lemma PartialDone(p: seq<byte>, state: nat, v: code, nextbits: byte)
    requires Partial(p, state, v, nextbits) && state == 0
    ensures p == []
  {
  }

  lemma Unfinished(bs: seq<byte>, c: nat, state: nat, v: code, nextbits: byte)
    requires c <= |bs| && Partial(bs[c..], state, v, nextbits) && state != 0
    ensures Parse(bs, c) == None
  {
    hide CharValue, LeadLength, LooseSecond, Tail;
    assert bs[c..][0] == bs[c];
  }

  // ---- NUL-terminated strings, measured and then filled

  // A NUL unit is a NUL byte on its own, and splits an encoding where it splits the units.
  lemma {:induction false} EncodeSplitsAtNul(us: seq<unit>, rest: seq<unit>)
    ensures Encode(us + [0] + rest) == Encode(us) + [0] + Encode(rest)
    ensures 0 !in us ==> 0 !in Encode(us)
    decreases |us|
  {
    hide Values, EncodeChar, PairValue, Wide;
    NoValues();
    NulUnit();
    var t := [0] + rest;
    if us == [] {
      ValuesOfSingle(0, rest);
      EncodeCons(0, Values(rest));
      assert us + [0] + rest == t;
    } else {
      var v, k := ValuesHead(us, rest);
      EncodeSplitsAtNul(us[k..], rest);
      EncodeCons(v, Values(us[k..]));
      EncodeCons(v, Values(us[k..] + [0] + rest));
      if 0 !in us { NoNulChar(v); }
    }
  }

  lemma EncodeCons(v: code, vs: seq<code>)
    requires v <= 0x10FFFF && Codes(vs)
    ensures Codes([v] + vs) && EncodeAll([v] + vs) == EncodeChar(v) + EncodeAll(vs)
  {
    hide EncodeChar;
    assert ([v] + vs)[1..] == vs;
  }

  lemma NulUnit()
    ensures Wide(0) == 0 && EncodeChar(0) == [0] && !LoUnit(0) && !HiUnit(0)
  {
  }

  lemma NoNulChar(v: code)
    requires v <= 0x10FFFF && v != 0
    ensures 0 !in EncodeChar(v)
  {
    if 0x80 <= v < 0x800 { Bits2(v); } else if 0x800 <= v < 0x10000 { Bits3(v); } else if 0x10000 <= v { Bits4Range(v); Bits4Value(v); }
  }

  // The first value does not look past the units it is made of, unless to see a low surrogate.
  lemma ValuesHead(us: seq<unit>, rest: seq<unit>) returns (v: code, k: nat)
    requires us != []
    ensures 0 < k <= |us| && v <= 0x10FFFF && Values(us) == [v] + Values(us[k..])
    ensures Values(us + [0] + rest) == [v] + Values(us[k..] + [0] + rest)
    ensures 0 !in us ==> v != 0
  {
    hide Values, PairValue, Wide, HiUnit, LoUnit;
    NulUnit();
    WideZero(us[0]);
    if |us| >= 2 && HiUnit(us[0]) && LoUnit(us[1]) {
      PairRange(us[0], us[1]);
      v, k := PairValue(us[0], us[1]), 2;
      ValuesOfPair(us[0], us[1], us[2..]);
      ValuesOfPair(us[0], us[1], us[2..] + [0] + rest);
      SplitAt(us, [0], rest, 2);
      assert us[..2] == [us[0], us[1]];
    } else {
      v, k := Wide(us[0]), 1;
      ValuesOfSingle(us[0], us[1..]);
      ValuesOfSingle(us[0], us[1..] + [0] + rest);
      SplitAt(us, [0], rest, 1);
      assert us[..1] == [us[0]];
    }
  }

  lemma SplitAt(a: seq<unit>, b: seq<unit>, c: seq<unit>, k: nat)
    requires k <= |a|
    ensures a == a[..k] + a[k..] && a + b + c == a[..k] + (a[k..] + b + c)
  {
  }

  lemma WideZero(u: unit)
    ensures Wide(u) == 0 ==> u == 0
  {
  }

  const MAX_IDEAL_BUFFER_SIZE := 4096

  // The buffer kept between conversions to wide strings.
  class WideBuffer {
    var buffer: array?<unit>
    var size: nat

    ghost predicate Valid()
      reads this
    {
      if buffer == null then size == 0 else buffer.Length == size
    }

    constructor ()
      ensures Valid() && buffer == null
    {
      buffer, size := null, 0;
    }

    // rktio_convert_to_wchar: fails on a string the decoder refuses, and otherwise returns a
    // buffer that starts with the decoded units, terminator included.
    method ConvertToWchar(s: seq<byte>, doCopy: bool) returns (ws: array?<unit>)
      requires Valid()
      modifies this, buffer
      ensures Valid() && (buffer == old(buffer) || fresh(buffer))
      ensures ws == null <==> Decode(s + [0]).None?
      ensures ws != null ==> |Decode(s + [0]).value| <= ws.Length && ws[..|Decode(s + [0]).value|] == Decode(s + [0]).value
      ensures ws != null ==> if doCopy then fresh(ws) else ws == buffer
      ensures doCopy ==> buffer == old(buffer) && (buffer != null ==> buffer[..] == old(buffer[..]))
    {
      hide Decode;
      var len := Utf8ishToUtf16ish(s + [0], null);
      if len < 0 { return null; }
      if doCopy {
        ws := new unit[len](_ => 0);
      } else if len > size {
        size := len;
        ws := new unit[len](_ => 0);
        buffer := ws;
      } else if len < MAX_IDEAL_BUFFER_SIZE && size > MAX_IDEAL_BUFFER_SIZE {
        size := MAX_IDEAL_BUFFER_SIZE;
        ws := new unit[MAX_IDEAL_BUFFER_SIZE](_ => 0);
        buffer := ws;
      } else {
        Terminated(s);
        ws := buffer;
      }
      var r := Utf8ishToUtf16ish(s + [0], ws);
    }
  }

  lemma EmptyEncoding(us: seq<unit>)
    ensures Encode(us) == [] <==> us == []
  {
    hide Values, EncodeChar;
    NoValues();
    UnitsValues(us);
  }

  // Nothing but the empty string decodes to no units, so a terminated string needs a buffer.
  lemma Terminated(s: seq<byte>)
    ensures Decode(s + [0]).Some? ==> |Decode(s + [0]).value| > 0
  {
    hide Encode;
    if Decode(s + [0]).Some? {
      EncodeDecode(s + [0]);
      EmptyEncoding(Decode(s + [0]).value);
    }
  }

  // rktio_convert_from_wchar, on the units before the terminator.
  method ConvertFromWchar(us: seq<unit>) returns (s: array<byte>)
    ensures fresh(s) && s[..] == Encode(us) + [0]
  {
    hide Encode;
    EncodeSplitsAtNul(us, []);
    EmptyEncoding([]);
    assert us + [0] + [] == us + [0] && Encode(us) + [0] + [] == Encode(us) + [0];
    var len := Utf16ishToUtf8ish(us + [0], null);
    s := new byte[len](_ => 0);
    len := Utf16ishToUtf8ish(us + [0], s);
    assert s[..len] == s[..];
  }

  // Wide characters converted to bytes with a terminator convert back to themselves with theirs.
  lemma WideRoundTrip(us: seq<unit>)
    ensures Decode(Encode(us) + [0]) == Some(us + [0])
  {
    hide Decode, Encode;
    EncodeSplitsAtNul(us, []);
    EmptyEncoding([]);
    assert us + [0] + [] == us + [0] && Encode(us) + [0] + [] == Encode(us) + [0];
    DecodeEncode(us + [0]);
  }

  // A string without NULs that converts to wide characters converts back to itself: the units
  // before the terminator have no NUL either, so wcslen and strlen find the ends.
  lemma ConversionRoundTrip(s: seq<byte>)
    requires 0 !in s && Decode(s + [0]).Some?
    ensures var us := Decode(s + [0]).value;
            us != [] && us[|us| - 1] == 0 && 0 !in us[..|us| - 1] && Encode(us[..|us| - 1]) == s
  {
    hide Decode, Encode;
    EncodeDecode(s + [0]);
    var us := Decode(s + [0]).value;
    EncodeSplitsAtNul(us, []);
    var n: nat :| n < |us| && us[n] == 0;
    LastNul(s, us, n);
    assert us[..|us| - 1] == us[..n];
    forall m | 0 <= m < n ensures us[m] != 0 {
      if us[m] == 0 { LastNul(s, us, m); }
    }
  }

  lemma LastNul(s: seq<byte>, us: seq<unit>, n: nat)
    requires Encode(us) == s + [0] && 0 !in s && n < |us| && us[n] == 0
    ensures n == |us| - 1 && Encode(us[..n]) == s
  {
    hide Encode;
    var pre, rest := us[..n], us[n + 1..];
    EncodeSplitsAtNul(pre, rest);
    assert us == pre + [0] + rest;
    var e := Encode(pre);
    assert (e + [0] + Encode(rest))[|e|] == 0;
    assert |e| == |s|;
    assert e == (s + [0])[..|s|] == s;
    EmptyEncoding(rest);
  }
}
