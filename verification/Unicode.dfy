/** The encoding forms: UTF-8 after sections 3 and 4 of RFC 3629, UTF-16 after section 2 of RFC 2781. */
module Unicode {
  import opened Transcoding

  const LAST: bv32 := 0x10FFFF

  predicate IsSurrogate(v: bv32) { 0xD800 <= v <= 0xDFFF }

  predicate IsScalar(v: bv32) { v <= LAST && !IsSurrogate(v) }

  // ----- UTF-8: ranges of bytes, as in the grammar -----

  /** How many bytes the character with this first byte has; 0 if none begins so. */
  function Width8(first: bv8): nat
  {
    if first <= 0x7F then 1
    else if 0xC2 <= first <= 0xDF then 2
    else if 0xE0 <= first <= 0xEF then 3
    else if 0xF0 <= first <= 0xF4 then 4
    else 0
  }

  predicate IsTail(c: bv8) { 0x80 <= c <= 0xBF }

  predicate SecondFits(first: bv8, second: bv8)
  {
    && IsTail(second)
    && (first == 0xE0 ==> 0xA0 <= second)
    && (first == 0xED ==> second <= 0x9F)
    && (first == 0xF0 ==> 0x90 <= second)
    && (first == 0xF4 ==> second <= 0x8F)
  }

  /** Every byte there is, of the character that begins here, is in its range. */
  predicate Fits8(s: seq<bv8>)
    requires s != []
  {
    var n := Width8(s[0]);
    && n > 0
    && (n > 1 && |s| > 1 ==> SecondFits(s[0], s[1]))
    && (n > 2 && |s| > 2 ==> IsTail(s[2]))
    && (n > 3 && |s| > 3 ==> IsTail(s[3]))
  }

  function Value1(a: bv8): bv32 { a as bv32 }
  function Value2(a: bv8, b: bv8): bv32 { ((a & 0x1F) as bv32 << 6) | (b & 0x3F) as bv32 }
  function Value3(a: bv8, b: bv8, c: bv8): bv32
  {
    ((a & 0x0F) as bv32 << 12) | ((b & 0x3F) as bv32 << 6) | (c & 0x3F) as bv32
  }
  function Value4(a: bv8, b: bv8, c: bv8, d: bv8): bv32
  {
    ((a & 0x07) as bv32 << 18) | ((b & 0x3F) as bv32 << 12) | ((c & 0x3F) as bv32 << 6) | (d & 0x3F) as bv32
  }

  function Value8(s: seq<bv8>): bv32
    requires s != [] && |s| >= Width8(s[0])
  {
    match Width8(s[0])
    case 1 => Value1(s[0])
    case 2 => Value2(s[0], s[1])
    case 3 => Value3(s[0], s[1], s[2])
    case 4 => Value4(s[0], s[1], s[2], s[3])
    case _ => 0
  }

  function Parse8(s: seq<bv8>): Parse
  {
    if s == [] then Short
    else if !Fits8(s) then Malformed
    else if |s| < Width8(s[0]) then Short
    else Character(Width8(s[0]), Value8(s))
  }

  /** The bytes of a code point. (Beyond the last one the first byte keeps its low bits only.) */
  function Units8(v: bv32): seq<bv8>
  {
    if v < 0x80 then [v as bv8]
    else if v < 0x800 then [(0xC0 | (v >> 6)) as bv8, Low6(v)]
    else if v < 0x1_0000 then [(0xE0 | (v >> 12)) as bv8, Low6(v >> 6), Low6(v)]
    else [((0xF0 | (v >> 18)) & 0xFF) as bv8, Low6(v >> 12), Low6(v >> 6), Low6(v)]
  }

  function Low6(v: bv32): bv8 { (0x80 | (v & 0x3F)) as bv8 }

  lemma Bytes2(v: bv32)
    requires 0x80 <= v < 0x800
    ensures var a := (0xC0 | (v >> 6)) as bv8; Width8(a) == 2 && IsTail(Low6(v)) && Value2(a, Low6(v)) == v
  {
  }

  lemma Bytes3(v: bv32)
    requires 0x800 <= v < 0x1_0000 && !IsSurrogate(v)
    ensures var a := (0xE0 | (v >> 12)) as bv8;
            Width8(a) == 3 && SecondFits(a, Low6(v >> 6)) && IsTail(Low6(v)) && Value3(a, Low6(v >> 6), Low6(v)) == v
  {
  }

  function Lead4(v: bv32): bv8 { ((0xF0 | (v >> 18)) & 0xFF) as bv8 }

  lemma Lead4Bits(v: bv32)
    requires 0x1_0000 <= v <= LAST
    ensures Lead4(v) & 0x07 == (v >> 18) as bv8 && 0xF0 <= Lead4(v) <= 0xF4
  {
  }

  lemma Low6Bits(v: bv32)
    ensures (Low6(v) & 0x3F) as bv32 == v & 0x3F && IsTail(Low6(v))
  {
  }

  lemma Second4(v: bv32)
    requires 0x1_0000 <= v <= LAST
    ensures SecondFits(Lead4(v), Low6(v >> 12))
  {
  }

  lemma Bytes4(v: bv32)
    requires 0x1_0000 <= v <= LAST
    ensures Value4(Lead4(v), Low6(v >> 12), Low6(v >> 6), Low6(v)) == v
  {
    Lead4Bits(v);
    Low6Bits(v);
    Low6Bits(v >> 6);
    Low6Bits(v >> 12);
    assert (v >> 18 << 18) | (((v >> 12) & 0x3F) << 12) | (((v >> 6) & 0x3F) << 6) | (v & 0x3F) == v;
  }

  lemma Scalar2(a: bv8, b: bv8)
    requires Width8(a) == 2 && IsTail(b)
    ensures var v := Value2(a, b); 0x80 <= v < 0x800 && Units8(v) == [a, b]
  {
  }

  lemma Scalar3(a: bv8, b: bv8, c: bv8)
    requires Width8(a) == 3 && SecondFits(a, b) && IsTail(c)
    ensures var v := Value3(a, b, c); 0x800 <= v < 0x1_0000 && !IsSurrogate(v)
  {
  }

  lemma Units3(a: bv8, b: bv8, c: bv8)
    requires Width8(a) == 3 && IsTail(b) && IsTail(c)
    ensures var v := Value3(a, b, c); Low6(v >> 6) == b && Low6(v) == c && v >> 12 == (a & 0x0F) as bv32
  {
  }

  lemma Lead3Back(a: bv8)
    requires Width8(a) == 3
    ensures (0xE0 | (a & 0x0F) as bv32) as bv8 == a
  {
  }

  lemma Back3(a: bv8, b: bv8, c: bv8)
    requires Width8(a) == 3 && SecondFits(a, b) && IsTail(c)
    ensures var v := Value3(a, b, c); IsScalar(v) && Units8(v) == [a, b, c]
  {
    var v := Value3(a, b, c);
    Scalar3(a, b, c);
    Units3(a, b, c);
    Lead3Back(a);
    UnitsAre3(v, a, b, c);
  }

  lemma UnitsAre3(v: bv32, a: bv8, b: bv8, c: bv8)
    requires 0x800 <= v < 0x1_0000 && v >> 12 == (a & 0x0F) as bv32 && (0xE0 | (a & 0x0F) as bv32) as bv8 == a
    requires Low6(v >> 6) == b && Low6(v) == c
    ensures Units8(v) == [a, b, c]
  {
  }

  lemma Lead4Back(a: bv8)
    requires Width8(a) == 4
    ensures ((0xF0 | (a & 0x07) as bv32) & 0xFF) as bv8 == a
  {
  }

  lemma UnitsAre4(v: bv32, a: bv8, b: bv8, c: bv8, d: bv8)
    requires 0x1_0000 <= v && v >> 18 == (a & 0x07) as bv32 && ((0xF0 | (a & 0x07) as bv32) & 0xFF) as bv8 == a
    requires Low6(v >> 12) == b && Low6(v >> 6) == c && Low6(v) == d
    ensures Units8(v) == [a, b, c, d]
  {
  }

  lemma Back4(a: bv8, b: bv8, c: bv8, d: bv8)
    requires Width8(a) == 4 && SecondFits(a, b) && IsTail(c) && IsTail(d)
    ensures var v := Value4(a, b, c, d); IsScalar(v) && Units8(v) == [a, b, c, d]
  {
    var v := Value4(a, b, c, d);
    Scalar4(a, b, c, d);
    Units4(a, b, c, d);
    Lead4Back(a);
    UnitsAre4(v, a, b, c, d);
  }

  lemma Scalar4(a: bv8, b: bv8, c: bv8, d: bv8)
    requires Width8(a) == 4 && SecondFits(a, b)
    ensures var v := Value4(a, b, c, d); 0x1_0000 <= v <= LAST
  {
  }

  lemma Units4(a: bv8, b: bv8, c: bv8, d: bv8)
    requires Width8(a) == 4 && IsTail(b) && IsTail(c) && IsTail(d)
    ensures var v := Value4(a, b, c, d);
            Low6(v >> 12) == b && Low6(v >> 6) == c && Low6(v) == d && v >> 18 == (a & 0x07) as bv32
  {
  }

  // ----- UTF-16 -----

  function Units16(v: bv32): seq<bv16>
  {
    if v < 0x1_0000 then [v as bv16] else [High(v), Low(v)]
  }

  function High(v: bv32): bv16 { (0xD800 | (((v - 0x1_0000) >> 10) & 0x3FF)) as bv16 }
  function Low(v: bv32): bv16 { (0xDC00 | ((v - 0x1_0000) & 0x3FF)) as bv16 }

  predicate IsHigh(w: bv16) { 0xD800 <= w <= 0xDBFF }
  predicate IsLow(w: bv16) { 0xDC00 <= w <= 0xDFFF }

  function PairValue(w1: bv16, w2: bv16): bv32
  {
    (((w1 & 0x3FF) as bv32 << 10) | (w2 & 0x3FF) as bv32) + 0x1_0000
  }

  function Parse16(s: seq<bv16>): Parse
  {
    if s == [] then Short
    else if IsHigh(s[0]) then
      if |s| < 2 then Short
      else if IsLow(s[1]) then Character(2, PairValue(s[0], s[1]))
      else Malformed
    else if IsLow(s[0]) then Malformed
    else Character(1, s[0] as bv32)
  }

  lemma PairOf(v: bv32)
    requires 0x1_0000 <= v <= LAST
    ensures IsHigh(High(v)) && IsLow(Low(v)) && PairValue(High(v), Low(v)) == v
  {
  }

  lemma PairBack(w1: bv16, w2: bv16)
    requires IsHigh(w1) && IsLow(w2)
    ensures var v := PairValue(w1, w2); 0x1_0000 <= v <= LAST && High(v) == w1 && Low(v) == w2
  {
  }
}
