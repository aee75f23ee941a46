/** The four converters as codecs, and what they do to whole inputs. */
module Utf {
  import opened Transcoding
  import opened Unicode

  // ----- Characters: parsing and writing are inverse -----

  function ScalarSet(): bv32 -> bool { v => IsScalar(v) }

  lemma Parse8OfUnits(v: bv32, rest: seq<bv8>)
    requires IsScalar(v)
    ensures ReadsBack(Parse8, Units8, v, rest)
  {
    var s := Units8(v) + rest;
    if v < 0x80 {
      assert s[0] == v as bv8;
    } else if v < 0x800 {
      Bytes2(v);
    } else if v < 0x1_0000 {
      Bytes3(v);
    } else {
      Lead4Bits(v);
      Second4(v);
      Low6Bits(v);
      Low6Bits(v >> 6);
      Bytes4(v);
    }
  }

  lemma UnitsOfParse8(s: seq<bv8>)
    requires s != []
    ensures WritesBack(Parse8, Units8, ScalarSet(), s)
  {
    if Parse8(s).Character? {
      var v := Value8(s);
      match Width8(s[0])
      case 1 =>
        assert v < 0x80 && s[..1] == [s[0]];
      case 2 =>
        Scalar2(s[0], s[1]);
        assert s[..2] == [s[0], s[1]];
      case 3 =>
        Back3(s[0], s[1], s[2]);
        assert s[..3] == [s[0], s[1], s[2]];
      case 4 =>
        Back4(s[0], s[1], s[2], s[3]);
        assert s[..4] == [s[0], s[1], s[2], s[3]];
    }
  }

  lemma Parse16OfUnits(v: bv32, rest: seq<bv16>)
    requires IsScalar(v)
    ensures ReadsBack(Parse16, Units16, v, rest)
  {
    var s := Units16(v) + rest;
    if v < 0x1_0000 {
      assert s[0] == v as bv16;
      NotSurrogate(v);
    } else {
      assert s[0] == High(v) && s[1] == Low(v);
      PairOf(v);
    }
  }

  lemma NotSurrogate(v: bv32)
    requires v < 0x1_0000 && !IsSurrogate(v)
    ensures !IsHigh(v as bv16) && !IsLow(v as bv16) && (v as bv16) as bv32 == v
  {
  }

  lemma UnitsOfParse16(s: seq<bv16>)
    requires s != []
    ensures WritesBack(Parse16, Units16, ScalarSet(), s)
  {
    if Parse16(s).Character? {
      if IsHigh(s[0]) {
        PairUnits(s[0], s[1]);
        assert s[..2] == [s[0], s[1]];
      } else {
        BasicUnits(s[0]);
        assert s[..1] == [s[0]];
      }
    }
  }

  lemma BasicBack(w: bv16)
    requires !IsHigh(w) && !IsLow(w)
    ensures IsScalar(w as bv32) && w as bv32 < 0x1_0000 && (w as bv32) as bv16 == w
  {
  }

  lemma BasicUnits(w: bv16)
    requires !IsHigh(w) && !IsLow(w)
    ensures IsScalar(w as bv32) && Units16(w as bv32) == [w]
  {
    BasicBack(w);
  }

  lemma PairUnits(w1: bv16, w2: bv16)
    requires IsHigh(w1) && IsLow(w2)
    ensures var v := PairValue(w1, w2); IsScalar(v) && Units16(v) == [w1, w2]
  {
    PairBack(w1, w2);
    var v := PairValue(w1, w2);
    assert Units16(v) == [High(v), Low(v)];
  }

  lemma Inverse8()
    ensures ParseAfterEmit(Parse8, Units8, ScalarSet()) && EmitAfterParse(Parse8, Units8, ScalarSet())
  {
    forall v, rest | IsScalar(v) ensures ReadsBack(Parse8, Units8, v, rest) {
      Parse8OfUnits(v, rest);
    }
    forall s: seq<bv8> | s != [] ensures WritesBack(Parse8, Units8, ScalarSet(), s) {
      UnitsOfParse8(s);
    }
  }

  lemma Inverse16()
    ensures ParseAfterEmit(Parse16, Units16, ScalarSet()) && EmitAfterParse(Parse16, Units16, ScalarSet())
  {
    forall v, rest | IsScalar(v) ensures ReadsBack(Parse16, Units16, v, rest) {
      Parse16OfUnits(v, rest);
    }
    forall s: seq<bv16> | s != [] ensures WritesBack(Parse16, Units16, ScalarSet(), s) {
      UnitsOfParse16(s);
    }
  }

  // ----- The grammar of section 4 of RFC 3629 -----

  predicate Within(c: bv8, low: bv8, high: bv8) { low <= c <= high }

  predicate IsChar8(c: seq<bv8>)
  {
    || (|c| == 1 && Within(c[0], 0x00, 0x7F))
    || (|c| == 2 && Within(c[0], 0xC2, 0xDF) && IsTail(c[1]))
    || (|c| == 3 && Within(c[0], 0xE0, 0xE0) && Within(c[1], 0xA0, 0xBF) && IsTail(c[2]))
    || (|c| == 3 && Within(c[0], 0xE1, 0xEC) && IsTail(c[1]) && IsTail(c[2]))
    || (|c| == 3 && Within(c[0], 0xED, 0xED) && Within(c[1], 0x80, 0x9F) && IsTail(c[2]))
    || (|c| == 3 && Within(c[0], 0xEE, 0xEF) && IsTail(c[1]) && IsTail(c[2]))
    || (|c| == 4 && Within(c[0], 0xF0, 0xF0) && Within(c[1], 0x90, 0xBF) && IsTail(c[2]) && IsTail(c[3]))
    || (|c| == 4 && Within(c[0], 0xF1, 0xF3) && IsTail(c[1]) && IsTail(c[2]) && IsTail(c[3]))
    || (|c| == 4 && Within(c[0], 0xF4, 0xF4) && Within(c[1], 0x80, 0x8F) && IsTail(c[2]) && IsTail(c[3]))
  }

  /** UTF8-octets = *( UTF8-char ) */
  ghost predicate WellFormed8(s: seq<bv8>)
    decreases |s|
  {
    s == [] || exists n :: 0 < n <= |s| && IsChar8(s[..n]) && WellFormed8(s[n..])
  }

  lemma CharIsParsed(s: seq<bv8>, n: nat)
    requires 0 < n <= |s|
    ensures IsChar8(s[..n]) <==> Parse8(s) == Character(n, Value8Or0(s))
  {
    var c := s[..n];
    assert forall i :: 0 <= i < n ==> c[i] == s[i];
    if n == 1 {
      assert IsChar8(c) <==> Width8(s[0]) == 1;
    } else if n == 2 {
      assert IsChar8(c) <==> Width8(s[0]) == 2 && IsTail(s[1]);
    } else if n == 3 {
      assert IsChar8(c) <==> Width8(s[0]) == 3 && SecondFits(s[0], s[1]) && IsTail(s[2]);
    } else if n == 4 {
      assert IsChar8(c) <==> Width8(s[0]) == 4 && SecondFits(s[0], s[1]) && IsTail(s[2]) && IsTail(s[3]);
    }
  }

  function Value8Or0(s: seq<bv8>): bv32
    requires s != []
  {
    if |s| >= Width8(s[0]) then Value8(s) else 0
  }

  lemma {:induction false} ReadIffWellFormed(s: seq<bv8>)
    ensures Read(Parse8, s).verdict == Ok <==> WellFormed8(s)
    decreases |s|
  {
    if s != [] {
      if Parse8(s).Character? {
        var n := Parse8(s).used;
        CharIsParsed(s, n);
        ReadIffWellFormed(s[n..]);
        forall m | 0 < m <= |s| && IsChar8(s[..m]) ensures m == n {
          CharIsParsed(s, m);
        }
      } else {
        forall m | 0 < m <= |s| ensures !IsChar8(s[..m]) {
          CharIsParsed(s, m);
        }
      }
    }
  }
}
