/** The converters of locale.cpp as codecs, for a largest code point `max`, and what they promise. */
module UtfCodecs {
  import opened Transcoding
  import opened Unicode
  import opened Utf

  // ----- What each converter takes for a character -----

  predicate Over(max: bv32, p: Parse) { p.Character? && p.value > max }

  function Cap(over: bool, p: Parse): Parse { if over then Malformed else p }

  /** To UTF-16: the first byte itself is held against the limit, and a character beyond it that
      takes a pair is noticed only after room for the pair is found. */
  function CapFor16(firstOver: bool, over: bool, p: Parse): Parse
  {
    if firstOver then Malformed
    else if over && p.Character? then (if p.used == 4 then Beyond(p.value) else Malformed)
    else p
  }

  function Capped8For16(max: bv32, s: seq<bv8>): Parse
  {
    if s == [] then Short else CapFor16(s[0] as bv32 > max, Over(max, Parse8(s)), Parse8(s))
  }

  function Cap16(firstOver: bool, over: bool, p: Parse): Parse
  {
    if firstOver then Malformed
    else if over && p.Character? then Beyond(p.value)
    else p
  }

  predicate Exceeds16(w: bv16, max: bv32) { w as bv32 > max }
  function WordOver(max: bv32): bv16 -> bool { w => Exceeds16(w, max) }
  function ValueOver(max: bv32): Parse -> bool { p => Over(max, p) }

  /** From UTF-16: the first word is held against the limit, and then the value. */
  function Capped16(parse: seq<bv16> -> Parse, firstOver: bv16 -> bool, over: Parse -> bool, s: seq<bv16>): Parse
  {
    if s == [] then Short else Cap16(firstOver(s[0]), over(parse(s)), parse(s))
  }

  function Parse32(max: bv32, v: bv32): Parse { if IsSurrogate(v) || v > max then Malformed else Character(1, v) }

  function Capped32(max: bv32, s: seq<bv32>): Parse
  {
    if s == [] then Short else Parse32(max, s[0])
  }

  function Itself(v: bv32): seq<bv32> { [v] }

  function Capped<I>(parse: seq<I> -> Parse, max: bv32): Codec<I, bv32> { Codec(s => Cap(Over(max, parse(s)), parse(s)), Itself, true) }

  function Utf8ToUcs4(max: bv32): Codec<bv8, bv32> { Capped(Parse8, max) }
  function Utf8ToUtf16(max: bv32): Codec<bv8, bv16> { Codec(s => Capped8For16(max, s), Units16, true) }
  function Ucs4ToUtf8(max: bv32): Codec<bv32, bv8> { Codec(s => Capped32(max, s), Units8, false) }
  function Utf16ToUtf8(max: bv32): Codec<bv16, bv8> { Codec(s => Capped16(Parse16, WordOver(max), ValueOver(max), s), Units8, false) }

  // ----- All of them can be stopped and resumed anywhere, whatever the limit -----

  lemma Stable8(s: seq<bv8>, m: nat)
    requires 0 < m <= |s|
    ensures Parse8(s).Character? ==> 0 < Parse8(s).used <= |s|
    ensures !Parse8(s[..m]).Short? ==> Parse8(s) == Parse8(s[..m])
  {
    assert s[..m][0] == s[0];
    assert forall i :: 0 <= i < m ==> s[..m][i] == s[i];
  }

  lemma EmitsSomething(v: bv32)
    ensures |Units8(v)| > 0 && |Units16(v)| > 0 && |Itself(v)| > 0
  {
  }

  function Capped8(max: bv32, s: seq<bv8>): Parse { Cap(Over(max, Parse8(s)), Parse8(s)) }

  lemma StableCapped8(max: bv32, s: seq<bv8>, m: nat)
    requires 0 < m <= |s|
    ensures Capped8(max, s).Character? ==> 0 < Capped8(max, s).used <= |s|
    ensures !Capped8(max, s[..m]).Short? ==> Capped8(max, s) == Capped8(max, s[..m])
  {
    Stable8(s, m);
  }

  lemma StableCapped8For16(max: bv32, s: seq<bv8>, m: nat)
    requires 0 < m <= |s|
    ensures Capped8For16(max, s).Character? ==> 0 < Capped8For16(max, s).used <= |s|
    ensures !Capped8For16(max, s[..m]).Short? ==> Capped8For16(max, s) == Capped8For16(max, s[..m])
  {
    Stable8(s, m);
    assert s[..m][0] == s[0];
  }

  lemma StableCapped16(parse: seq<bv16> -> Parse, firstOver: bv16 -> bool, over: Parse -> bool, s: seq<bv16>, m: nat)
    requires 0 < m <= |s|
    requires parse(s).Character? ==> 0 < parse(s).used <= |s|
    requires !parse(s[..m]).Short? ==> parse(s) == parse(s[..m])
    ensures var p, p' := Capped16(parse, firstOver, over, s), Capped16(parse, firstOver, over, s[..m]);
            (p.Character? ==> 0 < p.used <= |s|) && (!p'.Short? ==> p == p')
  {
    assert s[..m][0] == s[0];
  }

  lemma StableCapped32(max: bv32, s: seq<bv32>, m: nat)
    requires 0 < m <= |s|
    ensures Capped32(max, s).Character? ==> 0 < Capped32(max, s).used <= |s|
    ensures !Capped32(max, s[..m]).Short? ==> Capped32(max, s) == Capped32(max, s[..m])
  {
    assert s[..m][0] == s[0];
  }

  lemma Stable16(s: seq<bv16>, m: nat)
    requires 0 < m <= |s|
    ensures Parse16(s).Character? ==> 0 < Parse16(s).used <= |s|
    ensures !Parse16(s[..m]).Short? ==> Parse16(s) == Parse16(s[..m])
  {
    assert s[..m][0] == s[0];
    assert m > 1 ==> s[..m][1] == s[1];
  }

  lemma Utf8ToUcs4Sound(max: bv32)
    ensures Sound(Utf8ToUcs4(max))
  {
    var c := Utf8ToUcs4(max);
    forall s: seq<bv8>, m: nat | 0 < m <= |s| ensures StableAt(c.parse, s, m) {
      StableCapped8(max, s, m);
    }
    forall v ensures |c.emit(v)| > 0 {
      EmitsSomething(v);
    }
  }

  lemma Utf8ToUtf16Sound(max: bv32)
    ensures Sound(Utf8ToUtf16(max))
  {
    var c := Utf8ToUtf16(max);
    forall s: seq<bv8>, m: nat | 0 < m <= |s| ensures StableAt(c.parse, s, m) {
      StableCapped8For16(max, s, m);
    }
    forall v ensures |c.emit(v)| > 0 {
      EmitsSomething(v);
    }
  }

  lemma Ucs4ToUtf8Sound(max: bv32)
    ensures Sound(Ucs4ToUtf8(max))
  {
    var c := Ucs4ToUtf8(max);
    forall s: seq<bv32>, m: nat | 0 < m <= |s| ensures StableAt(c.parse, s, m) {
      StableCapped32(max, s, m);
    }
    forall v ensures |c.emit(v)| > 0 {
      EmitsSomething(v);
    }
  }

  lemma Utf16ToUtf8Sound(max: bv32)
    ensures Sound(Utf16ToUtf8(max))
  {
    var c := Utf16ToUtf8(max);
    forall s: seq<bv16>, m: nat | 0 < m <= |s| ensures StableAt(c.parse, s, m) {
      Stable16(s, m);
      StableCapped16(Parse16, WordOver(max), ValueOver(max), s, m);
    }
    forall v ensures |c.emit(v)| > 0 {
      EmitsSomething(v);
    }
  }

  lemma Utf8ToUcs4Resumes(max: bv32, s: seq<bv8>, room: nat, cut: nat, limit: nat)
    requires cut <= |s| && limit <= room
    ensures Resumes(Utf8ToUcs4(max), s, room, cut, limit)
  {
    Utf8ToUcs4Sound(max);
    Resume(Utf8ToUcs4(max), s, room, cut, limit);
  }

  lemma Utf8ToUtf16Resumes(max: bv32, s: seq<bv8>, room: nat, cut: nat, limit: nat)
    requires cut <= |s| && limit <= room
    ensures Resumes(Utf8ToUtf16(max), s, room, cut, limit)
  {
    Utf8ToUtf16Sound(max);
    Resume(Utf8ToUtf16(max), s, room, cut, limit);
  }

  lemma Ucs4ToUtf8Resumes(max: bv32, s: seq<bv32>, room: nat, cut: nat, limit: nat)
    requires cut <= |s| && limit <= room
    ensures Resumes(Ucs4ToUtf8(max), s, room, cut, limit)
  {
    Ucs4ToUtf8Sound(max);
    Resume(Ucs4ToUtf8(max), s, room, cut, limit);
  }

  lemma Utf16ToUtf8Resumes(max: bv32, s: seq<bv16>, room: nat, cut: nat, limit: nat)
    requires cut <= |s| && limit <= room
    ensures Resumes(Utf16ToUtf8(max), s, room, cut, limit)
  {
    Utf16ToUtf8Sound(max);
    Resume(Utf16ToUtf8(max), s, room, cut, limit);
  }

  // ----- With room enough and no cap but the last code point -----

  lemma Values8(s: seq<bv8>)
    requires Parse8(s).Character?
    ensures Parse8(s).value <= LAST && 0 < Parse8(s).used <= |s| && |Units16(Parse8(s).value)| <= Parse8(s).used
    ensures s[0] as bv32 <= LAST
  {
    UnitsOfParse8(s);
    var v := Parse8(s).value;
    assert IsScalar(v) && Units8(v) == s[..Parse8(s).used];
  }

  lemma ReadsAsUcs4(s: seq<bv8>, room: nat)
    requires room >= |s|
    ensures var r := Read(Parse8, s);
            Run(Utf8ToUcs4(LAST), s, room) == Outcome(r.verdict, r.consumed, EmitAll(Itself, r.values))
  {
    var c := Utf8ToUcs4(LAST);
    forall t: seq<bv8> | t != [] ensures c.parse(t) == Parse8(t) && StepFitsIn(c, t, 1) {
      assert c.parse(t) == Cap(Over(LAST, Parse8(t)), Parse8(t));
      if Parse8(t).Character? {
        Values8(t);
      }
    }
    RunReads(c, s, room, 1);
    ReadSame(c.parse, Parse8, s);
  }

  lemma ReadsAsUtf16(s: seq<bv8>, room: nat)
    requires room >= |s|
    ensures var r := Read(Parse8, s);
            Run(Utf8ToUtf16(LAST), s, room) == Outcome(r.verdict, r.consumed, EmitAll(Units16, r.values))
  {
    var c := Utf8ToUtf16(LAST);
    forall t: seq<bv8> | t != [] ensures c.parse(t) == Parse8(t) && StepFitsIn(c, t, 1) {
      assert t[0] as bv32 <= LAST;
      if Parse8(t).Character? {
        Values8(t);
      }
    }
    RunReads(c, s, room, 1);
    ReadSame(c.parse, Parse8, s);
  }

  lemma ReadsUtf16(s: seq<bv16>, room: nat)
    requires room >= 3 * |s|
    ensures var r := Read(Parse16, s);
            Run(Utf16ToUtf8(LAST), s, room) == Outcome(r.verdict, r.consumed, EmitAll(Units8, r.values))
  {
    var c := Utf16ToUtf8(LAST);
    forall t: seq<bv16> | t != [] ensures c.parse(t) == Parse16(t) && StepFitsIn(c, t, 3) {
      assert t[0] as bv32 <= LAST;
      UnitsOfParse16(t);
    }
    RunReads(c, s, room, 3);
    ReadSame(c.parse, Parse16, s);
  }

  lemma {:induction false} EmitItself(values: seq<bv32>)
    ensures EmitAll(Itself, values) == values
  {
    if values != [] {
      EmitItself(values[1..]);
    }
  }

  lemma {:induction false} ReadsUcs4(values: seq<bv32>)
    requires AllValid(ScalarSet(), values)
    ensures Read(Ucs4ToUtf8(LAST).parse, values) == Reading(Ok, |values|, values)
  {
    if values != [] {
      assert ScalarSet()(values[0]);
      ReadsUcs4(values[1..]);
    }
  }

  lemma WritesUcs4(values: seq<bv32>, room: nat)
    requires AllValid(ScalarSet(), values) && room >= 4 * |values|
    ensures Run(Ucs4ToUtf8(LAST), values, room) == Outcome(Ok, |values|, EmitAll(Units8, values))
  {
    ReadsUcs4(values);
    forall s: seq<bv32> | s != [] ensures StepFitsIn(Ucs4ToUtf8(LAST), s, 4) {
      RoomForUcs4(s);
    }
    RunReads(Ucs4ToUtf8(LAST), values, room, 4);
  }

  // ----- The promises -----

  /** `utf8_to_ucs4` accepts exactly the well-formed inputs. */
  lemma OkIffWellFormed(s: seq<bv8>, room: nat)
    requires room >= |s|
    ensures Run(Utf8ToUcs4(LAST), s, room).verdict == Ok <==> WellFormed8(s)
  {
    ReadsAsUcs4(s, room);
    ReadIffWellFormed(s);
  }

  /** Encoding what was decoded gives the input back. */
  lemma EncodeAfterDecode(s: seq<bv8>, room: nat, room': nat)
    requires room >= |s| && Run(Utf8ToUcs4(LAST), s, room).verdict == Ok
    requires room' >= 4 * |Run(Utf8ToUcs4(LAST), s, room).output|
    ensures var u := Run(Utf8ToUcs4(LAST), s, room).output;
            AllValid(ScalarSet(), u) && Run(Ucs4ToUtf8(LAST), u, room') == Outcome(Ok, |u|, s)
  {
    var r := Read(Parse8, s);
    ReadsAsUcs4(s, room);
    EmitItself(r.values);
    Inverse8();
    WriteBack(Parse8, Units8, ScalarSet(), s);
    WritesUcs4(r.values, room');
  }

  /** Decoding what was encoded gives the code points back. */
  lemma DecodeAfterEncode(u: seq<bv32>, room: nat, room': nat)
    requires AllValid(ScalarSet(), u) && room >= 4 * |u|
    requires room' >= |Run(Ucs4ToUtf8(LAST), u, room).output|
    ensures var s := Run(Ucs4ToUtf8(LAST), u, room).output;
            && Run(Ucs4ToUtf8(LAST), u, room) == Outcome(Ok, |u|, s)
            && Run(Utf8ToUcs4(LAST), s, room') == Outcome(Ok, |s|, u)
  {
    var s := EmitAll(Units8, u);
    WritesUcs4(u, room);
    Inverse8();
    ReadBack(Parse8, Units8, ScalarSet(), u);
    ReadsAsUcs4(s, room');
    EmitItself(u);
  }

  lemma {:induction false} ReadsIffScalar(u: seq<bv32>)
    ensures Read(Ucs4ToUtf8(LAST).parse, u).verdict == Ok <==> AllValid(ScalarSet(), u)
  {
    if u != [] {
      if IsScalar(u[0]) {
        ReadsIffScalar(u[1..]);
        assert forall v :: v in u <==> v == u[0] || v in u[1..];
      } else {
        assert u[0] in u && !ScalarSet()(u[0]);
      }
    }
  }

  lemma RoomForUcs4(s: seq<bv32>)
    requires s != []
    ensures StepFitsIn(Ucs4ToUtf8(LAST), s, 4)
  {
  }

  /** `ucs4_to_utf8` refuses exactly the sequences with something that is no scalar value. */
  lemma EncodesIffScalar(u: seq<bv32>, room: nat)
    requires room >= 4 * |u|
    ensures Run(Ucs4ToUtf8(LAST), u, room).verdict == Ok <==> AllValid(ScalarSet(), u)
  {
    forall s: seq<bv32> | s != [] ensures StepFitsIn(Ucs4ToUtf8(LAST), s, 4) {
      RoomForUcs4(s);
    }
    RunReads(Ucs4ToUtf8(LAST), u, room, 4);
    ReadsIffScalar(u);
  }

  /** `utf8_to_utf16` is `utf8_to_ucs4` followed by the UTF-16 encoding form, on every input and for
      every limit that leaves the first bytes alone. */
  lemma Utf16IsUcs4Encoded(max: bv32, s: seq<bv8>, room: nat)
    requires room >= |s| && max >= 0xF4
    ensures var r := Run(Utf8ToUcs4(max), s, room);
            Run(Utf8ToUtf16(max), s, room) == Outcome(r.verdict, r.consumed, EmitAll(Units16, r.output))
  {
    var c, d := Utf8ToUcs4(max), Utf8ToUtf16(max);
    forall t: seq<bv8> | t != [] ensures Alike(d.parse(t), c.parse(t)) && StepFitsIn(c, t, 1) && StepFitsIn(d, t, 1) {
      FirstByteWithin(max, t);
      CapsAlike(t[0] as bv32 > max, Over(max, Parse8(t)), Parse8(t));
      if Parse8(t).Character? {
        Values8(t);
      }
    }
    RunReads(c, s, room, 1);
    RunReads(d, s, room, 1);
    ReadAlike(d.parse, c.parse, s);
    EmitItself(Read(c.parse, s).values);
  }

  lemma FirstByteWithin(max: bv32, t: seq<bv8>)
    requires t != [] && max >= 0xF4
    ensures t[0] as bv32 > max ==> Parse8(t) == Malformed
  {
  }

  lemma CapsAlike(firstOver: bool, over: bool, p: Parse)
    requires (firstOver ==> p == Malformed) && !p.Beyond? && (over ==> p.Character?)
    ensures Alike(CapFor16(firstOver, over, p), Cap(over, p))
  {
  }

  /** Below 0xF4 the two differ: a cut-short character that could still be refused for its value is
      partial to one and an error to the other. */
  lemma LowLimitsDiffer(max: bv32)
    requires max < 0xF4
    ensures Run(Utf8ToUcs4(max), [0xF4], 1) == Outcome(Partial, 0, [])
    ensures Run(Utf8ToUtf16(max), [0xF4], 1) == Outcome(Error, 0, [])
  {
    var s: seq<bv8> := [0xF4];
    assert Parse8(s) == Short;
    assert Utf8ToUcs4(max).parse(s) == Cap(Over(max, Parse8(s)), Parse8(s));
    assert Utf8ToUtf16(max).parse(s) == Malformed;
  }

  /** `utf16_to_utf8` undoes `utf8_to_utf16`. */
  lemma Utf8AfterUtf16(s: seq<bv8>, room: nat, room': nat)
    requires room >= |s| && Run(Utf8ToUtf16(LAST), s, room).verdict == Ok
    requires room' >= 3 * |Run(Utf8ToUtf16(LAST), s, room).output|
    ensures var w := Run(Utf8ToUtf16(LAST), s, room).output;
            Run(Utf16ToUtf8(LAST), w, room') == Outcome(Ok, |w|, s)
  {
    var r := Read(Parse8, s);
    ReadsAsUtf16(s, room);
    Inverse8();
    Inverse16();
    WriteBack(Parse8, Units8, ScalarSet(), s);
    ReadBack(Parse16, Units16, ScalarSet(), r.values);
    ReadsUtf16(EmitAll(Units16, r.values), room');
  }

  /** And the other way round. */
  lemma Utf16AfterUtf8(w: seq<bv16>, room: nat, room': nat)
    requires room >= 3 * |w| && Run(Utf16ToUtf8(LAST), w, room).verdict == Ok
    requires room' >= |Run(Utf16ToUtf8(LAST), w, room).output|
    ensures var s := Run(Utf16ToUtf8(LAST), w, room).output;
            Run(Utf8ToUtf16(LAST), s, room') == Outcome(Ok, |s|, w)
  {
    var r := Read(Parse16, w);
    ReadsUtf16(w, room);
    Inverse8();
    Inverse16();
    WriteBack(Parse16, Units16, ScalarSet(), w);
    ReadBack(Parse8, Units8, ScalarSet(), r.values);
    ReadsAsUtf16(EmitAll(Units8, r.values), room');
  }
}
