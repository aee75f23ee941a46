/** Where the four converters stop and what they answer, for every input, limit and room, in terms of
    the grammar in section 4 of RFC 3629 and of the surrogate pairs in section 2 of RFC 2781. */
module UtfVerdicts {
  import opened Transcoding
  import opened Unicode
  import opened Utf
  import opened UtfCodecs

  // ----- Characters, their beginnings, and everything else -----

  ghost predicate Begins8(t: seq<bv8>) { exists n :: 0 < n <= |t| && IsChar8(t[..n]) }

  ghost predicate Completes8(t: seq<bv8>, u: seq<bv8>) { IsChar8(t + u) }

  /** The input ends inside a character: no character begins it, but one does with more behind it. */
  ghost predicate CutShort8(t: seq<bv8>) { t != [] && !Begins8(t) && exists u :: Completes8(t, u) }

  /** A character with this first byte. */
  function Example(first: bv8): seq<bv8>
  {
    [first, if first == 0xE0 then 0xA0 else if first == 0xF0 then 0x90 else 0x80, 0x80, 0x80][..Width8(first)]
  }

  lemma CompletionCompletes(t: seq<bv8>)
    requires t != [] && Fits8(t) && |t| < Width8(t[0])
    ensures exists u :: Completes8(t, u)
  {
    var u := Example(t[0])[|t|..];
    var c := t + u;
    forall i | 0 <= i < |c| ensures c[i] == if i < |t| then t[i] else Example(t[0])[i] {
      if i >= |t| {
        assert c[i] == u[i - |t|];
      }
    }
    assert Fits8(c);
    assert c[..|c|] == c;
    CharIsParsed(c, |c|);
    assert Completes8(t, u);
  }

  /** A reader takes what begins with a character for one, what is cut short for short, and all else
      for malformed. */
  lemma Parse8Says(t: seq<bv8>)
    requires t != []
    ensures Parse8(t).Character? <==> Begins8(t)
    ensures Parse8(t).Short? <==> CutShort8(t)
    ensures Parse8(t).Malformed? <==> !Begins8(t) && !CutShort8(t)
  {
    if Parse8(t).Character? {
      CharIsParsed(t, Parse8(t).used);
    }
    forall n | 0 < n <= |t| && IsChar8(t[..n]) ensures Parse8(t).Character? {
      CharIsParsed(t, n);
    }
    if Parse8(t).Short? {
      CompletionCompletes(t);
    }
    forall u | Completes8(t, u) ensures Parse8(t).Character? || Parse8(t).Short? {
      var c := t + u;
      assert c[..|c|] == c && c[..|t|] == t;
      CharIsParsed(c, |c|);
      Stable8(c, |t|);
    }
  }

  predicate IsChar16(c: seq<bv16>)
  {
    || (|c| == 1 && !(0xD800 <= c[0] <= 0xDFFF))
    || (|c| == 2 && 0xD800 <= c[0] <= 0xDBFF && 0xDC00 <= c[1] <= 0xDFFF)
  }

  ghost predicate Begins16(t: seq<bv16>) { exists n :: 0 < n <= |t| && IsChar16(t[..n]) }

  /** A lone high surrogate at the very end of the input. */
  predicate CutShort16(t: seq<bv16>) { |t| == 1 && 0xD800 <= t[0] <= 0xDBFF }

  ghost predicate Completes16(t: seq<bv16>, u: seq<bv16>) { IsChar16(t + u) }

  /** That is, too, what no character begins but one does with more behind it. */
  lemma CutShort16Completes(t: seq<bv16>)
    ensures CutShort16(t) <==> t != [] && !Begins16(t) && exists u :: Completes16(t, u)
  {
    if CutShort16(t) {
      assert Completes16(t, [0xDC00]);
    }
    if exists u :: Completes16(t, u) {
      var u :| Completes16(t, u);
      if |t| == 2 || (|t| == 1 && u == []) {
        assert t[..|t|] == t == t + u;
      }
    }
  }

  lemma Parse16Says(t: seq<bv16>)
    requires t != []
    ensures Parse16(t).Character? <==> Begins16(t)
    ensures Parse16(t).Short? <==> CutShort16(t)
    ensures Parse16(t).Malformed? <==> !Begins16(t) && !CutShort16(t)
  {
    if Parse16(t).Character? {
      assert IsChar16(t[..Parse16(t).used]);
    }
  }

  // ----- The numbers behind the bits -----

  /** The arithmetic of the two encoding forms: each byte or word counts from the bottom of its range. */
  lemma Positional(a: bv8, b: bv8, c: bv8, d: bv8)
    ensures a < 0x80 ==> Value1(a) == a as bv32
    ensures 0xC0 <= a < 0xE0 && IsTail(b) ==> Value2(a, b) == ((a - 0xC0) as bv32 << 6) + (b - 0x80) as bv32
    ensures 0xE0 <= a < 0xF0 && IsTail(b) && IsTail(c) ==>
              Value3(a, b, c) == ((a - 0xE0) as bv32 << 12) + ((b - 0x80) as bv32 << 6) + (c - 0x80) as bv32
    ensures 0xF0 <= a < 0xF8 && IsTail(b) && IsTail(c) && IsTail(d) ==>
              Value4(a, b, c, d) == ((a - 0xF0) as bv32 << 18) + ((b - 0x80) as bv32 << 12)
                                    + ((c - 0x80) as bv32 << 6) + (d - 0x80) as bv32
  {
  }

  lemma PairPositional(w1: bv16, w2: bv16)
    requires 0xD800 <= w1 <= 0xDBFF && 0xDC00 <= w2 <= 0xDFFF
    ensures PairValue(w1, w2) == 0x1_0000 + ((w1 - 0xD800) as bv32 << 10) + (w2 - 0xDC00) as bv32
  {
  }

  // ----- Where a run stops -----

  /** What a run has read, and that it stops for the reason its last look gave. */
  lemma {:induction false} RunStops<I(!new), O>(c: Codec<I, O>, s: seq<I>, room: nat) returns (values: seq<bv32>)
    requires Sound(c)
    ensures var r := Run(c, s, room);
            && r.consumed <= |s| && |r.output| <= room && r.output == EmitAll(c.emit, values)
            && if r.consumed == |s| then r.verdict == Ok
               else OneStep(c, s[r.consumed..], room - |r.output|) == Stop(r.verdict)
    ensures ReadInTurn(c, s, values) == Run(c, s, room).consumed
    decreases |s|
  {
    if s == [] {
      values := [];
    } else {
      var step := OneStep(c, s, room);
      StepBounds(c, s, room);
      if step.Advance? {
        var rest := RunStops(c, s[step.used..], room - |step.units|);
        RunStep(c, s, room, step);
        values := [c.parse(s).value] + rest;
        assert values[1..] == rest;
        var r := Run(c, s[step.used..], room - |step.units|);
        assert s[step.used..][r.consumed..] == s[step.used + r.consumed..];
      } else {
        values := [];
        assert s[0..] == s;
      }
    }
  }

  /** How far one gets reading exactly these values. */
  ghost function ReadInTurn<I(!new), O>(c: Codec<I, O>, s: seq<I>, values: seq<bv32>): nat
    decreases |values|
  {
    if values == [] then 0
    else if s != [] && c.parse(s).Character? && c.parse(s).value == values[0] && 0 < c.parse(s).used <= |s|
    then c.parse(s).used + ReadInTurn(c, s[c.parse(s).used..], values[1..])
    else |s| + 1
  }

  /** If writing undoes reading, the input read is the values written. */
  lemma {:induction false} ReadIsWritten<I(!new), O>(c: Codec<I, O>, units: bv32 -> seq<I>, valid: bv32 -> bool,
                                                     s: seq<I>, values: seq<bv32>)
    requires EmitAfterParse(c.parse, units, valid) && ReadInTurn(c, s, values) <= |s|
    ensures AllValid(valid, values) && EmitAll(units, values) == s[..ReadInTurn(c, s, values)]
    decreases |values|
  {
    if values != [] {
      var n := c.parse(s).used;
      assert WritesBack(c.parse, units, valid, s);
      ReadIsWritten(c, units, valid, s[n..], values[1..]);
      assert s[..n] + s[n..][..ReadInTurn(c, s[n..], values[1..])] == s[..ReadInTurn(c, s, values)];
      assert forall v :: v in values <==> v == values[0] || v in values[1..];
    }
  }

  // ----- utf8_to_ucs4 -----

  predicate Within32(max: bv32, v: bv32) { IsScalar(v) && v <= max }
  function ScalarUpTo(max: bv32): bv32 -> bool { v => Within32(max, v) }

  /** The input begins with the UTF-8 form of this value. */
  predicate Leads8(v: bv32, t: seq<bv8>) { IsScalar(v) && Units8(v) <= t }

  lemma LeadingValue8(t: seq<bv8>)
    requires t != [] && Begins8(t)
    ensures Leads8(Parse8(t).value, t) && Parse8(t).used == |Units8(Parse8(t).value)|
  {
    Parse8Says(t);
    UnitsOfParse8(t);
  }

  lemma OnlyLeadingValue8(t: seq<bv8>, v: bv32)
    requires t != [] && Leads8(v, t)
    ensures Begins8(t) && Parse8(t).value == v
  {
    var rest := t[|Units8(v)|..];
    assert t == Units8(v) + rest;
    Parse8OfUnits(v, rest);
    Parse8Says(t);
  }

  lemma EmitAfterCapped8(max: bv32)
    ensures EmitAfterParse(Utf8ToUcs4(max).parse, Units8, ScalarUpTo(max))
  {
    var c := Utf8ToUcs4(max);
    forall s: seq<bv8> | s != [] ensures WritesBack(c.parse, Units8, ScalarUpTo(max), s) {
      UnitsOfParse8(s);
    }
  }

  /** `utf8_to_ucs4` takes the longest run of characters up to the limit that there is room for, and
      stops: ok at the end of the input, partial when there is no more room or the input ends inside a
      character, and otherwise with an error: no character begins there, or one above the limit. */
  lemma Utf8ToUcs4Stops(max: bv32, s: seq<bv8>, room: nat)
    ensures var r := Run(Utf8ToUcs4(max), s, room);
            && r.consumed <= |s| && |r.output| <= room
            && AllValid(ScalarUpTo(max), r.output) && EmitAll(Units8, r.output) == s[..r.consumed]
            && var t := s[r.consumed..];
               && r.verdict == (if t == [] then Ok
                                else if |r.output| == room || CutShort8(t) then Partial else Error)
               && (r.verdict == Error && Begins8(t) ==> exists v :: Leads8(v, t) && v > max)
  {
    var c := Utf8ToUcs4(max);
    Utf8ToUcs4Sound(max);
    EmitAfterCapped8(max);
    var values := RunStops(c, s, room);
    ReadIsWritten(c, Units8, ScalarUpTo(max), s, values);
    EmitItself(values);
    var t := s[Run(c, s, room).consumed..];
    if t != [] {
      Parse8Says(t);
      assert c.parse(t) == Cap(Over(max, Parse8(t)), Parse8(t));
      if Begins8(t) {
        LeadingValue8(t);
      }
    }
  }

  /** With as much room as there are bytes, room plays no part. */
  lemma Utf8ToUcs4WithRoom(max: bv32, s: seq<bv8>, room: nat)
    requires room >= |s|
    ensures var r := Run(Utf8ToUcs4(max), s, room);
            && r.consumed <= |s|
            && (r.verdict == Ok <==> r.consumed == |s|)
            && (r.verdict == Partial <==> CutShort8(s[r.consumed..]))
  {
    Utf8ToUcs4Stops(max, s, room);
    AtLeastOneByte(Run(Utf8ToUcs4(max), s, room).output);
  }

  lemma {:induction false} AtLeastOneByte(values: seq<bv32>)
    ensures |EmitAll(Units8, values)| >= |values|
  {
    if values != [] {
      EmitsSomething(values[0]);
      AtLeastOneByte(values[1..]);
    }
  }

  // ----- utf8_to_utf16 -----

  lemma EmitAfterCapped8For16(max: bv32)
    ensures EmitAfterParse(Utf8ToUtf16(max).parse, Units8, ScalarUpTo(max))
  {
    var c := Utf8ToUtf16(max);
    forall s: seq<bv8> | s != [] ensures WritesBack(c.parse, Units8, ScalarUpTo(max), s) {
      UnitsOfParse8(s);
    }
  }

  /** The input begins with a character that takes a surrogate pair. */
  ghost predicate LeadsPair(t: seq<bv8>) { exists v :: Leads8(v, t) && v >= 0x1_0000 }

  /** `utf8_to_utf16` does the same, but refuses a first byte above the limit before anything else, and
      a character that takes a pair only when there is room for the pair. */
  lemma Utf8ToUtf16Stops(max: bv32, s: seq<bv8>, room: nat) returns (values: seq<bv32>)
    ensures var r := Run(Utf8ToUtf16(max), s, room);
            && r.consumed <= |s| && |r.output| <= room && r.output == EmitAll(Units16, values)
            && AllValid(ScalarUpTo(max), values) && EmitAll(Units8, values) == s[..r.consumed]
            && var t, left := s[r.consumed..], room - |r.output|;
               && r.verdict == (if t == [] then Ok
                                else if left == 0 then Partial
                                else if t[0] as bv32 > max then Error
                                else if CutShort8(t) || (left == 1 && LeadsPair(t)) then Partial else Error)
               && (r.verdict == Error && Begins8(t) ==> t[0] as bv32 > max || exists v :: Leads8(v, t) && v > max)
  {
    var c := Utf8ToUtf16(max);
    Utf8ToUtf16Sound(max);
    EmitAfterCapped8For16(max);
    values := RunStops(c, s, room);
    ReadIsWritten(c, Units8, ScalarUpTo(max), s, values);
    var t := s[Run(c, s, room).consumed..];
    if t != [] {
      StopsAt16(max, t, room - |Run(c, s, room).output|);
    }
  }

  /** What a look at a character comes to, whatever the bits are. */
  function StepOf<O>(emit: bv32 -> seq<O>, p: Parse, left: nat): Step<O>
  {
    match p
    case Malformed => Stop(Error)
    case Short => Stop(Partial)
    case Beyond(v) => if |emit(v)| > left then Stop(Partial) else Stop(Error)
    case Character(n, v) => if |emit(v)| > left then Stop(Partial) else Advance(n, emit(v))
  }

  lemma StopReason16(emit: bv32 -> seq<bv16>, firstOver: bool, over: bool, p: Parse, left: nat)
    requires left > 0 && StepOf(emit, CapFor16(firstOver, over, p), left).Stop? && !p.Beyond? && (over ==> p.Character?)
    requires p.Character? ==> |emit(p.value)| == if p.used == 4 then 2 else 1
    ensures StepOf(emit, CapFor16(firstOver, over, p), left) ==
            Stop(if !firstOver && (p.Short? || (left == 1 && p.Character? && p.used == 4)) then Partial else Error)
    ensures StepOf(emit, CapFor16(firstOver, over, p), left) == Stop(Error) && p.Character? ==> firstOver || over
  {
  }

  lemma LeadsPairIff(t: seq<bv8>)
    requires t != []
    ensures LeadsPair(t) <==> Parse8(t).Character? && Parse8(t).used == 4
  {
    Parse8Says(t);
    if Begins8(t) {
      LeadingValue8(t);
      UnitsInUtf16(Parse8(t).value);
    }
    forall v | Leads8(v, t) ensures Begins8(t) && Parse8(t).value == v {
      OnlyLeadingValue8(t, v);
    }
  }

  lemma OverLeads8(max: bv32, t: seq<bv8>)
    requires t != [] && Over(max, Parse8(t))
    ensures exists v :: Leads8(v, t) && v > max
  {
    Parse8Says(t);
    LeadingValue8(t);
  }

  lemma Looks16(max: bv32, t: seq<bv8>, left: nat)
    requires t != [] && left > 0
    ensures OneStep(Utf8ToUtf16(max), t, left) == StepOf(Units16, CapFor16(t[0] as bv32 > max, Over(max, Parse8(t)), Parse8(t)), left)
  {
    assert Utf8ToUtf16(max).parse(t) == Capped8For16(max, t);
  }

  lemma CharacterFacts8(t: seq<bv8>)
    requires t != []
    ensures !Parse8(t).Beyond?
    ensures Parse8(t).Character? ==> |Units16(Parse8(t).value)| == if Parse8(t).used == 4 then 2 else 1
  {
    if Parse8(t).Character? {
      Parse8Says(t);
      LeadingValue8(t);
      UnitsInUtf16(Parse8(t).value);
    }
  }

  lemma StopsAt16(max: bv32, t: seq<bv8>, left: nat)
    requires t != [] && OneStep(Utf8ToUtf16(max), t, left).Stop?
    ensures OneStep(Utf8ToUtf16(max), t, left) ==
            Stop(if left == 0 then Partial
                 else if t[0] as bv32 > max then Error
                 else if CutShort8(t) || (left == 1 && LeadsPair(t)) then Partial else Error)
    ensures OneStep(Utf8ToUtf16(max), t, left) == Stop(Error) && Begins8(t) ==>
              t[0] as bv32 > max || exists v :: Leads8(v, t) && v > max
  {
    if left > 0 {
      var firstOver, over, p := t[0] as bv32 > max, Over(max, Parse8(t)), Parse8(t);
      Looks16(max, t, left);
      Parse8Says(t);
      CharacterFacts8(t);
      LeadsPairIff(t);
      StopReason16(Units16, firstOver, over, p, left);
      if over {
        OverLeads8(max, t);
      }
    }
  }

  lemma UnitsInUtf16(v: bv32)
    ensures |Units16(v)| == (if v < 0x1_0000 then 1 else 2) && (|Units8(v)| == 4 <==> v >= 0x1_0000)
  {
  }

  // ----- ucs4_to_utf8 -----

  predicate Encodable(max: bv32, v: bv32) { !IsSurrogate(v) && v <= max }

  /** How many bytes a value takes. */
  function Length8(v: bv32): nat { if v < 0x80 then 1 else if v < 0x800 then 2 else if v < 0x1_0000 then 3 else 4 }

  function EncodableUpTo(max: bv32): bv32 -> bool { v => Encodable(max, v) }

  lemma ItselfAfterCapped32(max: bv32)
    ensures EmitAfterParse(Ucs4ToUtf8(max).parse, Itself, EncodableUpTo(max))
  {
    var c := Ucs4ToUtf8(max);
    forall t: seq<bv32> | t != [] ensures WritesBack(c.parse, Itself, EncodableUpTo(max), t) {
      assert c.parse(t) == Capped32(max, t) == Parse32(max, t[0]);
    }
  }

  lemma Looks32(max: bv32, t: seq<bv32>, left: nat)
    requires t != []
    ensures OneStep(Ucs4ToUtf8(max), t, left) == StepOf(Units8, Parse32(max, t[0]), left)
    ensures Parse32(max, t[0]) == if Encodable(max, t[0]) then Character(1, t[0]) else Malformed
  {
    assert Ucs4ToUtf8(max).parse(t) == Capped32(max, t);
  }

  /** `ucs4_to_utf8` encodes value after value and stops at one that is a surrogate or above the limit,
      with an error, or for which there is no room, partial. */
  lemma Ucs4ToUtf8Stops(max: bv32, s: seq<bv32>, room: nat)
    ensures var r := Run(Ucs4ToUtf8(max), s, room);
            && r.consumed <= |s| && |r.output| <= room && r.output == EmitAll(Units8, s[..r.consumed])
            && AllValid(EncodableUpTo(max), s[..r.consumed])
            && if r.consumed == |s| then r.verdict == Ok
               else var v := s[r.consumed];
                    if !Encodable(max, v) then r.verdict == Error
                    else r.verdict == Partial && Length8(v) > room - |r.output|
  {
    var c := Ucs4ToUtf8(max);
    Ucs4ToUtf8Sound(max);
    ItselfAfterCapped32(max);
    var values := RunStops(c, s, room);
    ReadIsWritten(c, Itself, EncodableUpTo(max), s, values);
    EmitItself(values);
    var n := Run(c, s, room).consumed;
    if n < |s| {
      var t := s[n..];
      assert t != [] && t[0] == s[n];
      Looks32(max, t, room - |Run(c, s, room).output|);
      BytesInUtf8(s[n]);
    }
  }

  // ----- utf16_to_utf8 -----

  predicate Leads16(v: bv32, t: seq<bv16>) { IsScalar(v) && Units16(v) <= t }

  lemma LeadingValue16(t: seq<bv16>)
    requires t != [] && Begins16(t)
    ensures Leads16(Parse16(t).value, t)
  {
    Parse16Says(t);
    UnitsOfParse16(t);
  }

  lemma OnlyLeadingValue16(t: seq<bv16>, v: bv32)
    requires t != [] && Leads16(v, t)
    ensures Begins16(t) && Parse16(t).value == v
  {
    var rest := t[|Units16(v)|..];
    assert t == Units16(v) + rest;
    Parse16OfUnits(v, rest);
    Parse16Says(t);
  }

  /** The next character is there and has no room. */
  ghost predicate NoRoomFor(t: seq<bv16>, left: nat) { exists v :: Leads16(v, t) && Length8(v) > left }

  /** `utf16_to_utf8` refuses a first word above the limit before anything else; it is partial at a lone
      high surrogate that ends the input and at a character it has no room for; and the error is at a
      surrogate out of place or a character above the limit. */
  lemma Utf16ToUtf8Stops(max: bv32, s: seq<bv16>, room: nat) returns (values: seq<bv32>)
    ensures var r := Run(Utf16ToUtf8(max), s, room);
            && r.consumed <= |s| && |r.output| <= room && r.output == EmitAll(Units8, values)
            && AllValid(ScalarUpTo(max), values) && EmitAll(Units16, values) == s[..r.consumed]
            && var t := s[r.consumed..];
               && r.verdict == (if t == [] then Ok
                                else if t[0] as bv32 > max then Error
                                else if CutShort16(t) || NoRoomFor(t, room - |r.output|) then Partial else Error)
               && (r.verdict == Error && Begins16(t) ==> t[0] as bv32 > max || exists v :: Leads16(v, t) && v > max)
  {
    var c := Utf16ToUtf8(max);
    Utf16ToUtf8Sound(max);
    EmitAfterCapped16(max);
    values := RunStops(c, s, room);
    ReadIsWritten(c, Units16, ScalarUpTo(max), s, values);
    var t := s[Run(c, s, room).consumed..];
    if t != [] {
      StopsAt8(max, t, room - |Run(c, s, room).output|);
    }
  }

  lemma EmitAfterCapped16(max: bv32)
    ensures EmitAfterParse(Utf16ToUtf8(max).parse, Units16, ScalarUpTo(max))
  {
    var c := Utf16ToUtf8(max);
    forall s: seq<bv16> | s != [] ensures WritesBack(c.parse, Units16, ScalarUpTo(max), s) {
      UnitsOfParse16(s);
    }
  }

  lemma StopReason8(emit: bv32 -> seq<bv8>, firstOver: bool, over: bool, p: Parse, left: nat)
    requires StepOf(emit, Cap16(firstOver, over, p), left).Stop? && !p.Beyond? && (over ==> p.Character?)
    ensures StepOf(emit, Cap16(firstOver, over, p), left) ==
            Stop(if !firstOver && (p.Short? || (p.Character? && |emit(p.value)| > left)) then Partial else Error)
    ensures StepOf(emit, Cap16(firstOver, over, p), left) == Stop(Error) && p.Character? ==> firstOver || over
  {
  }

  lemma NoRoomForIff(t: seq<bv16>, left: nat)
    requires t != []
    ensures NoRoomFor(t, left) <==> Parse16(t).Character? && |Units8(Parse16(t).value)| > left
  {
    Parse16Says(t);
    if Begins16(t) {
      LeadingValue16(t);
      BytesInUtf8(Parse16(t).value);
    }
    forall v | Leads16(v, t) ensures Begins16(t) && Parse16(t).value == v {
      OnlyLeadingValue16(t, v);
    }
  }

  lemma BytesInUtf8(v: bv32)
    ensures |Units8(v)| == Length8(v)
  {
  }

  lemma OverLeads16(max: bv32, t: seq<bv16>)
    requires t != [] && Over(max, Parse16(t))
    ensures exists v :: Leads16(v, t) && v > max
  {
    Parse16Says(t);
    LeadingValue16(t);
  }

  lemma Looks8(max: bv32, t: seq<bv16>, left: nat)
    requires t != []
    ensures OneStep(Utf16ToUtf8(max), t, left) == StepOf(Units8, Cap16(Exceeds16(t[0], max), Over(max, Parse16(t)), Parse16(t)), left)
  {
    assert Utf16ToUtf8(max).parse(t) == Capped16(Parse16, WordOver(max), ValueOver(max), t);
  }

  lemma StopsAt8(max: bv32, t: seq<bv16>, left: nat)
    requires t != [] && OneStep(Utf16ToUtf8(max), t, left).Stop?
    ensures OneStep(Utf16ToUtf8(max), t, left) ==
            Stop(if Exceeds16(t[0], max) then Error
                 else if CutShort16(t) || NoRoomFor(t, left) then Partial else Error)
    ensures OneStep(Utf16ToUtf8(max), t, left) == Stop(Error) && Begins16(t) ==>
              Exceeds16(t[0], max) || exists v :: Leads16(v, t) && v > max
  {
    var firstOver, over, p := Exceeds16(t[0], max), Over(max, Parse16(t)), Parse16(t);
    Looks8(max, t, left);
    Parse16Says(t);
    NoRoomForIff(t, left);
    StopReason8(Units8, firstOver, over, p, left);
    if over {
      OverLeads16(max, t);
    }
  }
}
