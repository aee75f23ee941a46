/** The conversion loops of locale.cpp over buffers. Each is shown to compute the run of its codec. */
module Converters {
  import opened Transcoding
  import opened Unicode
  import opened UtfCodecs

  // ----- Bits -----

  method IsContinuation(c: bv8) returns (b: bool)
    ensures b <==> IsTail(c)
  {
    b := (c & 0xC0) == 0x80;
  }

  /** The switches on the first byte that accept a second one. */
  method AcceptsSecond3(c1: bv8, c2: bv8) returns (b: bool)
    requires 0xE0 <= c1 < 0xF0
    ensures b <==> SecondFits(c1, c2)
  {
    if c1 == 0xE0 {
      b := (c2 & 0xE0) == 0xA0;
    } else if c1 == 0xED {
      b := (c2 & 0xE0) == 0x80;
    } else {
      b := (c2 & 0xC0) == 0x80;
    }
  }

  method AcceptsSecond4(c1: bv8, c2: bv8) returns (b: bool)
    requires 0xF0 <= c1 < 0xF5
    ensures b <==> SecondFits(c1, c2)
  {
    if c1 == 0xF0 {
      b := 0x90 <= c2 <= 0xBF;
    } else if c1 == 0xF4 {
      b := (c2 & 0xF0) == 0x80;
    } else {
      b := (c2 & 0xC0) == 0x80;
    }
  }

  /** The surrogates computed straight from the four bytes. */
  lemma PairFromBytes(a: bv8, b: bv8, c: bv8, d: bv8)
    requires Width8(a) == 4 && SecondFits(a, b) && IsTail(c) && IsTail(d)
    ensures var v := Value4(a, b, c, d);
            && HighFrom(a, b, c) == High(v) as bv32
            && LowFrom(c, d) == Low(v) as bv32
  {
  }

  function HighFrom(a: bv8, b: bv8, c: bv8): bv32
  {
    0xD800 | (((((a & 0x07) as bv32 << 2) | ((b & 0x30) as bv32 >> 4)) - 1) << 6) | ((b & 0x0F) as bv32 << 2) | ((c & 0x30) as bv32 >> 4)
  }

  function LowFrom(c: bv8, d: bv8): bv32
  {
    0xDC00 | ((c & 0x0F) as bv32 << 6) | (d & 0x3F) as bv32
  }

  /** The four bytes computed straight from the surrogates. */
  lemma BytesFromPair(w1: bv16, w2: bv16)
    requires IsHigh(w1) && IsLow(w2)
    ensures var v, z := PairValue(w1, w2), ((w1 & 0x03C0) >> 6) + 1;
            && (0xF0 | (z >> 2)) as bv8 == Lead4(v)
            && (0x80 | ((z & 0x03) << 4) | ((w1 & 0x003C) >> 2)) as bv8 == Low6(v >> 12)
            && (0x80 | ((w1 & 0x0003) << 4) | ((w2 & 0x03C0) >> 6)) as bv8 == Low6(v >> 6)
            && (0x80 | (w2 & 0x003F)) as bv8 == Low6(v)
  {
  }

  lemma LowMask(w: bv16)
    ensures (w & 0xFC00) == 0xDC00 <==> IsLow(w)
  {
  }

  lemma SurrogateMask(v: bv32)
    ensures (v & 0xFFFFF800) == 0xD800 <==> IsSurrogate(v)
  {
  }

  // ----- One turn of a loop, as values -----

  /** The rest of a conversion of s that stands at position i and has written `out`. */
  function RunFrom<I, O>(c: Codec<I, O>, s: seq<I>, room: nat, i: nat, out: seq<O>): Outcome<O>
    requires i <= |s| && |out| <= room
    decreases |s| - i
  {
    if i == |s| then Outcome(Ok, i, out)
    else match OneStep(c, s[i..], room - |out|)
      case Stop(v) => Outcome(v, i, out)
      case Advance(n, units) =>
        if 0 < n <= |s| - i then RunFrom(c, s, room, i + n, out + units) else Outcome(Error, i, out)
  }

  lemma RunFromTurn<I, O>(c: Codec<I, O>, s: seq<I>, room: nat, i: nat, out: seq<O>, step: Step<O>)
    requires i < |s| && |out| <= room && step == OneStep(c, s[i..], room - |out|)
    requires step.Advance? && 0 < step.used <= |s| - i
    ensures |out + step.units| <= room && RunFrom(c, s, room, i, out) == RunFrom(c, s, room, i + step.used, out + step.units)
  {
  }

  lemma RunFromHalt<I, O>(c: Codec<I, O>, s: seq<I>, room: nat, i: nat, out: seq<O>, step: Step<O>)
    requires i < |s| && |out| <= room && step == OneStep(c, s[i..], room - |out|)
    requires !(step.Advance? && 0 < step.used <= |s| - i)
    ensures RunFrom(c, s, room, i, out) == Prepend(i, out, Run(c, s[i..], room - |out|))
  {
    assert Run(c, s[i..], room - |out|) == Outcome(if step.Stop? then step.verdict else Error, 0, []);
  }

  lemma PrependTurn<I, O>(c: Codec<I, O>, s: seq<I>, room: nat, i: nat, out: seq<O>, step: Step<O>)
    requires i < |s| && |out| <= room && step == OneStep(c, s[i..], room - |out|)
    requires step.Advance? && 0 < step.used <= |s| - i && |out + step.units| <= room
    ensures Prepend(i + step.used, out + step.units, Run(c, s[i + step.used..], room - |out + step.units|))
            == Prepend(i, out, Run(c, s[i..], room - |out|))
  {
    RunStep(c, s[i..], room - |out|, step);
    assert s[i..][step.used..] == s[i + step.used..];
    PrependTwice(i, out, step.used, step.units, Run(c, s[i + step.used..], room - |out| - |step.units|));
  }

  lemma {:induction false} RunFromIsRun<I, O>(c: Codec<I, O>, s: seq<I>, room: nat, i: nat, out: seq<O>)
    requires i <= |s| && |out| <= room
    ensures RunFrom(c, s, room, i, out) == Prepend(i, out, Run(c, s[i..], room - |out|))
    decreases |s| - i
  {
    if i < |s| {
      var step := OneStep(c, s[i..], room - |out|);
      if step.Advance? && 0 < step.used <= |s| - i {
        RunFromTurn(c, s, room, i, out, step);
        RunFromIsRun(c, s, room, i + step.used, out + step.units);
        PrependTurn(c, s, room, i, out, step);
      } else {
        RunFromHalt(c, s, room, i, out, step);
      }
    }
  }

  ghost predicate SoFar<I, O>(c: Codec<I, O>, s: seq<I>, room: nat, i: nat, out: seq<O>)
  {
    i <= |s| && |out| <= room && RunFrom(c, s, room, i, out) == Run(c, s, room)
  }

  lemma Begin<I, O>(c: Codec<I, O>, s: seq<I>, room: nat)
    ensures SoFar(c, s, room, 0, [])
  {
    RunFromIsRun(c, s, room, 0, []);
    assert s[0..] == s;
    PrependNothing(Run(c, s, room));
  }

  lemma Halt<I(!new), O>(c: Codec<I, O>, s: seq<I>, room: nat, i: nat, out: seq<O>, step: Step<O>)
    requires SoFar(c, s, room, i, out) && i < |s| && step == OneStep(c, s[i..], room - |out|) && step.Stop?
    ensures Run(c, s, room) == Outcome(step.verdict, i, out)
  {
  }

  lemma Turn<I(!new), O>(c: Codec<I, O>, s: seq<I>, room: nat, i: nat, out: seq<O>, step: Step<O>, i': nat, out': seq<O>)
    requires SoFar(c, s, room, i, out) && i < |s| && step == OneStep(c, s[i..], room - |out|)
    requires step.Advance? && 0 < step.used <= |s| - i && |step.units| <= room - |out|
    requires i' == i + step.used && out' == out + step.units
    ensures SoFar(c, s, room, i', out')
  {
  }

  lemma Done<I, O>(c: Codec<I, O>, s: seq<I>, room: nat, out: seq<O>)
    requires SoFar(c, s, room, |s|, out)
    ensures Run(c, s, room) == Outcome(Ok, |s|, out)
  {
  }

  /** A loop has converted frm[k..fn] into to[b..tn] and goes on. */
  ghost predicate Reached<I, O>(c: Codec<I, O>, frm: array<I>, k: nat, fn: nat, to: array<O>, b: nat, tn: nat)
    reads frm, to
  {
    && k <= fn <= frm.Length && b <= tn <= to.Length
    && SoFar(c, frm[k..], to.Length - b, fn - k, to[b..tn])
  }

  /** The outcome for frm[k..] is verdict r, with positions fn and tn. */
  ghost predicate Stopped<I, O>(c: Codec<I, O>, frm: array<I>, k: nat, fn: nat, to: array<O>, b: nat, tn: nat, r: Verdict)
    reads frm, to
  {
    && k <= fn <= frm.Length && b <= tn <= to.Length
    && Run(c, frm[k..], to.Length - b) == Outcome(r, fn - k, to[b..tn])
  }

  lemma Start<I, O>(c: Codec<I, O>, frm: array<I>, k: nat, to: array<O>, b: nat)
    requires k <= frm.Length && b <= to.Length
    ensures Reached(c, frm, k, k, to, b, b)
  {
    Begin(c, frm[k..], to.Length - b);
  }

  /** The verdict at the end of the input, or when there is no room to look further. */
  lemma Finish<I(!new), O>(c: Codec<I, O>, frm: array<I>, k: nat, fn: nat, to: array<O>, b: nat, tn: nat)
    requires Reached(c, frm, k, fn, to, b, tn)
    requires fn == frm.Length || (c.looksOnlyWithRoom && tn == to.Length)
    ensures Stopped(c, frm, k, fn, to, b, tn, if fn < frm.Length then Partial else Ok)
  {
    if fn < frm.Length {
      Halt(c, frm[k..], to.Length - b, fn - k, to[b..tn], Stop(Partial));
    } else {
      Done(c, frm[k..], to.Length - b, to[b..tn]);
    }
  }

  method Store<O>(to: array<O>, tn: nat, units: seq<O>)
    requires tn + |units| <= to.Length
    modifies to
    ensures to[..tn + |units|] == old(to[..tn]) + units
    ensures forall j :: tn + |units| <= j < to.Length ==> to[j] == old(to[j])
  {
    for j := 0 to |units|
      invariant forall i :: 0 <= i < j ==> to[tn + i] == units[i]
      invariant forall i :: 0 <= i < to.Length && !(tn <= i < tn + j) ==> to[i] == old(to[i])
    {
      to[tn + j] := units[j];
    }
    assert to[..tn + |units|] == old(to[..tn]) + units;
  }

  /** What a loop does with what it found: stop, or store the units and move on. */
  method Apply<I(!new), O>(ghost c: Codec<I, O>, frm: array<I>, ghost k: nat, fn: nat, to: array<O>, ghost b: nat, tn: nat, step: Step<O>)
    returns (r: Verdict, fn': nat, tn': nat)
    requires fn < frm.Length && Reached(c, frm, k, fn, to, b, tn)
    requires step == OneStep(c, frm[..][fn..], to.Length - tn)
    requires if step.Stop? then step.verdict != Ok else 0 < step.used <= frm.Length - fn && |step.units| <= to.Length - tn
    requires (frm as object) != (to as object)
    modifies to
    ensures frm[..] == old(frm[..]) && tn <= tn' <= to.Length
    ensures forall j :: 0 <= j < tn || tn' <= j < to.Length ==> to[j] == old(to[j])
    ensures r != Ok ==> Stopped(c, frm, k, fn', to, b, tn', r)
    ensures r == Ok ==> fn < fn' && Reached(c, frm, k, fn', to, b, tn')
  {
    if step.Stop? {
      assert frm[k..][fn - k..] == frm[..][fn..];
      Halt(c, frm[k..], to.Length - b, fn - k, to[b..tn], step);
      r, fn', tn' := step.verdict, fn, tn;
    } else {
      r := Ok;
      fn', tn' := Take(c, frm, k, fn, to, b, tn, step);
    }
  }

  method Take<I(!new), O>(ghost c: Codec<I, O>, frm: array<I>, ghost k: nat, fn: nat, to: array<O>, ghost b: nat, tn: nat, step: Step<O>)
    returns (fn': nat, tn': nat)
    requires fn < frm.Length && Reached(c, frm, k, fn, to, b, tn)
    requires step == OneStep(c, frm[..][fn..], to.Length - tn)
    requires step.Advance? && 0 < step.used <= frm.Length - fn && |step.units| <= to.Length - tn
    requires (frm as object) != (to as object)
    modifies to
    ensures frm[..] == old(frm[..]) && tn <= tn' <= to.Length
    ensures forall j :: 0 <= j < tn || tn' <= j < to.Length ==> to[j] == old(to[j])
    ensures fn < fn' && Reached(c, frm, k, fn', to, b, tn')
  {
    ghost var s, out := frm[k..], to[b..tn];
    assert s[fn - k..] == frm[..][fn..];
    Store(to, tn, step.units);
    fn', tn' := fn + step.used, tn + |step.units|;
    PrefixGrows(to[..tn'], b, tn, step.units);
    assert frm[k..] == s && to[..tn'][b..] == to[b..tn'] && to[..tn'][b..tn] == out;
    Turn(c, s, to.Length - b, fn - k, out, step, fn' - k, to[b..tn']);
  }

  lemma PrefixGrows<O>(all: seq<O>, b: nat, tn: nat, units: seq<O>)
    requires b <= tn && |all| == tn + |units| && all[tn..] == units
    ensures all[b..] == all[b..tn] + units
  {
  }

  // ----- Reading UTF-8: the tests that the four functions below share -----

  lemma Front8(s: seq<bv8>, i: nat)
    requires i < |s|
    ensures var t := s[i..];
            && t != [] && |t| == |s| - i && t[0] == s[i]
            && (|t| > 1 ==> t[1] == s[i + 1]) && (|t| > 2 ==> t[2] == s[i + 2]) && (|t| > 3 ==> t[3] == s[i + 3])
  {
  }

  lemma Parse8By2(t: seq<bv8>)
    requires t != [] && 0xC2 <= t[0] < 0xE0
    ensures Parse8(t) == if |t| < 2 then Short else if !IsTail(t[1]) then Malformed else Character(2, Value2(t[0], t[1]))
  {
  }

  lemma Parse8By3(t: seq<bv8>)
    requires t != [] && 0xE0 <= t[0] < 0xF0
    ensures Parse8(t) ==
            if |t| < 2 then Short else if !SecondFits(t[0], t[1]) then Malformed
            else if |t| < 3 then Short else if !IsTail(t[2]) then Malformed
            else Character(3, Value3(t[0], t[1], t[2]))
  {
  }

  lemma Parse8By4(t: seq<bv8>)
    requires t != [] && 0xF0 <= t[0] < 0xF5
    ensures Parse8(t) ==
            if |t| < 2 then Short else if !SecondFits(t[0], t[1]) then Malformed
            else if |t| < 3 then Short else if !IsTail(t[2]) then Malformed
            else if |t| < 4 then Short else if !IsTail(t[3]) then Malformed
            else Character(4, Value4(t[0], t[1], t[2], t[3]))
  {
  }

  method ReadUtf8(frm: array<bv8>, i: nat) returns (p: Parse)
    requires i < frm.Length
    ensures p == Parse8(frm[..][i..])
  {
    var c1 := frm[i];
    if c1 < 0x80 {
      Front8(frm[..], i);
      p := Character(1, c1 as bv32);
    } else if c1 < 0xC2 {
      p := Malformed;
    } else if c1 < 0xE0 {
      p := ReadTwo(frm, i);
    } else if c1 < 0xF0 {
      p := ReadThree(frm, i);
    } else if c1 < 0xF5 {
      p := ReadFour(frm, i);
    } else {
      p := Malformed;
    }
  }

  method ReadTwo(frm: array<bv8>, i: nat) returns (p: Parse)
    requires i < frm.Length && 0xC2 <= frm[i] < 0xE0
    ensures p == Parse8(frm[..][i..])
  {
    Front8(frm[..], i);
    Parse8By2(frm[..][i..]);
    if frm.Length - i < 2 {
      return Short;
    }
    var ok := IsContinuation(frm[i + 1]);
    if !ok {
      return Malformed;
    }
    return Character(2, Value2(frm[i], frm[i + 1]));
  }

  method ReadThree(frm: array<bv8>, i: nat) returns (p: Parse)
    requires i < frm.Length && 0xE0 <= frm[i] < 0xF0
    ensures p == Parse8(frm[..][i..])
  {
    Front8(frm[..], i);
    Parse8By3(frm[..][i..]);
    var left := frm.Length - i;
    if left < 2 {
      return Short;
    }
    var ok := AcceptsSecond3(frm[i], frm[i + 1]);
    if !ok {
      return Malformed;
    }
    if left < 3 {
      return Short;
    }
    ok := IsContinuation(frm[i + 2]);
    if !ok {
      return Malformed;
    }
    return Character(3, Value3(frm[i], frm[i + 1], frm[i + 2]));
  }

  method ReadFour(frm: array<bv8>, i: nat) returns (p: Parse)
    requires i < frm.Length && 0xF0 <= frm[i] < 0xF5
    ensures p == Parse8(frm[..][i..])
  {
    Front8(frm[..], i);
    Parse8By4(frm[..][i..]);
    var left := frm.Length - i;
    if left < 2 {
      return Short;
    }
    var ok := AcceptsSecond4(frm[i], frm[i + 1]);
    if !ok {
      return Malformed;
    }
    if left < 3 {
      return Short;
    }
    ok := IsContinuation(frm[i + 2]);
    if !ok {
      return Malformed;
    }
    if left < 4 {
      return Short;
    }
    ok := IsContinuation(frm[i + 3]);
    if !ok {
      return Malformed;
    }
    return Character(4, Value4(frm[i], frm[i + 1], frm[i + 2], frm[i + 3]));
  }

  function HeaderLength(consume: bool, s: seq<bv8>): nat
  {
    if consume && |s| >= 3 && s[0] == 0xEF && s[1] == 0xBB && s[2] == 0xBF then 3 else 0
  }

  /** The header is the UTF-8 form of U+FEFF; it is passed exactly when it is asked for and there, and
      what follows is then converted as if it stood alone. */
  lemma HeaderIsPassed(consume: bool, s: seq<bv8>, rest: seq<bv8>)
    ensures Header() == Units8(0xFEFF)
    ensures HeaderLength(consume, s) == if consume && Header() <= s then |Header()| else 0
    ensures HeaderLength(true, Header() + rest) == |Header()| && (Header() + rest)[|Header()|..] == rest
    ensures HeaderLength(false, s) == 0
  {
    if |s| >= 3 {
      assert Header() <= s <==> s[..3] == Header();
      assert s[..3] == [s[0], s[1], s[2]];
    }
    assert (Header() + rest)[..3] == Header();
  }

  method SkipHeader(frm: array<bv8>, consume: bool) returns (k: nat)
    ensures k == HeaderLength(consume, frm[..]) <= frm.Length
  {
    k := 0;
    if consume {
      if frm.Length >= 3 && frm[0] == 0xEF && frm[1] == 0xBB && frm[2] == 0xBF {
        k := 3;
      }
    }
  }

  // ----- utf8_to_ucs4 -----

  function StepTo32(over: bool, p: Parse): Step<bv32>
  {
    match Cap(over, p)
    case Short => Stop(Partial)
    case Character(n, v) => Advance(n, [v])
    case _ => Stop(Error)
  }

  lemma CappedStep<I>(parse: seq<I> -> Parse, max: bv32, t: seq<I>, room: nat)
    requires room > 0
    ensures OneStep(Capped(parse, max), t, room) == StepTo32(Over(max, parse(t)), parse(t))
  {
  }

  /** One turn of the loop of `utf8_to_ucs4`, short of the store. */
  method ReadCapped(frm: array<bv8>, i: nat, max: bv32, ghost room: nat) returns (step: Step<bv32>)
    requires i < frm.Length && room > 0
    ensures step == OneStep(Utf8ToUcs4(max), frm[..][i..], room)
    ensures step.Advance? ==> |step.units| == 1 && 0 < step.used <= frm.Length - i
  {
    CappedStep(Parse8, max, frm[..][i..], room);
    var p := ReadUtf8(frm, i);
    step := CapStep(p, max);
    TakesSome(frm[..][i..]);
  }

  lemma TakesSome(t: seq<bv8>)
    requires t != []
    ensures !Parse8(t).Beyond? && (Parse8(t).Character? ==> 0 < Parse8(t).used <= |t|)
  {
  }

  method CapStep(p: Parse, max: bv32) returns (step: Step<bv32>)
    ensures step == StepTo32(Over(max, p), p)
    ensures step.Advance? ==> |step.units| == 1 && p.Character? && step.used == p.used
  {
    match p
    case Malformed => step := Stop(Error);
    case Short => step := Stop(Partial);
    case Beyond(_) => step := Stop(Error);
    case Character(n, v) =>
      if v > max {
        step := Stop(Error);
      } else {
        step := Advance(n, [v]);
      }
  }

  method Utf8ToUcs4InPlace(frm: array<bv8>, to: array<bv32>, max: bv32, consume: bool) returns (r: Verdict, fn: nat, tn: nat)
    modifies to
    ensures frm[..] == old(frm[..]) && tn <= to.Length && forall j :: tn <= j < to.Length ==> to[j] == old(to[j])
    ensures Stopped(Utf8ToUcs4(max), frm, HeaderLength(consume, frm[..]), fn, to, 0, tn, r)
  {
    fn := SkipHeader(frm, consume);
    tn := 0;
    ghost var k := fn;
    Start(Utf8ToUcs4(max), frm, k, to, 0);
    while fn < frm.Length && tn < to.Length
      invariant Reached(Utf8ToUcs4(max), frm, k, fn, to, 0, tn)
      invariant frm[..] == old(frm[..]) && forall j :: tn <= j < to.Length ==> to[j] == old(to[j])
      decreases frm.Length - fn
    {
      var step := ReadCapped(frm, fn, max, to.Length - tn);
      r, fn, tn := Apply(Utf8ToUcs4(max), frm, k, fn, to, 0, tn, step);
      if r != Ok {
        return;
      }
    }
    Finish(Utf8ToUcs4(max), frm, k, fn, to, 0, tn);
    r := if fn < frm.Length then Partial else Ok;
  }

  // ----- utf8_to_utf16 -----

  function StepTo16(emit: bv32 -> seq<bv16>, firstOver: bool, over: bool, p: Parse, room: nat): Step<bv16>
  {
    match CapFor16(firstOver, over, p)
    case Malformed => Stop(Error)
    case Short => Stop(Partial)
    case Beyond(v) => if |emit(v)| > room then Stop(Partial) else Stop(Error)
    case Character(n, v) => if |emit(v)| > room then Stop(Partial) else Advance(n, emit(v))
  }

  lemma To16Step(max: bv32, t: seq<bv8>, room: nat)
    requires t != [] && room > 0
    ensures OneStep(Utf8ToUtf16(max), t, room) ==
            StepTo16(Units16, t[0] as bv32 > max, Over(max, Parse8(t)), Parse8(t), room)
  {
  }

  lemma FourParsed(t: seq<bv8>, v: bv32)
    requires Parse8(t) == Character(4, v)
    ensures |t| >= 4 && Width8(t[0]) == 4 && SecondFits(t[0], t[1]) && IsTail(t[2]) && IsTail(t[3])
    ensures v == Value4(t[0], t[1], t[2], t[3])
  {
  }

  lemma PairUnitsFrom(a: bv8, b: bv8, c: bv8, d: bv8)
    requires Width8(a) == 4 && SecondFits(a, b) && IsTail(c) && IsTail(d)
    ensures HighFrom(a, b, c) < 0x1_0000 && LowFrom(c, d) < 0x1_0000
    ensures Units16(Value4(a, b, c, d)) == [HighFrom(a, b, c) as bv16, LowFrom(c, d) as bv16]
  {
    var v := Value4(a, b, c, d);
    PairFromBytes(a, b, c, d);
    Scalar4(a, b, c, d);
    assert Units16(v) == [High(v), Low(v)];
    Narrow(High(v));
    Narrow(Low(v));
  }

  lemma Narrow(w: bv16)
    ensures w as bv32 < 0x1_0000 && (w as bv32) as bv16 == w
  {
  }

  /** The surrogates of a character of four bytes. */
  method PairOfFour(frm: array<bv8>, i: nat, ghost v: bv32) returns (units: seq<bv16>)
    requires i < frm.Length && Parse8(frm[..][i..]) == Character(4, v)
    ensures units == Units16(v) && |units| == 2
  {
    Front8(frm[..], i);
    FourParsed(frm[..][i..], v);
    PairUnitsFrom(frm[i], frm[i + 1], frm[i + 2], frm[i + 3]);
    units := [HighFrom(frm[i], frm[i + 1], frm[i + 2]) as bv16, LowFrom(frm[i + 2], frm[i + 3]) as bv16];
  }

  lemma ShortUnits(t: seq<bv8>, v: bv32, n: nat)
    requires Parse8(t) == Character(n, v)
    ensures 0 < n <= |t| && (n < 4 ==> v < 0x1_0000 && Units16(v) == [v as bv16])
  {
    if n == 2 {
      Scalar2(t[0], t[1]);
    } else if n == 3 {
      Scalar3(t[0], t[1], t[2]);
    }
  }

  /** A limit is looked at before the units of one word are stored, and after room for two is found. */
  method DecideTo16(p: Parse, over: bool, units: seq<bv16>, room: nat, ghost emit: bv32 -> seq<bv16>)
    returns (step: Step<bv16>)
    requires p.Character? && units == emit(p.value) && room > 0 && |units| == (if p.used == 4 then 2 else 1)
    ensures step == StepTo16(emit, false, over, p, room)
    ensures step.Stop? ==> step.verdict != Ok
    ensures step.Advance? ==> step.used == p.used && |step.units| <= room
  {
    if p.used == 4 && room < 2 {
      step := Stop(Partial);
    } else if over {
      step := Stop(Error);
    } else {
      step := Advance(p.used, units);
    }
  }

  /** One turn of the loop of `utf8_to_utf16`, short of the stores. */
  method ReadFor16(frm: array<bv8>, i: nat, max: bv32, room: nat) returns (step: Step<bv16>)
    requires i < frm.Length && room > 0
    ensures step == OneStep(Utf8ToUtf16(max), frm[..][i..], room)
    ensures if step.Stop? then step.verdict != Ok else 0 < step.used <= frm.Length - i && |step.units| <= room
  {
    ghost var t := frm[..][i..];
    To16Step(max, t, room);
    assert t[0] == frm[i];
    if frm[i] as bv32 > max {
      step := Stop(Error);
    } else {
      var p := ReadUtf8(frm, i);
      step := ParsedFor16(frm, i, max, p, room);
    }
  }

  method ParsedFor16(frm: array<bv8>, i: nat, max: bv32, p: Parse, room: nat) returns (step: Step<bv16>)
    requires i < frm.Length && room > 0 && p == Parse8(frm[..][i..])
    ensures step == StepTo16(Units16, false, Over(max, p), p, room)
    ensures if step.Stop? then step.verdict != Ok else 0 < step.used <= frm.Length - i && |step.units| <= room
  {
    if p.Character? {
      var units := UnitsFor16(frm, i, p.used, p.value);
      step := DecideTo16(p, Over(max, p), units, room, Units16);
    } else {
      step := Stop(if p.Short? then Partial else Error);
    }
  }

  method UnitsFor16(frm: array<bv8>, i: nat, n: nat, v: bv32) returns (units: seq<bv16>)
    requires i < frm.Length && Parse8(frm[..][i..]) == Character(n, v)
    ensures units == Units16(v) && |units| == (if n == 4 then 2 else 1) && 0 < n <= frm.Length - i
  {
    ShortUnits(frm[..][i..], v, n);
    if n == 4 {
      units := PairOfFour(frm, i, v);
    } else {
      units := [v as bv16];
    }
  }

  method Utf8ToUtf16InPlace(frm: array<bv8>, to: array<bv16>, max: bv32, consume: bool) returns (r: Verdict, fn: nat, tn: nat)
    modifies to
    ensures frm[..] == old(frm[..]) && tn <= to.Length && forall j :: tn <= j < to.Length ==> to[j] == old(to[j])
    ensures Stopped(Utf8ToUtf16(max), frm, HeaderLength(consume, frm[..]), fn, to, 0, tn, r)
  {
    fn := SkipHeader(frm, consume);
    tn := 0;
    ghost var k := fn;
    Start(Utf8ToUtf16(max), frm, k, to, 0);
    while fn < frm.Length && tn < to.Length
      invariant Reached(Utf8ToUtf16(max), frm, k, fn, to, 0, tn)
      invariant frm[..] == old(frm[..]) && forall j :: tn <= j < to.Length ==> to[j] == old(to[j])
      decreases frm.Length - fn
    {
      var step := ReadFor16(frm, fn, max, to.Length - tn);
      r, fn, tn := Apply(Utf8ToUtf16(max), frm, k, fn, to, 0, tn, step);
      if r != Ok {
        return;
      }
    }
    Finish(Utf8ToUtf16(max), frm, k, fn, to, 0, tn);
    r := if fn < frm.Length then Partial else Ok;
  }

  // ----- ucs4_to_utf8 -----

  function StepTo8(emit: bv32 -> seq<bv8>, p: Parse, room: nat): Step<bv8>
  {
    match p
    case Malformed => Stop(Error)
    case Short => Stop(Partial)
    case Beyond(v) => if |emit(v)| > room then Stop(Partial) else Stop(Error)
    case Character(n, v) => if |emit(v)| > room then Stop(Partial) else Advance(n, emit(v))
  }

  lemma From32Step(max: bv32, t: seq<bv32>, room: nat)
    requires t != []
    ensures OneStep(Ucs4ToUtf8(max), t, room) == StepTo8(Units8, Parse32(max, t[0]), room)
  {
  }

  lemma MiddleBits(v: bv32)
    ensures (0x80 | ((v & 0x0FC0) >> 6)) as bv8 == Low6(v >> 6)
    ensures (0x80 | ((v & 0x03F000) >> 12)) as bv8 == Low6(v >> 12)
  {
  }

  method WriteTwo(v: bv32) returns (units: seq<bv8>)
    requires 0x80 <= v < 0x800
    ensures units == Units8(v)
  {
    units := [(0xC0 | (v >> 6)) as bv8, (0x80 | (v & 0x3F)) as bv8];
  }

  method WriteThree(v: bv32) returns (units: seq<bv8>)
    requires 0x800 <= v < 0x1_0000
    ensures units == Units8(v)
  {
    MiddleBits(v);
    units := [(0xE0 | (v >> 12)) as bv8, (0x80 | ((v & 0x0FC0) >> 6)) as bv8, (0x80 | (v & 0x3F)) as bv8];
  }

  method WriteFour(v: bv32) returns (units: seq<bv8>)
    requires 0x1_0000 <= v
    ensures units == Units8(v)
  {
    MiddleBits(v);
    units := [((0xF0 | (v >> 18)) & 0xFF) as bv8, (0x80 | ((v & 0x03F000) >> 12)) as bv8,
              (0x80 | ((v & 0x0FC0) >> 6)) as bv8, (0x80 | (v & 0x3F)) as bv8];
  }

  lemma Lengths8(v: bv32)
    ensures |Units8(v)| == if v < 0x80 then 1 else if v < 0x800 then 2 else if v < 0x1_0000 then 3 else 4
    ensures v < 0x80 ==> Units8(v) == [v as bv8]
  {
  }

  /** The branches on the size of the value: room first, then the bytes. */
  method Write8(v: bv32, room: nat) returns (step: Step<bv8>)
    ensures step == if |Units8(v)| > room then Stop(Partial) else Advance(1, Units8(v))
  {
    Lengths8(v);
    var units: seq<bv8>;
    if v < 0x80 {
      if room < 1 {
        return Stop(Partial);
      }
      units := [v as bv8];
    } else if v < 0x800 {
      if room < 2 {
        return Stop(Partial);
      }
      units := WriteTwo(v);
    } else if v < 0x1_0000 {
      if room < 3 {
        return Stop(Partial);
      }
      units := WriteThree(v);
    } else {
      if room < 4 {
        return Stop(Partial);
      }
      units := WriteFour(v);
    }
    step := Advance(1, units);
  }

  method LooksSurrogate(v: bv32) returns (b: bool)
    ensures b <==> IsSurrogate(v)
  {
    SurrogateMask(v);
    b := (v & 0xFFFFF800) == 0xD800;
  }

  method ReadUcs4(v: bv32, max: bv32) returns (p: Parse)
    ensures p == Parse32(max, v) && (p.Malformed? || p == Character(1, v))
  {
    var surrogate := LooksSurrogate(v);
    p := if surrogate || v > max then Malformed else Character(1, v);
  }

  method TurnFromUcs4(frm: array<bv32>, i: nat, max: bv32, room: nat) returns (step: Step<bv8>)
    requires i < frm.Length
    ensures step == OneStep(Ucs4ToUtf8(max), frm[..][i..], room)
    ensures if step.Stop? then step.verdict != Ok else step.used == 1 && |step.units| <= room
  {
    From32Step(max, frm[..][i..], room);
    var p := ReadUcs4(frm[i], max);
    if p.Malformed? {
      step := Stop(Error);
    } else {
      step := Write8(frm[i], room);
    }
  }

  function Header(): seq<bv8> { [0xEF, 0xBB, 0xBF] }

  /** Without a header wanted nothing is written; with one, the loop begins after it. */
  method WriteHeader(to: array<bv8>, generate: bool) returns (ok: bool, tn: nat)
    modifies to
    ensures ok == (!generate || to.Length >= 3) && tn == (if generate && ok then 3 else 0) <= to.Length
    ensures to[..tn] == (if generate && ok then Header() else []) && forall j :: tn <= j < to.Length ==> to[j] == old(to[j])
  {
    ok, tn := true, 0;
    if generate {
      if to.Length < 3 {
        ok := false;
      } else {
        Store(to, 0, [0xEF, 0xBB, 0xBF]);
        tn := 3;
      }
    }
  }

  method Ucs4ToUtf8From(frm: array<bv32>, to: array<bv8>, max: bv32, b: nat) returns (r: Verdict, fn: nat, tn: nat)
    requires b <= to.Length
    modifies to
    ensures frm[..] == old(frm[..]) && b <= tn <= to.Length
    ensures forall j :: 0 <= j < b || tn <= j < to.Length ==> to[j] == old(to[j])
    ensures Stopped(Ucs4ToUtf8(max), frm, 0, fn, to, b, tn, r)
  {
    fn, tn := 0, b;
    Start(Ucs4ToUtf8(max), frm, 0, to, b);
    while fn < frm.Length
      invariant Reached(Ucs4ToUtf8(max), frm, 0, fn, to, b, tn)
      invariant frm[..] == old(frm[..])
      invariant forall j :: 0 <= j < b || tn <= j < to.Length ==> to[j] == old(to[j])
      decreases frm.Length - fn
    {
      var step := TurnFromUcs4(frm, fn, max, to.Length - tn);
      r, fn, tn := Apply(Ucs4ToUtf8(max), frm, 0, fn, to, b, tn, step);
      if r != Ok {
        return;
      }
    }
    Finish(Ucs4ToUtf8(max), frm, 0, fn, to, b, tn);
    r := Ok;
  }

  method Ucs4ToUtf8InPlace(frm: array<bv32>, to: array<bv8>, max: bv32, generate: bool) returns (r: Verdict, fn: nat, tn: nat)
    modifies to
    ensures frm[..] == old(frm[..]) && tn <= to.Length && forall j :: tn <= j < to.Length ==> to[j] == old(to[j])
    ensures generate && to.Length < 3 ==> r == Partial && fn == 0 && tn == 0
    ensures generate && to.Length >= 3 ==> tn >= 3 && to[..3] == Header() && Stopped(Ucs4ToUtf8(max), frm, 0, fn, to, 3, tn, r)
    ensures !generate ==> Stopped(Ucs4ToUtf8(max), frm, 0, fn, to, 0, tn, r)
  {
    fn := 0;
    var ok;
    ok, tn := WriteHeader(to, generate);
    if ok {
      r, fn, tn := Ucs4ToUtf8From(frm, to, max, tn);
    } else {
      r := Partial;
    }
  }

  // ----- utf16_to_utf8 -----

  lemma From16Step(max: bv32, t: seq<bv16>, room: nat)
    requires t != []
    ensures OneStep(Utf16ToUtf8(max), t, room) ==
            StepTo8(Units8, Cap16(Exceeds16(t[0], max), Over(max, Parse16(t)), Parse16(t)), room)
  {
  }

  method LooksLow(w: bv16) returns (b: bool)
    ensures b <==> IsLow(w)
  {
    LowMask(w);
    b := (w & 0xFC00) == 0xDC00;
  }

  method PairNumber(w1: bv16, w2: bv16) returns (v: bv32)
    requires IsHigh(w1)
    ensures v == PairValue(w1, w2)
  {
    v := ((((w1 & 0x03C0) as bv32 >> 6) + 1) << 16) + ((w1 & 0x003F) as bv32 << 10) + (w2 & 0x03FF) as bv32;
  }

  method FourFromPair(w1: bv16, w2: bv16) returns (units: seq<bv8>)
    requires IsHigh(w1) && IsLow(w2)
    ensures units == Units8(PairValue(w1, w2)) && |units| == 4
  {
    BytesFromPair(w1, w2);
    PairBack(w1, w2);
    var z := ((w1 & 0x03C0) >> 6) + 1;
    units := [(0xF0 | (z >> 2)) as bv8,
              (0x80 | ((z & 0x03) << 4) | ((w1 & 0x003C) >> 2)) as bv8,
              (0x80 | ((w1 & 0x0003) << 4) | ((w2 & 0x03C0) >> 6)) as bv8,
              (0x80 | (w2 & 0x003F)) as bv8];
  }

  lemma Word16(t: seq<bv16>)
    requires t != [] && (t[0] < 0xD800 || t[0] >= 0xE000)
    ensures Parse16(t) == Character(1, t[0] as bv32)
  {
  }

  lemma LoneLow(t: seq<bv16>)
    requires t != [] && 0xDC00 <= t[0] < 0xE000
    ensures Parse16(t) == Malformed
  {
  }

  lemma Pair16(t: seq<bv16>)
    requires t != [] && 0xD800 <= t[0] < 0xDC00
    ensures IsHigh(t[0])
    ensures Parse16(t) == if |t| < 2 then Short else if IsLow(t[1]) then Character(2, PairValue(t[0], t[1])) else Malformed
  {
  }

  lemma PairParsed(t: seq<bv16>)
    requires Parse16(t).Character? && Parse16(t).used != 1
    ensures |t| >= 2 && IsHigh(t[0]) && IsLow(t[1]) && Parse16(t) == Character(2, PairValue(t[0], t[1]))
  {
  }

  lemma WordParsed(t: seq<bv16>)
    requires Parse16(t).Character? && Parse16(t).used == 1
    ensures t != [] && Parse16(t) == Character(1, t[0] as bv32)
  {
  }

  /** What begins at position i, a pair or a single word. */
  method ReadUtf16(frm: array<bv16>, i: nat) returns (p: Parse)
    requires i < frm.Length
    ensures p == Parse16(frm[..][i..])
  {
    if frm[i] < 0xD800 {
      p := ReadWord(frm, i);
    } else if frm[i] < 0xDC00 {
      p := ReadPair(frm, i);
    } else if frm[i] < 0xE000 {
      LoneLow(frm[..][i..]);
      p := Malformed;
    } else {
      p := ReadWord(frm, i);
    }
  }

  method ReadWord(frm: array<bv16>, i: nat) returns (p: Parse)
    requires i < frm.Length && (frm[i] < 0xD800 || frm[i] >= 0xE000)
    ensures p == Parse16(frm[..][i..])
  {
    Word16(frm[..][i..]);
    p := Character(1, frm[i] as bv32);
  }

  method ReadPair(frm: array<bv16>, i: nat) returns (p: Parse)
    requires i < frm.Length && 0xD800 <= frm[i] < 0xDC00
    ensures p == Parse16(frm[..][i..])
  {
    Pair16(frm[..][i..]);
    if frm.Length - i < 2 {
      return Short;
    }
    var low := LooksLow(frm[i + 1]);
    if low {
      var v := PairNumber(frm[i], frm[i + 1]);
      p := Character(2, v);
    } else {
      p := Malformed;
    }
  }

  /** For a pair: room for four bytes first, and then the limit. */
  method DecidePair(p: Parse, over: bool, units: seq<bv8>, room: nat, ghost emit: bv32 -> seq<bv8>) returns (step: Step<bv8>)
    requires p.Character? && units == emit(p.value) && |units| == 4
    ensures step == StepTo8(emit, Cap16(false, over, p), room)
    ensures if step.Stop? then step.verdict != Ok else step.used == p.used && |step.units| <= room
  {
    if room < 4 {
      step := Stop(Partial);
    } else if over {
      step := Stop(Error);
    } else {
      step := Advance(p.used, units);
    }
  }

  lemma SingleStep(emit: bv32 -> seq<bv8>, p: Parse, over: bool, room: nat, step: Step<bv8>)
    requires !over && p.Character? && step == if |emit(p.value)| > room then Stop(Partial) else Advance(p.used, emit(p.value))
    ensures step == StepTo8(emit, Cap16(false, over, p), room)
  {
  }

  lemma WordWithin(max: bv32, t: seq<bv16>)
    requires t != [] && !Exceeds16(t[0], max) && Parse16(t).Character? && Parse16(t).used == 1
    ensures !Over(max, Parse16(t))
  {
    WordParsed(t);
    WordFits(max, t[0], Parse16(t));
  }

  lemma WordFits(max: bv32, w: bv16, p: Parse)
    requires !Exceeds16(w, max) && p == Character(1, w as bv32)
    ensures !Over(max, p)
  {
  }

  method TurnFromUtf16(frm: array<bv16>, i: nat, max: bv32, room: nat) returns (step: Step<bv8>)
    requires i < frm.Length
    ensures step == OneStep(Utf16ToUtf8(max), frm[..][i..], room)
    ensures if step.Stop? then step.verdict != Ok else 0 < step.used <= frm.Length - i && |step.units| <= room
  {
    From16Step(max, frm[..][i..], room);
    if Exceeds16(frm[i], max) {
      step := Stop(Error);
    } else {
      step := WithinUtf16(frm, i, max, room);
    }
  }

  method WithinUtf16(frm: array<bv16>, i: nat, max: bv32, room: nat) returns (step: Step<bv8>)
    requires i < frm.Length && !Exceeds16(frm[i], max)
    ensures var p := Parse16(frm[..][i..]); step == StepTo8(Units8, Cap16(false, Over(max, p), p), room)
    ensures if step.Stop? then step.verdict != Ok else 0 < step.used <= frm.Length - i && |step.units| <= room
  {
    var p := ReadUtf16(frm, i);
    if !p.Character? {
      step := Stop(if p.Short? then Partial else Error);
      Stopping(p, Over(max, p), room, step);
    } else if p.used == 1 {
      step := WithinWord(frm, i, max, p, room);
    } else {
      step := WithinPair(frm, i, max, p, room);
    }
  }

  lemma Stopping(p: Parse, over: bool, room: nat, step: Step<bv8>)
    requires step == Stop(if p.Short? then Partial else Error) && (p.Short? || p.Malformed?)
    ensures step == StepTo8(Units8, Cap16(false, over, p), room)
  {
  }

  method WithinWord(frm: array<bv16>, i: nat, max: bv32, p: Parse, room: nat) returns (step: Step<bv8>)
    requires i < frm.Length && !Exceeds16(frm[i], max) && p == Parse16(frm[..][i..]) && p.Character? && p.used == 1
    ensures step == StepTo8(Units8, Cap16(false, Over(max, p), p), room)
    ensures if step.Stop? then step.verdict != Ok else step.used == 1 && |step.units| <= room
  {
    WordWithin(max, frm[..][i..]);
    step := Write8(p.value, room);
    SingleStep(Units8, p, Over(max, p), room, step);
  }

  method WithinPair(frm: array<bv16>, i: nat, max: bv32, p: Parse, room: nat) returns (step: Step<bv8>)
    requires i < frm.Length && p == Parse16(frm[..][i..]) && p.Character? && p.used != 1
    ensures step == StepTo8(Units8, Cap16(false, Over(max, p), p), room)
    ensures if step.Stop? then step.verdict != Ok else step.used == 2 <= frm.Length - i && |step.units| <= room
  {
    PairParsed(frm[..][i..]);
    var units := FourFromPair(frm[i], frm[i + 1]);
    step := DecidePair(p, Over(max, p), units, room, Units8);
  }

  method Utf16ToUtf8From(frm: array<bv16>, to: array<bv8>, max: bv32, b: nat) returns (r: Verdict, fn: nat, tn: nat)
    requires b <= to.Length
    modifies to
    ensures frm[..] == old(frm[..]) && b <= tn <= to.Length
    ensures forall j :: 0 <= j < b || tn <= j < to.Length ==> to[j] == old(to[j])
    ensures Stopped(Utf16ToUtf8(max), frm, 0, fn, to, b, tn, r)
  {
    fn, tn := 0, b;
    Start(Utf16ToUtf8(max), frm, 0, to, b);
    while fn < frm.Length
      invariant Reached(Utf16ToUtf8(max), frm, 0, fn, to, b, tn)
      invariant frm[..] == old(frm[..])
      invariant forall j :: 0 <= j < b || tn <= j < to.Length ==> to[j] == old(to[j])
      decreases frm.Length - fn
    {
      var step := TurnFromUtf16(frm, fn, max, to.Length - tn);
      r, fn, tn := Apply(Utf16ToUtf8(max), frm, 0, fn, to, b, tn, step);
      if r != Ok {
        return;
      }
    }
    Finish(Utf16ToUtf8(max), frm, 0, fn, to, b, tn);
    r := Ok;
  }

  method Utf16ToUtf8InPlace(frm: array<bv16>, to: array<bv8>, max: bv32, generate: bool) returns (r: Verdict, fn: nat, tn: nat)
    modifies to
    ensures frm[..] == old(frm[..]) && tn <= to.Length && forall j :: tn <= j < to.Length ==> to[j] == old(to[j])
    ensures generate && to.Length < 3 ==> r == Partial && fn == 0 && tn == 0
    ensures generate && to.Length >= 3 ==> tn >= 3 && to[..3] == Header() && Stopped(Utf16ToUtf8(max), frm, 0, fn, to, 3, tn, r)
    ensures !generate ==> Stopped(Utf16ToUtf8(max), frm, 0, fn, to, 0, tn, r)
  {
    fn := 0;
    var ok;
    ok, tn := WriteHeader(to, generate);
    if ok {
      r, fn, tn := Utf16ToUtf8From(frm, to, max, tn);
    } else {
      r := Partial;
    }
  }
}
