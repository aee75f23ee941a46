/** The counters of locale.cpp: how many bytes a conversion into so many units consumes. */
module Lengths {
  import opened Transcoding
  import opened Unicode
  import opened UtfCodecs
  import opened Converters

  /** The counters tell a whole character from everything else, and nothing more. */
  ghost predicate Scanned(p: Parse, q: Parse)
  {
    if p.Character? then q == p else q == Malformed
  }

  method ScanTwo(frm: array<bv8>, i: nat) returns (q: Parse)
    requires i < frm.Length && 0xC2 <= frm[i] < 0xE0
    ensures Scanned(Parse8(frm[..][i..]), q)
  {
    Front8(frm[..], i);
    Parse8By2(frm[..][i..]);
    q := Malformed;
    if frm.Length - i < 2 {
      return;
    }
    var ok := IsContinuation(frm[i + 1]);
    if ok {
      q := Character(2, Value2(frm[i], frm[i + 1]));
    }
  }

  method ScanThree(frm: array<bv8>, i: nat) returns (q: Parse)
    requires i < frm.Length && 0xE0 <= frm[i] < 0xF0
    ensures Scanned(Parse8(frm[..][i..]), q)
  {
    Front8(frm[..], i);
    Parse8By3(frm[..][i..]);
    q := Malformed;
    if frm.Length - i < 3 {
      return;
    }
    var ok := AcceptsSecond3(frm[i], frm[i + 1]);
    if !ok {
      return;
    }
    ok := IsContinuation(frm[i + 2]);
    if ok {
      q := Character(3, Value3(frm[i], frm[i + 1], frm[i + 2]));
    }
  }

  method ScanFour(frm: array<bv8>, i: nat) returns (q: Parse)
    requires i < frm.Length && 0xF0 <= frm[i] < 0xF5
    ensures Scanned(Parse8(frm[..][i..]), q)
  {
    Front8(frm[..], i);
    Parse8By4(frm[..][i..]);
    q := Malformed;
    if frm.Length - i < 4 {
      return;
    }
    var ok := AcceptsSecond4(frm[i], frm[i + 1]);
    if !ok {
      return;
    }
    ok := IsContinuation(frm[i + 2]);
    if !ok {
      return;
    }
    ok := IsContinuation(frm[i + 3]);
    if ok {
      q := Character(4, Value4(frm[i], frm[i + 1], frm[i + 2], frm[i + 3]));
    }
  }

  method ScanOne(frm: array<bv8>, i: nat) returns (q: Parse)
    requires i < frm.Length && (frm[i] < 0xC2 || frm[i] >= 0xF5)
    ensures Scanned(Parse8(frm[..][i..]), q)
  {
    Front8(frm[..], i);
    if frm[i] < 0x80 {
      q := Character(1, frm[i] as bv32);
    } else {
      q := Malformed;
    }
  }

  method Scan(frm: array<bv8>, i: nat) returns (q: Parse)
    requires i < frm.Length
    ensures Scanned(Parse8(frm[..][i..]), q)
  {
    var c1 := frm[i];
    if c1 < 0xC2 {
      q := ScanOne(frm, i);
    } else if c1 < 0xE0 {
      q := ScanTwo(frm, i);
    } else if c1 < 0xF0 {
      q := ScanThree(frm, i);
    } else if c1 < 0xF5 {
      q := ScanFour(frm, i);
    } else {
      q := ScanOne(frm, i);
    }
  }

  // ----- utf8_to_ucs4_length -----

  /** A turn that the counter ends on, or counts. */
  ghost predicate Counted<O>(step: Step<O>, used: nat, slots: nat)
  {
    if used == 0 then step.Stop? else step.Advance? && step.used == used && |step.units| == slots
  }

  method CountTo32(frm: array<bv8>, i: nat, max: bv32, ghost room: nat) returns (used: nat)
    requires i < frm.Length && room > 0
    ensures Counted(OneStep(Utf8ToUcs4(max), frm[..][i..], room), used, 1) && used <= frm.Length - i
  {
    ghost var t := frm[..][i..];
    CappedStep(Parse8, max, t, room);
    TakesSome(t);
    var q := Scan(frm, i);
    used := LimitTo32(q, max);
    if !Parse8(t).Character? {
      NoStepTo32(Over(max, Parse8(t)), Parse8(t));
    }
  }

  lemma NoStepTo32(over: bool, p: Parse)
    requires !p.Character?
    ensures StepTo32(over, p).Stop?
  {
  }

  method LimitTo32(q: Parse, max: bv32) returns (used: nat)
    requires q.Character? ==> q.used > 0
    ensures Counted(StepTo32(Over(max, q), q), used, 1) && (used > 0 ==> q.Character? && used == q.used)
  {
    used := if !q.Character? || q.value > max then 0 else q.used;
  }

  // ----- The loops -----

  ghost predicate Counting<I, O>(c: Codec<I, O>, frm: array<I>, k: nat, n: nat, mx: nat, out: seq<O>)
    reads frm
  {
    k <= n <= frm.Length && |out| <= mx && SoFar(c, frm[k..], mx, n - k, out)
  }

  /** A conversion of frm[k..] into at most mx units ends at position n. */
  ghost predicate Consumes<I, O>(c: Codec<I, O>, frm: array<I>, k: nat, n: nat, mx: nat)
    reads frm
  {
    k <= n <= frm.Length && Run(c, frm[k..], mx).consumed == n - k
  }

  lemma CountHalt<I(!new), O>(c: Codec<I, O>, frm: array<I>, k: nat, n: nat, mx: nat, out: seq<O>)
    requires Counting(c, frm, k, n, mx, out) && n < frm.Length && OneStep(c, frm[..][n..], mx - |out|).Stop?
    ensures Consumes(c, frm, k, n, mx)
  {
    assert frm[k..][n - k..] == frm[..][n..];
    Halt(c, frm[k..], mx, n - k, out, OneStep(c, frm[..][n..], mx - |out|));
  }

  lemma CountTurn<I(!new), O>(c: Codec<I, O>, frm: array<I>, k: nat, n: nat, mx: nat, out: seq<O>, n': nat, slots: nat)
    returns (out': seq<O>)
    requires Counting(c, frm, k, n, mx, out) && n < n' <= frm.Length && |out| + slots <= mx
    requires Counted(OneStep(c, frm[..][n..], mx - |out|), n' - n, slots)
    ensures Counting(c, frm, k, n', mx, out') && |out'| == |out| + slots
  {
    var step := OneStep(c, frm[..][n..], mx - |out|);
    out' := out + step.units;
    assert frm[k..][n - k..] == frm[..][n..];
    Turn(c, frm[k..], mx, n - k, out, step, n' - k, out');
  }

  lemma CountEnd<I(!new), O>(c: Codec<I, O>, frm: array<I>, k: nat, n: nat, mx: nat, out: seq<O>)
    requires Counting(c, frm, k, n, mx, out) && c.looksOnlyWithRoom && (n == frm.Length || |out| == mx)
    ensures Consumes(c, frm, k, n, mx)
  {
    if n < frm.Length {
      CountHalt(c, frm, k, n, mx, out);
    } else {
      Done(c, frm[k..], mx, out);
    }
  }

  method Utf8ToUcs4Length(frm: array<bv8>, mx: nat, max: bv32, consume: bool) returns (n: nat)
    ensures Consumes(Utf8ToUcs4(max), frm, HeaderLength(consume, frm[..]), n, mx)
  {
    n := SkipHeader(frm, consume);
    ghost var k := n;
    var count: nat := 0;
    ghost var out: seq<bv32> := [];
    Begin(Utf8ToUcs4(max), frm[k..], mx);
    while n < frm.Length && count < mx
      invariant Counting(Utf8ToUcs4(max), frm, k, n, mx, out) && |out| == count
      decreases frm.Length - n
    {
      var used := CountTo32(frm, n, max, mx - count);
      if used == 0 {
        CountHalt(Utf8ToUcs4(max), frm, k, n, mx, out);
        return;
      }
      var n' := n + used;
      out := CountTurn(Utf8ToUcs4(max), frm, k, n, mx, out, n', 1);
      n := n';
      count := count + 1;
    }
    CountEnd(Utf8ToUcs4(max), frm, k, n, mx, out);
  }

  // ----- utf8_to_utf16_length -----

  method CountTo16(frm: array<bv8>, i: nat, max: bv32, room: nat) returns (used: nat, slots: nat)
    requires i < frm.Length && room > 0
    ensures Counted(OneStep(Utf8ToUtf16(max), frm[..][i..], room), used, slots)
    ensures used <= frm.Length - i && slots <= room
  {
    ghost var t := frm[..][i..];
    To16Step(max, t, room);
    TakesSome(t);
    assert t[0] == frm[i];
    if frm[i] as bv32 > max {
      return 0, 0;
    }
    var q := Scan(frm, i);
    if q.Character? {
      PairsAreFour(t);
      used, slots := LimitTo16(q, max, room, Units16);
    } else {
      NoStepTo16(Units16, Over(max, Parse8(t)), Parse8(t), room);
      used, slots := 0, 0;
    }
  }

  lemma NoStepTo16(emit: bv32 -> seq<bv16>, over: bool, p: Parse, room: nat)
    requires !p.Character?
    ensures StepTo16(emit, false, over, p, room).Stop?
  {
  }

  lemma PairsAreFour(t: seq<bv8>)
    requires Parse8(t).Character?
    ensures |Units16(Parse8(t).value)| == (if Parse8(t).used == 4 then 2 else 1)
  {
    ShortUnits(t, Parse8(t).value, Parse8(t).used);
    if Parse8(t).used == 4 {
      FourParsed(t, Parse8(t).value);
      PairUnitsFrom(t[0], t[1], t[2], t[3]);
    }
  }

  method LimitTo16(q: Parse, max: bv32, room: nat, ghost emit: bv32 -> seq<bv16>) returns (used: nat, slots: nat)
    requires q.Character? && q.used > 0 && room > 0 && |emit(q.value)| == (if q.used == 4 then 2 else 1)
    ensures Counted(StepTo16(emit, false, Over(max, q), q, room), used, slots)
    ensures (used == 0 || used == q.used) && slots <= room
  {
    if q.used == 4 && room < 2 {
      used, slots := 0, 0;
    } else if Over(max, q) {
      used, slots := 0, 0;
    } else {
      used, slots := q.used, if q.used == 4 then 2 else 1;
    }
  }

  method Utf8ToUtf16Length(frm: array<bv8>, mx: nat, max: bv32, consume: bool) returns (n: nat)
    ensures Consumes(Utf8ToUtf16(max), frm, HeaderLength(consume, frm[..]), n, mx)
  {
    n := SkipHeader(frm, consume);
    ghost var k := n;
    var count: nat := 0;
    ghost var out: seq<bv16> := [];
    Begin(Utf8ToUtf16(max), frm[k..], mx);
    while n < frm.Length && count < mx
      invariant Counting(Utf8ToUtf16(max), frm, k, n, mx, out) && |out| == count
      decreases frm.Length - n
    {
      var used, slots := CountTo16(frm, n, max, mx - count);
      if used == 0 {
        CountHalt(Utf8ToUtf16(max), frm, k, n, mx, out);
        return;
      }
      var n' := n + used;
      out := CountTurn(Utf8ToUtf16(max), frm, k, n, mx, out, n', slots);
      n := n';
      count := count + slots;
    }
    CountEnd(Utf8ToUtf16(max), frm, k, n, mx, out);
  }
}
