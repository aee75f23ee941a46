/** Character conversion with a bounded output: read one character, write its units, and stop at
    the end of the input, at a character that is cut short or malformed, or when room runs out. */
module Transcoding {

  datatype Verdict = Ok | Partial | Error

  /** What the front of a nonempty input is: a character and how many units it takes, the beginning
      of one, a character beyond the limit, or nothing. */
  datatype Parse = Character(used: nat, value: bv32) | Short | Beyond(value: bv32) | Malformed

  /** The loops that produce UTF-16 or UCS-4 look at the input only while there is room. */
  datatype Codec<!I, O> = Codec(parse: seq<I> -> Parse, emit: bv32 -> seq<O>, looksOnlyWithRoom: bool)

  datatype Outcome<O> = Outcome(verdict: Verdict, consumed: nat, output: seq<O>)

  datatype Step<O> = Advance(used: nat, units: seq<O>) | Stop(verdict: Verdict)

  function OneStep<I, O>(c: Codec<I, O>, s: seq<I>, room: nat): Step<O>
  {
    if c.looksOnlyWithRoom && room == 0 then Stop(Partial)
    else match c.parse(s)
      case Malformed => Stop(Error)
      case Short => Stop(Partial)
      case Beyond(v) => if |c.emit(v)| > room then Stop(Partial) else Stop(Error)
      case Character(n, v) => if |c.emit(v)| > room then Stop(Partial) else Advance(n, c.emit(v))
  }

  function Prepend<O>(consumed: nat, output: seq<O>, rest: Outcome<O>): Outcome<O>
  {
    Outcome(rest.verdict, consumed + rest.consumed, output + rest.output)
  }

  /** The conversion of s into at most `room` units. (A parse that takes nothing, or more than there
      is, would end it.) */
  function Run<I, O>(c: Codec<I, O>, s: seq<I>, room: nat): Outcome<O>
  {
    if s == [] then Outcome(Ok, 0, [])
    else match OneStep(c, s, room)
      case Stop(v) => Outcome(v, 0, [])
      case Advance(n, units) =>
        if 0 < n <= |s| then Prepend(n, units, Run(c, s[n..], room - |units|)) else Outcome(Error, 0, [])
  }

  // ----- Resumption -----

  /** More input changes nothing about a character, or a fault, that is already there. */
  ghost predicate StableAt<I>(parse: seq<I> -> Parse, s: seq<I>, m: nat)
    requires 0 < m <= |s|
  {
    && (parse(s).Character? ==> 0 < parse(s).used <= |s|)
    && (!parse(s[..m]).Short? ==> parse(s) == parse(s[..m]))
  }

  ghost predicate PrefixStable<I(!new)>(parse: seq<I> -> Parse)
  {
    forall s, m :: 0 < m <= |s| ==> StableAt(parse, s, m)
  }

  ghost predicate Emits<O>(emit: bv32 -> seq<O>) { forall v :: |emit(v)| > 0 }

  ghost predicate Sound<I(!new), O>(c: Codec<I, O>) { PrefixStable(c.parse) && Emits(c.emit) }

  lemma StepBounds<I(!new), O>(c: Codec<I, O>, s: seq<I>, room: nat)
    requires Sound(c) && s != []
    ensures var step := OneStep(c, s, room);
            step.Advance? ==> 0 < step.used <= |s| && 0 < |step.units| <= room
  {
    assert StableAt(c.parse, s, |s|);
  }

  /** A step taken, or refused for a fault, with less input and less room is the same with more. */
  lemma StepStable<I(!new), O>(c: Codec<I, O>, s: seq<I>, room: nat, cut: nat, limit: nat)
    requires Sound(c) && 0 < cut <= |s| && limit <= room
    ensures var step := OneStep(c, s[..cut], limit);
            step == Stop(Partial) || step == OneStep(c, s, room)
  {
    assert StableAt(c.parse, s, cut);
  }

  /** A run stays inside its input and its output, and ends ok only with the whole input. */
  lemma {:induction false} RunBounds<I(!new), O>(c: Codec<I, O>, s: seq<I>, room: nat)
    requires Sound(c)
    ensures Run(c, s, room).consumed <= |s| && |Run(c, s, room).output| <= room
    ensures Run(c, s, room).verdict == Ok ==> Run(c, s, room).consumed == |s|
    decreases |s|
  {
    if s != [] {
      StepBounds(c, s, room);
      var step := OneStep(c, s, room);
      if step.Advance? {
        RunBounds(c, s[step.used..], room - |step.units|);
      }
    }
  }

  ghost predicate Resumes<I(!new), O>(c: Codec<I, O>, s: seq<I>, room: nat, cut: nat, limit: nat)
    requires cut <= |s| && limit <= room
  {
    var first := Run(c, s[..cut], limit);
    && first.consumed <= cut && |first.output| <= limit
    && Run(c, s, room) == if first.verdict == Error then first else Continued(c, s, room, first)
  }

  /** Stopping at any cut of the input and any limit on the output, then going on from the returned
      positions, gives the outcome of one run; and an error found early is the error of one run. */
  lemma {:induction false} Resume<I(!new), O>(c: Codec<I, O>, s: seq<I>, room: nat, cut: nat, limit: nat)
    requires Sound(c) && cut <= |s| && limit <= room
    ensures Resumes(c, s, room, cut, limit)
    decreases |s|
  {
    var step := OneStep(c, s[..cut], limit);
    if cut == 0 || step == Stop(Partial) {
      ResumeAtOnce(c, s, room, cut, limit);
    } else {
      StepStable(c, s, room, cut, limit);
      StepBounds(c, s[..cut], limit);
      NeverStopsOk(c, s, room);
      if step == Stop(Error) {
        ResumeAtError(c, s, room, cut, limit);
      } else {
        Resume(c, s[step.used..], room - |step.units|, cut - step.used, limit - |step.units|);
        ResumeAfterStep(c, s, room, cut, limit, step);
      }
    }
  }

  lemma ResumeAtError<I(!new), O>(c: Codec<I, O>, s: seq<I>, room: nat, cut: nat, limit: nat)
    requires 0 < cut <= |s| && limit <= room
    requires OneStep(c, s[..cut], limit) == OneStep(c, s, room) == Stop(Error)
    ensures Resumes(c, s, room, cut, limit)
  {
    assert Run(c, s[..cut], limit) == Outcome(Error, 0, []) == Run(c, s, room);
  }

  lemma NeverStopsOk<I, O>(c: Codec<I, O>, s: seq<I>, room: nat)
    ensures OneStep(c, s, room) != Stop(Ok)
  {
  }

  lemma ResumeAtOnce<I(!new), O>(c: Codec<I, O>, s: seq<I>, room: nat, cut: nat, limit: nat)
    requires cut <= |s| && limit <= room
    requires cut == 0 || OneStep(c, s[..cut], limit) == Stop(Partial)
    ensures Resumes(c, s, room, cut, limit)
  {
    var first := Run(c, s[..cut], limit);
    assert first.verdict != Error && first.consumed == 0 && first.output == [];
    assert s[0..] == s;
    PrependNothing(Run(c, s, room));
  }

  lemma RunStep<I, O>(c: Codec<I, O>, s: seq<I>, room: nat, step: Step<O>)
    requires s != [] && OneStep(c, s, room) == step && step.Advance? && 0 < step.used <= |s| && |step.units| <= room
    ensures Run(c, s, room) == Prepend(step.used, step.units, Run(c, s[step.used..], room - |step.units|))
  {
  }

  lemma ResumeAfterStep<I(!new), O>(c: Codec<I, O>, s: seq<I>, room: nat, cut: nat, limit: nat, step: Step<O>)
    requires 0 < cut <= |s| && limit <= room
    requires step.Advance? && 0 < step.used <= cut && |step.units| <= limit
    requires OneStep(c, s[..cut], limit) == step == OneStep(c, s, room)
    requires Resumes(c, s[step.used..], room - |step.units|, cut - step.used, limit - |step.units|)
    ensures Resumes(c, s, room, cut, limit)
  {
    var head, n := s[..cut], step.used;
    assert head[n..] == s[n..][..cut - n];
    RunStep(c, head, limit, step);
    RunStep(c, s, room, step);
    var rest := Run(c, head[n..], limit - |step.units|);
    if rest.verdict != Error {
      ResumeLater(c, s, room, step, rest);
    }
  }

  function Continued<I, O>(c: Codec<I, O>, s: seq<I>, room: nat, first: Outcome<O>): Outcome<O>
    requires first.consumed <= |s| && |first.output| <= room
  {
    Prepend(first.consumed, first.output, Run(c, s[first.consumed..], room - |first.output|))
  }

  lemma ResumeLater<I(!new), O>(c: Codec<I, O>, s: seq<I>, room: nat, step: Step<O>, rest: Outcome<O>)
    requires step.Advance? && step.used + rest.consumed <= |s| && |step.units| + |rest.output| <= room
    ensures Prepend(step.used, step.units, Continued(c, s[step.used..], room - |step.units|, rest)) ==
            Continued(c, s, room, Prepend(step.used, step.units, rest))
  {
    assert s[step.used..][rest.consumed..] == s[step.used + rest.consumed..];
    PrependTwice(step.used, step.units, rest.consumed, rest.output,
                 Run(c, s[step.used + rest.consumed..], room - |step.units| - |rest.output|));
  }

  lemma PrependNothing<O>(r: Outcome<O>)
    ensures Prepend(0, [], r) == r
  {
  }

  lemma PrependTwice<O>(m: nat, a: seq<O>, n: nat, b: seq<O>, r: Outcome<O>)
    ensures Prepend(m, a, Prepend(n, b, r)) == Prepend(m + n, a + b, r)
  {
    assert a + (b + r.output) == (a + b) + r.output;
  }

  // ----- Conversion without limits: read all the characters, then write them -----

  datatype Reading = Reading(verdict: Verdict, consumed: nat, values: seq<bv32>)

  function Read<I>(parse: seq<I> -> Parse, s: seq<I>): Reading
  {
    if s == [] then Reading(Ok, 0, [])
    else match parse(s)
      case Short => Reading(Partial, 0, [])
      case Character(n, v) =>
        if 0 < n <= |s| then
          var rest := Read(parse, s[n..]);
          Reading(rest.verdict, n + rest.consumed, [v] + rest.values)
        else Reading(Error, 0, [])
      case _ => Reading(Error, 0, [])
  }

  lemma {:induction false} ReadSame<I(!new)>(p: seq<I> -> Parse, q: seq<I> -> Parse, s: seq<I>)
    requires forall t :: t != [] ==> p(t) == q(t)
    ensures Read(p, s) == Read(q, s)
    decreases |s|
  {
    if s != [] {
      match p(s)
      case Character(n, v) =>
        if 0 < n <= |s| {
          ReadSame(p, q, s[n..]);
        }
      case _ =>
    }
  }

  /** For reading, a character beyond the limit is as good as none. */
  predicate Alike(p: Parse, q: Parse)
  {
    p == q || (!p.Character? && !p.Short? && !q.Character? && !q.Short?)
  }

  lemma {:induction false} ReadAlike<I(!new)>(p: seq<I> -> Parse, q: seq<I> -> Parse, s: seq<I>)
    requires forall t :: t != [] ==> Alike(p(t), q(t))
    ensures Read(p, s) == Read(q, s)
    decreases |s|
  {
    if s != [] {
      match p(s)
      case Character(n, v) =>
        if 0 < n <= |s| {
          ReadAlike(p, q, s[n..]);
        }
      case _ =>
    }
  }

  function EmitAll<O>(emit: bv32 -> seq<O>, values: seq<bv32>): seq<O>
  {
    if values == [] then [] else emit(values[0]) + EmitAll(emit, values[1..])
  }

  /** A character of n input units needs at most k * n output units. */
  ghost predicate FitsIn<I(!new), O>(c: Codec<I, O>, k: nat)
  {
    forall s :: s != [] ==> StepFitsIn(c, s, k)
  }

  ghost predicate StepFitsIn<I, O>(c: Codec<I, O>, s: seq<I>, k: nat)
  {
    match c.parse(s)
    case Character(n, v) => 0 < n <= |s| && |c.emit(v)| <= k * n
    case Beyond(v) => |c.emit(v)| <= k * |s|
    case _ => true
  }

  ghost predicate RunIsRead<I, O>(c: Codec<I, O>, s: seq<I>, room: nat)
  {
    var r := Read(c.parse, s);
    Run(c, s, room) == Outcome(r.verdict, r.consumed, EmitAll(c.emit, r.values))
  }

  /** With room enough the limits play no part. */
  lemma {:induction false} RunReads<I(!new), O>(c: Codec<I, O>, s: seq<I>, room: nat, k: nat)
    requires FitsIn(c, k) && k > 0 && room >= k * |s|
    ensures RunIsRead(c, s, room)
    decreases |s|
  {
    if s != [] {
      assert StepFitsIn(c, s, k);
      RoomLeft(k, |s|, room);
      var p := c.parse(s);
      if p.Character? {
        Distribute(k, p.used, |s| - p.used);
        RunReads(c, s[p.used..], room - |c.emit(p.value)|, k);
        RunReadsStep(c, s, room, p.used, p.value);
      }
    }
  }

  lemma RunReadsStep<I, O>(c: Codec<I, O>, s: seq<I>, room: nat, n: nat, v: bv32)
    requires 0 < n <= |s| && c.parse(s) == Character(n, v) && room > 0 && |c.emit(v)| <= room
    requires RunIsRead(c, s[n..], room - |c.emit(v)|)
    ensures RunIsRead(c, s, room)
  {
    var rest := Read(c.parse, s[n..]);
    assert ([v] + rest.values)[1..] == rest.values;
  }

  lemma RoomLeft(k: nat, n: nat, room: nat)
    requires k > 0 && n > 0 && room >= k * n
    ensures room > 0
  {
  }

  lemma Distribute(k: nat, m: nat, n: nat)
    ensures k * (m + n) == k * m + k * n
  {
  }

  /** Reading undoes writing, character by character. */
  ghost predicate ParseAfterEmit<I(!new)>(parse: seq<I> -> Parse, emit: bv32 -> seq<I>, valid: bv32 -> bool)
  {
    forall v, rest :: valid(v) ==> ReadsBack(parse, emit, v, rest)
  }

  ghost predicate ReadsBack<I>(parse: seq<I> -> Parse, emit: bv32 -> seq<I>, v: bv32, rest: seq<I>)
  {
    |emit(v)| > 0 && parse(emit(v) + rest) == Character(|emit(v)|, v)
  }

  /** Writing undoes reading. */
  ghost predicate EmitAfterParse<I(!new)>(parse: seq<I> -> Parse, emit: bv32 -> seq<I>, valid: bv32 -> bool)
  {
    forall s :: s != [] ==> WritesBack(parse, emit, valid, s)
  }

  ghost predicate WritesBack<I>(parse: seq<I> -> Parse, emit: bv32 -> seq<I>, valid: bv32 -> bool, s: seq<I>)
  {
    var p := parse(s);
    p.Character? ==> p.used <= |s| && valid(p.value) && emit(p.value) == s[..p.used]
  }

  ghost predicate AllValid(valid: bv32 -> bool, values: seq<bv32>)
  {
    forall v :: v in values ==> valid(v)
  }

  lemma {:induction false} ReadBack<I(!new)>(parse: seq<I> -> Parse, emit: bv32 -> seq<I>, valid: bv32 -> bool, values: seq<bv32>)
    requires ParseAfterEmit(parse, emit, valid) && AllValid(valid, values)
    ensures Read(parse, EmitAll(emit, values)) == Reading(Ok, |EmitAll(emit, values)|, values)
    decreases |values|
  {
    if values != [] {
      var v, rest := values[0], EmitAll(emit, values[1..]);
      var s := emit(v) + rest;
      assert ReadsBack(parse, emit, v, rest);
      assert s[|emit(v)|..] == rest;
      ReadBack(parse, emit, valid, values[1..]);
      assert [v] + values[1..] == values;
    }
  }

  lemma {:induction false} WriteBack<I(!new)>(parse: seq<I> -> Parse, emit: bv32 -> seq<I>, valid: bv32 -> bool, s: seq<I>)
    requires EmitAfterParse(parse, emit, valid)
    ensures var r := Read(parse, s);
            AllValid(valid, r.values) && r.consumed <= |s| && EmitAll(emit, r.values) == s[..r.consumed]
    ensures Read(parse, s).verdict == Ok ==> Read(parse, s).consumed == |s|
    decreases |s|
  {
    if s != [] {
      assert WritesBack(parse, emit, valid, s);
      match parse(s)
      case Character(n, v) =>
        if 0 < n {
          WriteBack(parse, emit, valid, s[n..]);
          var rest := Read(parse, s[n..]);
          assert ([v] + rest.values)[1..] == rest.values;
          assert s[..n] + s[n..][..rest.consumed] == s[..n + rest.consumed];
        }
      case _ =>
    }
  }
}
