/** The bit stream of the benchmark: a writer that packs fields into 32-bit words and a reader that
    takes them out again. Words are numbers, and the operators on their bits are written out. */
module Bitstream {
  import opened Arithmetic

  const WORD := 32
  const BASE: nat := 0x1_0000_0000       // one more than the largest word

  /** `static_cast<std::uint32_t>(cur)` and `cur >> 32` */
  function Low(cur: nat): (r: nat) ensures r < BASE { cur % BASE }
  function High(cur: nat): (q: nat) ensures cur == Low(cur) + BASE * q { cur / BASE }

  // ----- Fields and the pieces they are written in -----

  /** The low `width` bits of the stream at some point. */
  datatype Piece = Piece(value: nat, width: nat)
  {
    predicate Fits() { value < Pow2(width) }
  }

  datatype Field = Fixed(value: nat, width: nat) | Variable(value: nat, width: nat)
  {
    /** What the writer is called with. */
    predicate Valid()
    {
      value < BASE && width <= WORD && match this
      case Fixed(v, n) => n >= 1 && v < Pow2(n)
      case Variable(_, n) => n >= 2
    }
  }

  function Encode(ps: seq<Piece>): nat
  {
    if ps == [] then 0 else ps[0].value + Pow2(ps[0].width) * Encode(ps[1..])
  }

  function Bits(ps: seq<Piece>): nat
  {
    if ps == [] then 0 else ps[0].width + Bits(ps[1..])
  }

  /** `x << k` */
  function ShiftUp(x: nat, k: nat): nat { Pow2(k) * x }

  /** `x | y`, bit by bit. */
  function Or(x: nat, y: nat): nat
  {
    if x == 0 then y
    else if y == 0 then x
    else (if x % 2 == 1 || y % 2 == 1 then 1 else 0) + 2 * Or(x / 2, y / 2)
  }

  predicate Bit(x: nat, k: nat) { if k == 0 then x % 2 == 1 else Bit(x / 2, k - 1) }

  lemma {:induction false} OrBits(x: nat, y: nat, k: nat)
    ensures Bit(Or(x, y), k) <==> Bit(x, k) || Bit(y, k)
  {
    if x == 0 || y == 0 {
      BitsOfZero(k);
    } else if k > 0 {
      OrBits(x / 2, y / 2, k - 1);
    }
  }

  lemma {:induction false} BitsOfZero(k: nat)
    ensures !Bit(0, k)
  {
    if k > 0 {
      BitsOfZero(k - 1);
    }
  }

  /** With y shifted above all the bits of x nothing overlaps. */
  lemma {:induction false} OrOfShifted(x: nat, y: nat, k: nat)
    requires x < Pow2(k)
    ensures Or(x, ShiftUp(y, k)) == x + ShiftUp(y, k)
  {
    if x > 0 && ShiftUp(y, k) > 0 {
      assert ShiftUp(y, k) == 2 * ShiftUp(y, k - 1);
      OrOfShifted(x / 2, y, k - 1);
    }
  }

  /** `piece & (hi - 1)` and `!(piece & hi)` */
  function LowPart(piece: nat, n: nat): nat requires n >= 1 { piece % Pow2(n - 1) }
  predicate IsLast(piece: nat, n: nat) requires n >= 1 { Quotient(piece, Pow2(n - 1)) % 2 == 0 }

  /** `(v & (hi - 1)) | hi` and `v >> (n - 1)` for hi the top bit of a group of n. */
  function Marked(v: nat, n: nat): (m: nat)
    requires n >= 1
    ensures m == v % Pow2(n - 1) + Pow2(n - 1)
  {
    OrOfShifted(v % Pow2(n - 1), 1, n - 1);
    Or(v % Pow2(n - 1), Pow2(n - 1))
  }

  function Above(v: nat, n: nat): nat requires n >= 1 { Quotient(v, Pow2(n - 1)) }

  /** A number in groups of n - 1 bits, lowest first, all but the last marked by their top bit. */
  function VbrPieces(v: nat, n: nat): (ps: seq<Piece>)
    requires n >= 2
    ensures |ps| > 0
    decreases v
  {
    AboveIsSmaller(v, n);
    if v < Pow2(n - 1) then [Piece(v, n)] else [Piece(Marked(v, n), n)] + VbrPieces(Above(v, n), n)
  }

  /** n bits each, and the top bit set in all groups but the last. */
  ghost predicate WellMarked(ps: seq<Piece>, n: nat)
    requires n >= 1
  {
    && (forall k :: 0 <= k < |ps| ==> ps[k].width == n && ps[k].value < Pow2(n))
    && (forall k :: 0 <= k < |ps| ==> (ps[k].value >= Pow2(n - 1) <==> k + 1 < |ps|))
  }

  lemma OneMoreGroup(p: Piece, ps: seq<Piece>, n: nat)
    requires n >= 1 && WellMarked(ps, n) && |ps| > 0 && p.width == n && Pow2(n - 1) <= p.value < Pow2(n)
    ensures WellMarked([p] + ps, n)
  {
  }

  lemma GroupValues(v: nat, hi: nat)
    requires hi > 0
    ensures (v % hi + hi) % hi == v % hi && v == v % hi + hi * Quotient(v, hi)
    ensures v < hi ==> v % hi == v
  {
    Euclid(v % hi + hi, hi, 1, v % hi);
  }

  /** The format of the groups: the marks, and a number that the rest of the bits make up, lowest group
      first. */
  lemma {:induction false} VbrFormat(v: nat, n: nat)
    requires n >= 2
    ensures WellMarked(VbrPieces(v, n), n) && GroupsSay(VbrPieces(v, n), n) == v
    decreases v
  {
    var hi := Pow2(n - 1);
    assert Pow2(n) == 2 * hi;
    AboveIsSmaller(v, n);
    GroupValues(v, hi);
    if v >= hi {
      var p, rest := Piece(Marked(v, n), n), VbrPieces(Above(v, n), n);
      VbrFormat(Above(v, n), n);
      OneMoreGroup(p, rest, n);
      assert VbrPieces(v, n) == [p] + rest && ([p] + rest)[1..] == rest;
    } else {
      assert VbrPieces(v, n) == [Piece(v, n)] && [Piece(v, n)][1..] == [];
    }
  }

  /** The number that the bits below the top ones of these groups make up. */
  function GroupsSay(ps: seq<Piece>, n: nat): nat
    requires n >= 1
  {
    if ps == [] then 0 else ps[0].value % Pow2(n - 1) + Pow2(n - 1) * GroupsSay(ps[1..], n)
  }

  lemma AboveIsSmaller(v: nat, n: nat)
    requires n >= 2
    ensures v >= Pow2(n - 1) ==> 0 < Above(v, n) < v
  {
    assert Pow2(n - 1) == 2 * Pow2(n - 2);
    if v >= Pow2(n - 1) {
      Shrinks(v, Pow2(n - 1));
    }
  }

  lemma Shrinks(v: nat, d: nat)
    requires d >= 2 && v >= d
    ensures 0 < Quotient(v, d) < v
  {
    var q := Quotient(v, d);
    if q >= v {
      TimesMonotone(q, 2, d);
    }
  }

  function FieldPieces(f: Field): seq<Piece>
    requires f.Valid()
  {
    match f
    case Fixed(v, n) => [Piece(v, n)]
    case Variable(v, n) => VbrPieces(v, n)
  }

  function Pieces(fields: seq<Field>): seq<Piece>
    requires forall f :: f in fields ==> f.Valid()
  {
    if fields == [] then [] else FieldPieces(fields[0]) + Pieces(fields[1..])
  }

  // ----- Arithmetic of the encoding -----

  lemma {:induction false} EncodeAppend(ps: seq<Piece>, p: Piece)
    ensures Encode(ps + [p]) == Encode(ps) + Pow2(Bits(ps)) * p.value
    ensures Bits(ps + [p]) == Bits(ps) + p.width
  {
    if ps == [] {
      assert [p][1..] == [];
      assert ps + [p] == [p];
    } else {
      assert (ps + [p])[1..] == ps[1..] + [p];
      EncodeAppend(ps[1..], p);
      PowAdd(ps[0].width, Bits(ps[1..]));
      Regroup(Pow2(ps[0].width), Encode(ps[1..]), Pow2(Bits(ps[1..])), p.value);
    }
  }

  lemma Regroup(a: nat, x: nat, b: nat, y: nat)
    ensures a * (x + b * y) == a * x + (a * b) * y
  {
    assert a * (b * y) == (a * b) * y;
  }

  lemma BelowProduct(x: nat, a: nat, y: nat, b: nat)
    requires x < a && y < b
    ensures x + a * y < a * b
  {
    TimesMonotone(a, y + 1, b);
    TimesSuccessor(a, y);
  }

  /** The first piece is what the low bits say, and the rest is above them. */
  lemma EncodeFirst(p: Piece, ps: seq<Piece>)
    requires p.Fits()
    ensures Encode([p] + ps) % Pow2(p.width) == p.value && Encode([p] + ps) / Pow2(p.width) == Encode(ps)
  {
    assert ([p] + ps)[1..] == ps;
    Euclid(Encode([p] + ps), Pow2(p.width), Encode(ps), p.value);
  }

  // ----- Words -----

  function Digits(words: seq<nat>): nat
  {
    if words == [] then 0 else words[0] + BASE * Digits(words[1..])
  }

  /** The weight of word k. */
  function Weight(k: nat): (w: nat)
    ensures w > 0
  {
    if k == 0 then 1 else BASE * Weight(k - 1)
  }

  lemma {:induction false} WeightIsPower(k: nat)
    ensures Weight(k) == Pow2(WORD * k)
  {
    if k > 0 {
      WeightIsPower(k - 1);
      BaseIsPower();
      PowAdd(WORD, WORD * (k - 1));
    }
  }

  lemma BaseIsPower()
    ensures Pow2(WORD) == BASE
  {
    assert Pow2(8) == 256;
    PowAdd(8, 8);
    PowAdd(16, 16);
  }

  lemma {:induction false} DigitsAppend(words: seq<nat>, x: nat)
    ensures Digits(words + [x]) == Digits(words) + Weight(|words|) * x
  {
    if words == [] {
      assert words + [x] == [x];
      assert [x][1..] == [];
    } else {
      assert (words + [x])[1..] == words[1..] + [x];
      DigitsAppend(words[1..], x);
      Regroup(BASE, Digits(words[1..]), Weight(|words[1..]|), x);
    }
  }

  /** All the bits so far, the pending ones above the words. */
  function Total(words: seq<nat>, cur: nat): nat { Digits(words) + Weight(|words|) * cur }

  lemma EmitTotal(words: seq<nat>, cur: nat, bits: nat, ps: seq<Piece>, p: Piece)
    requires Encode(ps) == Total(words, cur) && Bits(ps) == WORD * |words| + bits && p.Fits() && cur < Pow2(bits)
    ensures Encode(ps + [p]) == Total(words, cur + Pow2(bits) * p.value) && Bits(ps + [p]) == Bits(ps) + p.width
    ensures cur + Pow2(bits) * p.value < Pow2(bits + p.width)
  {
    EncodeAppend(ps, p);
    WeightIsPower(|words|);
    PowAdd(WORD * |words|, bits);
    PowAdd(bits, p.width);
    Regroup(Weight(|words|), cur, Pow2(bits), p.value);
    BelowProduct(cur, Pow2(bits), p.value, Pow2(p.width));
  }

  /** Moving the low word of the pending bits to the words. */
  lemma PushTotal(words: seq<nat>, cur: nat)
    ensures Total(words + [Low(cur)], High(cur)) == Total(words, cur)
  {
    DigitsAppend(words, Low(cur));
    Regroup(Weight(|words|), Low(cur), BASE, High(cur));
    Commute(Weight(|words|), BASE);
  }

  lemma Commute(a: nat, b: nat)
    ensures a * b == b * a
  {
  }

  lemma HighFits(cur: nat, bits: nat)
    requires cur < Pow2(bits) && bits >= WORD
    ensures High(cur) < Pow2(bits - WORD)
  {
    BaseIsPower();
    PowAdd(WORD, bits - WORD);
    if High(cur) >= Pow2(bits - WORD) {
      TimesMonotone(BASE, Pow2(bits - WORD), High(cur));
    }
  }

  lemma LowOfSmall(cur: nat, bits: nat)
    requires cur < Pow2(bits) && bits <= WORD
    ensures cur < BASE && Low(cur) == cur && High(cur) == 0
  {
    BaseIsPower();
    Pow2Divides(bits, WORD);
  }

  class Writer {
    var words: seq<nat>
    var cur: nat
    var bits: nat
    ghost var pieces: seq<Piece>

    ghost predicate Valid()
      reads this
    {
      && bits < WORD && cur < Pow2(bits)
      && (forall w :: w in words ==> w < BASE)
      && Bits(pieces) == WORD * |words| + bits
      && Encode(pieces) == Total(words, cur)
    }

    constructor ()
      ensures Valid() && pieces == []
    {
      words, cur, bits, pieces := [], 0, 0, [];
    }

    method Emit(v: nat, n: nat)
      requires Valid() && v < Pow2(n) && 1 <= n <= WORD
      modifies this
      ensures Valid() && pieces == old(pieces) + [Piece(v, n)]
    {
      EmitTotal(words, cur, bits, pieces, Piece(v, n));
      pieces := pieces + [Piece(v, n)];
      OrOfShifted(cur, v, bits);
      cur := Or(cur, ShiftUp(v, bits));
      bits := bits + n;
      if bits >= WORD {
        PushWord();
      }
    }

    method PushWord()
      requires WORD <= bits < 2 * WORD && cur < Pow2(bits) && (forall w :: w in words ==> w < BASE)
      requires Bits(pieces) == WORD * |words| + bits && Encode(pieces) == Total(words, cur)
      modifies this`words, this`cur, this`bits
      ensures Valid()
    {
      PushTotal(words, cur);
      HighFits(cur, bits);
      words := words + [Low(cur)];
      cur := High(cur);
      bits := bits - WORD;
    }

    method Vbr(v: nat, n: nat)
      requires Valid() && 2 <= n <= WORD
      modifies this
      ensures Valid() && pieces == old(pieces) + VbrPieces(v, n)
    {
      var u: nat := v;
      ghost var done: seq<Piece> := [];
      while u >= Pow2(n - 1)
        invariant Valid() && pieces == old(pieces) + done && done + VbrPieces(u, n) == VbrPieces(v, n)
        decreases u
      {
        AboveIsSmaller(u, n);
        MarkedFits(u, n);
        Emit(Marked(u, n), n);
        done := done + [Piece(Marked(u, n), n)];
        u := Above(u, n);
      }
      MarkedFits(u, n);
      Emit(u, n);
    }

    /** Padding to a whole word. */
    method Flush()
      requires Valid()
      modifies this
      ensures Valid() && bits == 0
      ensures pieces == old(pieces) + if old(bits) == 0 then [] else [Piece(0, WORD - old(bits))]
      ensures Digits(words) == Encode(pieces) == old(Encode(pieces))
    {
      if bits != 0 {
        ghost var pad := Piece(0, WORD - bits);
        EncodeAppend(pieces, pad);
        LowOfSmall(cur, bits);
        PushTotal(words, cur);
        pieces := pieces + [pad];
        words := words + [cur];
        cur, bits := 0, 0;
      }
    }
  }

  lemma MarkedFits(u: nat, n: nat)
    requires n >= 1
    ensures Marked(u, n) < Pow2(n)
    ensures u < Pow2(n - 1) ==> u < Pow2(n)
  {
    assert Pow2(n) == 2 * Pow2(n - 1);
  }

  // ----- Reading -----

  /** The bits to come: the pending ones below the words from pos on. */
  function RestOf(words: seq<nat>, pos: nat, cur: nat, bits: nat): nat
    requires pos <= |words|
  {
    cur + Pow2(bits) * Digits(words[pos..])
  }

  lemma RefillKeepsRest(words: seq<nat>, pos: nat, cur: nat, bits: nat)
    requires pos < |words| && cur < Pow2(bits) && words[pos] < BASE
    ensures RestOf(words, pos + 1, cur + Pow2(bits) * words[pos], bits + WORD) == RestOf(words, pos, cur, bits)
    ensures cur + Pow2(bits) * words[pos] < Pow2(bits + WORD)
  {
    assert words[pos..][0] == words[pos] && words[pos..][1..] == words[pos + 1..];
    BaseIsPower();
    PowAdd(bits, WORD);
    Regroup(Pow2(bits), words[pos], BASE, Digits(words[pos + 1..]));
    BelowProduct(cur, Pow2(bits), words[pos], BASE);
  }

  lemma PaddingKeepsRest(words: seq<nat>, cur: nat, bits: nat)
    ensures RestOf(words, |words|, cur, bits + WORD) == RestOf(words, |words|, cur, bits)
    ensures cur < Pow2(bits) ==> cur < Pow2(bits + WORD)
  {
    assert words[|words|..] == [];
    Pow2Divides(bits, bits + WORD);
  }

  lemma TakeFromRest(words: seq<nat>, pos: nat, cur: nat, bits: nat, n: nat)
    requires pos <= |words| && n <= bits && cur < Pow2(bits)
    ensures cur % Pow2(n) == RestOf(words, pos, cur, bits) % Pow2(n)
    ensures RestOf(words, pos, Quotient(cur, Pow2(n)), bits - n) == RestOf(words, pos, cur, bits) / Pow2(n)
    ensures Quotient(cur, Pow2(n)) < Pow2(bits - n)
  {
    PowAdd(n, bits - n);
    TakeLow(cur, Pow2(n), Pow2(bits - n), Digits(words[pos..]));
  }

  lemma TakeLow(cur: nat, p: nat, w: nat, d: nat)
    requires p > 0 && cur < p * w
    ensures (cur + (p * w) * d) % p == cur % p && (cur + (p * w) * d) / p == Quotient(cur, p) + w * d
    ensures Quotient(cur, p) < w
  {
    var q := Quotient(cur, p);
    Regroup(p, q, w, d);
    Euclid(cur + (p * w) * d, p, q + w * d, cur % p);
    if q >= w {
      TimesMonotone(p, w, q);
    }
  }

  class Reader {
    const words: seq<nat>
    var pos: nat
    var cur: nat
    var bits: nat

    ghost predicate Valid()
      reads this
    {
      pos <= |words| && bits < WORD && cur < Pow2(bits) && forall w :: w in words ==> w < BASE
    }

    ghost function Rest(): nat
      requires Valid()
      reads this
    {
      RestOf(words, pos, cur, bits)
    }

    constructor (words: seq<nat>)
      requires forall w :: w in words ==> w < BASE
      ensures Valid() && Rest() == Digits(words)
    {
      this.words := words;
      pos, cur, bits := 0, 0, 0;
      new;
      assert words[0..] == words;
    }

    method Refill()
      requires Valid()
      modifies this
      ensures pos <= |words| && WORD <= bits == old(bits) + WORD && cur < Pow2(bits)
      ensures RestOf(words, pos, cur, bits) == old(Rest())
    {
      if pos < |words| {
        assert words[pos] in words;
        RefillKeepsRest(words, pos, cur, bits);
        OrOfShifted(cur, words[pos], bits);
        cur := Or(cur, ShiftUp(words[pos], bits));
        pos := pos + 1;
      } else {
        PaddingKeepsRest(words, cur, bits);
      }
      bits := bits + WORD;
    }

    /** The low n bits of what is to come; behind the end there are zeros. */
    method Read(n: nat) returns (v: nat)
      requires Valid() && 1 <= n <= WORD
      modifies this
      ensures Valid() && v == old(Rest()) % Pow2(n) && Rest() == old(Rest()) / Pow2(n)
    {
      if bits < n {
        Refill();
      }
      TakeFromRest(words, pos, cur, bits, n);
      v := cur % Pow2(n);
      cur := Quotient(cur, Pow2(n));
      bits := bits - n;
    }

    /** A piece that was written is read. */
    method ReadPiece(n: nat, ghost p: Piece, ghost more: seq<Piece>) returns (v: nat)
      requires Valid() && 1 <= n <= WORD && p.width == n && p.Fits() && Rest() == Encode([p] + more)
      modifies this
      ensures Valid() && v == p.value && Rest() == Encode(more)
    {
      EncodeFirst(p, more);
      v := Read(n);
    }

    /** One turn of `vbr`: the low bits of what is left of the number, and whether that was all. */
    method VbrTurn(n: nat, ghost u: nat, ghost more: seq<Piece>) returns (low: nat, last: bool)
      requires Valid() && 2 <= n <= WORD && Rest() == Encode(VbrPieces(u, n) + more)
      modifies this
      ensures Valid() && (last <==> u < Pow2(n - 1)) && low == if last then u else LowPart(u, n)
      ensures Rest() == Encode(if last then more else VbrPieces(Above(u, n), n) + more)
    {
      FirstPiece(u, n);
      ghost var ps := VbrPieces(u, n);
      SplitFirst(ps, more);
      var piece := ReadPiece(n, ps[0], ps[1..] + more);
      low := LowPart(piece, n);
      last := IsLast(piece, n);
      assert [] + more == more;
    }

    /** What `vbr` wrote is read, whatever follows it. */
    method Vbr(n: nat, ghost whole: nat, ghost more: seq<Piece>) returns (v: nat)
      requires Valid() && 2 <= n <= WORD && whole < BASE && Rest() == Encode(VbrPieces(whole, n) + more)
      modifies this
      ensures Valid() && v == whole && Rest() == Encode(more)
    {
      v := 0;
      var shift: nat := 0;
      ghost var u: nat := whole;
      while true
        invariant Valid() && Rest() == Encode(VbrPieces(u, n) + more)
        invariant v < Pow2(shift) && v + ShiftUp(u, shift) == whole && (u == 0 ==> shift == 0)
        decreases u
      {
        ShiftFits(shift, u, v, whole);
        assert shift < WORD;
        var low, last := VbrTurn(n, u, more);
        ghost var before := v;
        OrOfShifted(v, low, shift);
        v := Or(v, ShiftUp(low, shift));
        if last {
          return;
        }
        NextShift(before, shift, u, n, whole);
        shift := shift + (n - 1);
        u := Above(u, n);
      }
    }
  }

  lemma SplitFirst(ps: seq<Piece>, more: seq<Piece>)
    requires |ps| > 0
    ensures ps + more == [ps[0]] + (ps[1..] + more)
  {
  }

  /** The shifts of the reader stay below the width of a word. */
  lemma ShiftFits(shift: nat, u: nat, v: nat, whole: nat)
    requires v + ShiftUp(u, shift) == whole < BASE && (u == 0 ==> shift == 0)
    ensures shift < WORD
  {
    if shift >= WORD {
      BaseIsPower();
      Pow2Divides(WORD, shift);
      TimesMonotone(Pow2(shift), 1, u);
    }
  }

  /** The first piece of u: its low bits, and a mark unless it is the last. */
  lemma FirstPiece(u: nat, n: nat)
    requires n >= 2
    ensures var hi, x, ps := Pow2(n - 1), VbrPieces(u, n)[0].value, VbrPieces(u, n);
            && LowPart(x, n) == (if u < hi then u else LowPart(u, n)) && (IsLast(x, n) <==> u < hi)
            && ps[0].width == n && ps[0].Fits()
            && ps[1..] == (if u < hi then [] else VbrPieces(Above(u, n), n))
  {
    var hi := Pow2(n - 1);
    MarkedFits(u, n);
    if u < hi {
      Euclid(u, hi, 0, u);
    } else {
      Euclid(Marked(u, n), hi, 1, u % hi);
    }
  }

  lemma NextShift(v: nat, shift: nat, u: nat, n: nat, whole: nat)
    requires n >= 2 && v < Pow2(shift) && v + ShiftUp(u, shift) == whole && u >= Pow2(n - 1)
    ensures v + ShiftUp(LowPart(u, n), shift) + ShiftUp(Above(u, n), shift + (n - 1)) == whole
    ensures v + ShiftUp(LowPart(u, n), shift) < Pow2(shift + (n - 1))
    ensures 0 < Above(u, n) < u
  {
    PowAdd(shift, n - 1);
    BelowProduct(v, Pow2(shift), LowPart(u, n), Pow2(n - 1));
    AboveIsSmaller(u, n);
    GroupUp(v, Pow2(shift), LowPart(u, n), Pow2(n - 1), Above(u, n), u, whole);
  }

  lemma GroupUp(v: nat, s: nat, r: nat, h: nat, a: nat, u: nat, whole: nat)
    requires u == r + h * a && v + s * u == whole
    ensures v + s * r + (s * h) * a == whole
  {
    Regroup(s, r, h, a);
  }

  // ----- Round trip -----

  method WriteField(w: Writer, f: Field)
    requires w.Valid() && f.Valid()
    modifies w
    ensures w.Valid() && w.pieces == old(w.pieces) + FieldPieces(f)
  {
    match f
    case Fixed(v, n) => w.Emit(v, n);
    case Variable(v, n) => w.Vbr(v, n);
  }

  method ReadField(r: Reader, f: Field, ghost more: seq<Piece>) returns (v: nat)
    requires r.Valid() && f.Valid() && r.Rest() == Encode(FieldPieces(f) + more)
    modifies r
    ensures r.Valid() && v == f.value && r.Rest() == Encode(more)
  {
    match f
    case Fixed(x, n) => v := r.ReadPiece(n, Piece(x, n), more);
    case Variable(x, n) => v := r.Vbr(n, x, more);
  }

  lemma {:induction false} PiecesAppend(fields: seq<Field>, f: Field)
    requires (forall g :: g in fields ==> g.Valid()) && f.Valid()
    ensures Pieces(fields + [f]) == Pieces(fields) + FieldPieces(f)
  {
    if fields == [] {
      assert fields + [f] == [f] && [f][1..] == [];
    } else {
      assert (fields + [f])[1..] == fields[1..] + [f];
      PiecesAppend(fields[1..], f);
    }
  }

  method WriteAll(fields: seq<Field>) returns (words: seq<nat>)
    requires forall f :: f in fields ==> f.Valid()
    ensures (forall w :: w in words ==> w < BASE) && Digits(words) == Encode(Pieces(fields))
  {
    var w := new Writer();
    for k := 0 to |fields|
      invariant w.Valid() && fresh(w) && w.pieces == Pieces(fields[..k])
    {
      assert fields[k] in fields;
      PiecesAppend(fields[..k], fields[k]);
      assert fields[..k + 1] == fields[..k] + [fields[k]];
      WriteField(w, fields[k]);
    }
    assert fields[..|fields|] == fields;
    w.Flush();
    words := w.words;
  }

  /** Whatever is written is read back, field by field. */
  method RoundTrip(fields: seq<Field>) returns (values: seq<nat>)
    requires forall f :: f in fields ==> f.Valid()
    ensures |values| == |fields| && forall k :: 0 <= k < |fields| ==> values[k] == fields[k].value
  {
    var words := WriteAll(fields);
    var r := new Reader(words);
    values := [];
    for k := 0 to |fields|
      invariant r.Valid() && fresh(r) && r.Rest() == Encode(Pieces(fields[k..]))
      invariant |values| == k && forall i :: 0 <= i < k ==> values[i] == fields[i].value
    {
      assert fields[k] in fields && fields[k..][0] == fields[k] && fields[k..][1..] == fields[k + 1..];
      var v := ReadField(r, fields[k], Pieces(fields[k + 1..]));
      values := values + [v];
    }
  }
}
