/** The open-addressing map of the benchmark: linear probing, tombstones for erased keys, doubling
    when three quarters full. Every operation is modelled in every state, whatever came before it;
    which of them act on the table as on a map, and exactly when, is proved of the slots. */
module DenseMap {
  import opened Arithmetic
  import opened Sums

  const EMPTY: nat := 0
  const TOMB: nat := 1

  datatype Slot = Slot(key: nat, value: nat)
  datatype Answer = Found(value: nat) | Missing

  // ----- Probing a ring of slots -----

  /** The d-th slot from h on, for d up to the size. */
  function Around(h: nat, d: nat, size: nat): nat
    requires h < size && d <= size
  {
    if h + d < size then h + d else h + d - size
  }

  function Distance(h: nat, i: nat, size: nat): (d: nat)
    requires h < size && i < size
    ensures d < size && Around(h, d, size) == i
  {
    if h <= i then i - h else i + size - h
  }

  lemma DistanceBack(h: nat, d: nat, size: nat)
    requires h < size && d < size
    ensures Distance(h, Around(h, d, size), size) == d
  {
  }

  /** One turn of a probe loop. */
  lemma NextAround(h: nat, d: nat, size: nat)
    requires h < size && d + 1 < size
    ensures (Around(h, d, size) + 1) % size == Around(h, d + 1, size)
  {
    var i := Around(h, d, size);
    Euclid(i + 1, size, if i + 1 == size then 1 else 0, if i + 1 == size then 0 else i + 1);
  }

  function KeyAt(slots: seq<Slot>, h: nat, d: nat): nat
    requires h < |slots| && d <= |slots|
  {
    slots[Around(h, d, |slots|)].key
  }

  function Home(slots: seq<Slot>, hash: nat -> nat, k: nat): (h: nat)
    requires |slots| > 0
    ensures h < |slots|
  {
    hash(k) % |slots|
  }

  /** Where a search stops, as a distance from its start: at the key or at an empty slot, or nowhere. */
  function Stop(slots: seq<Slot>, h: nat, k: nat, d: nat): (e: nat)
    requires h < |slots| && d <= |slots|
    ensures d <= e <= |slots|
    decreases |slots| - d
  {
    if d == |slots| || KeyAt(slots, h, d) == k || KeyAt(slots, h, d) == EMPTY then d else Stop(slots, h, k, d + 1)
  }

  /** Where `insert` stops: at the key, a tombstone or an empty slot. */
  function Landing(slots: seq<Slot>, h: nat, k: nat, d: nat): (e: nat)
    requires h < |slots| && d <= |slots|
    ensures d <= e <= |slots|
    decreases |slots| - d
  {
    if d == |slots| || KeyAt(slots, h, d) <= TOMB || KeyAt(slots, h, d) == k then d else Landing(slots, h, k, d + 1)
  }

  lemma {:induction false} StopIsFirst(slots: seq<Slot>, h: nat, k: nat, d: nat)
    requires h < |slots| && d <= |slots|
    ensures var e := Stop(slots, h, k, d);
            && (e < |slots| ==> KeyAt(slots, h, e) == k || KeyAt(slots, h, e) == EMPTY)
            && forall c :: d <= c < e ==> KeyAt(slots, h, c) != k && KeyAt(slots, h, c) != EMPTY
    decreases |slots| - d
  {
    if d < |slots| && KeyAt(slots, h, d) != k && KeyAt(slots, h, d) != EMPTY {
      StopIsFirst(slots, h, k, d + 1);
    }
  }

  lemma {:induction false} LandingIsFirst(slots: seq<Slot>, h: nat, k: nat, d: nat)
    requires h < |slots| && d <= |slots|
    ensures var e := Landing(slots, h, k, d);
            && (e < |slots| ==> KeyAt(slots, h, e) <= TOMB || KeyAt(slots, h, e) == k)
            && forall c :: d <= c < e ==> KeyAt(slots, h, c) > TOMB && KeyAt(slots, h, c) != k
    decreases |slots| - d
  {
    if d < |slots| && KeyAt(slots, h, d) > TOMB && KeyAt(slots, h, d) != k {
      LandingIsFirst(slots, h, k, d + 1);
    }
  }

  ghost predicate Present(slots: seq<Slot>, k: nat) { exists i :: 0 <= i < |slots| && slots[i].key == k }

  predicate Ends(slots: seq<Slot>, hash: nat -> nat, k: nat)
    requires |slots| > 0
  {
    Stop(slots, Home(slots, hash, k), k, 0) < |slots|
  }

  /** The loops of `find` and `erase` end exactly when the key is somewhere in the table, or an empty
      slot is. The load bound alone does not see to that: tombstones may have used up the empty slots. */
  lemma SearchEndsIff(slots: seq<Slot>, hash: nat -> nat, k: nat)
    requires |slots| > 0
    ensures Ends(slots, hash, k) <==> Present(slots, k) || Present(slots, EMPTY)
  {
    var h := Home(slots, hash, k);
    var e := Stop(slots, h, k, 0);
    StopIsFirst(slots, h, k, 0);
    if e == |slots| {
      forall i | 0 <= i < |slots| ensures slots[i].key != k && slots[i].key != EMPTY {
        assert KeyAt(slots, h, Distance(h, i, |slots|)) == slots[i].key;
      }
    }
  }

  function Used(s: Slot): nat { if s.key > TOMB then 1 else 0 }

  /** The loop of `insert` ends because not every slot is used. */
  lemma InsertEnds(slots: seq<Slot>, h: nat, k: nat)
    requires h < |slots| && Sum(Used, slots) < |slots|
    ensures Landing(slots, h, k, 0) < |slots|
  {
    LandingIsFirst(slots, h, k, 0);
    if Landing(slots, h, k, 0) == |slots| {
      forall i | 0 <= i < |slots| ensures Used(slots[i]) == 1 {
        assert KeyAt(slots, h, Distance(h, i, |slots|)) == slots[i].key;
      }
      SumBound(Used, slots, 1);
    }
  }

  // ----- What the operations do to the slots -----

  function LandingSlot(slots: seq<Slot>, hash: nat -> nat, k: nat): (i: nat)
    requires |slots| > 0 && Landing(slots, Home(slots, hash, k), k, 0) < |slots|
    ensures i < |slots|
  {
    Around(Home(slots, hash, k), Landing(slots, Home(slots, hash, k), k, 0), |slots|)
  }

  function StopSlot(slots: seq<Slot>, hash: nat -> nat, k: nat): (i: nat)
    requires |slots| > 0 && Ends(slots, hash, k)
    ensures i < |slots|
  {
    Around(Home(slots, hash, k), Stop(slots, Home(slots, hash, k), k, 0), |slots|)
  }

  function Written(slots: seq<Slot>, hash: nat -> nat, k: nat, v: nat): seq<Slot>
    requires |slots| > 0 && Landing(slots, Home(slots, hash, k), k, 0) < |slots|
  {
    slots[LandingSlot(slots, hash, k) := Slot(k, v)]
  }

  function Erased(slots: seq<Slot>, hash: nat -> nat, k: nat): seq<Slot>
    requires |slots| > 0 && Ends(slots, hash, k)
  {
    var i := StopSlot(slots, hash, k);
    if slots[i].key == k then slots[i := slots[i].(key := TOMB)] else slots
  }

  /** What `find` answers. */
  function AnswerOf(slots: seq<Slot>, hash: nat -> nat, k: nat): Answer
    requires |slots| > 0 && Ends(slots, hash, k)
  {
    var s := slots[StopSlot(slots, hash, k)];
    if s.key == k then Found(s.value) else Missing
  }

  /** From its home on, no slot before i is empty: a search for the key at i gets there. */
  ghost predicate PathTo(slots: seq<Slot>, h: nat, i: nat)
    requires h < |slots| && i < |slots|
  {
    forall d :: 0 <= d < Distance(h, i, |slots|) ==> KeyAt(slots, h, d) != EMPTY
  }

  /** Writing something other than empty keeps every path. */
  lemma PathKept(slots: seq<Slot>, h: nat, i: nat, j: nat, s: Slot)
    requires h < |slots| && i < |slots| && j < |slots| && PathTo(slots, h, i) && s.key != EMPTY
    ensures PathTo(slots[j := s], h, i)
  {
    var t := slots[j := s];
    forall d | 0 <= d < Distance(h, i, |slots|) ensures KeyAt(t, h, d) != EMPTY {
      assert KeyAt(slots, h, d) != EMPTY;
    }
  }

  /** Every key in the table is on the path from its home. This every operation keeps. */
  ghost predicate Reached(slots: seq<Slot>, hash: nat -> nat)
    requires |slots| > 0
  {
    forall i :: 0 <= i < |slots| && slots[i].key > TOMB ==> PathTo(slots, Home(slots, hash, slots[i].key), i)
  }

  lemma ReachedKept(slots: seq<Slot>, hash: nat -> nat, i: nat, s: Slot)
    requires |slots| > 0 && Reached(slots, hash) && i < |slots| && s.key != EMPTY
    requires s.key > TOMB ==> PathTo(slots, Home(slots, hash, s.key), i)
    ensures Reached(slots[i := s], hash)
  {
    var t := slots[i := s];
    forall j | 0 <= j < |t| && t[j].key > TOMB ensures PathTo(t, Home(t, hash, t[j].key), j) {
      PathKept(slots, Home(slots, hash, t[j].key), j, i, s);
    }
  }

  lemma LandingPath(slots: seq<Slot>, hash: nat -> nat, k: nat)
    requires |slots| > 0 && Landing(slots, Home(slots, hash, k), k, 0) < |slots|
    ensures PathTo(slots, Home(slots, hash, k), LandingSlot(slots, hash, k))
    ensures var i := LandingSlot(slots, hash, k); slots[i].key <= TOMB || slots[i].key == k
  {
    var h := Home(slots, hash, k);
    LandingIsFirst(slots, h, k, 0);
    DistanceBack(h, Landing(slots, h, k, 0), |slots|);
  }

  /** A search finds the key exactly when it is in the table. */
  lemma FoundIffPresent(slots: seq<Slot>, hash: nat -> nat, k: nat)
    requires |slots| > 0 && Reached(slots, hash) && k > TOMB && Ends(slots, hash, k)
    ensures AnswerOf(slots, hash, k).Found? <==> Present(slots, k)
  {
    var h := Home(slots, hash, k);
    StopIsFirst(slots, h, k, 0);
    if Present(slots, k) {
      var i :| 0 <= i < |slots| && slots[i].key == k;
      assert PathTo(slots, h, i) && KeyAt(slots, h, Distance(h, i, |slots|)) == k;
    }
  }

  /** A search for the key just written stops where it was written. */
  lemma WrittenIsMet(slots: seq<Slot>, hash: nat -> nat, k: nat, v: nat)
    requires |slots| > 0 && Landing(slots, Home(slots, hash, k), k, 0) < |slots| && k > TOMB
    ensures Ends(Written(slots, hash, k, v), hash, k)
    ensures StopSlot(Written(slots, hash, k, v), hash, k) == LandingSlot(slots, hash, k)
  {
    var h, t := Home(slots, hash, k), Written(slots, hash, k, v);
    var e := Landing(slots, h, k, 0);
    LandingIsFirst(slots, h, k, 0);
    StopIsFirst(t, h, k, 0);
    assert KeyAt(t, h, e) == k;
    forall c | 0 <= c < e ensures KeyAt(t, h, c) != k && KeyAt(t, h, c) != EMPTY {
      assert KeyAt(slots, h, c) > TOMB && KeyAt(slots, h, c) != k;
      DistanceBack(h, c, |slots|);
      DistanceBack(h, e, |slots|);
    }
  }

  /** In every table there can be, tombstones and stale copies or not, `find` meets what `insert` has
      just written. */
  lemma AnswerAfterInsert(slots: seq<Slot>, hash: nat -> nat, k: nat, v: nat)
    requires |slots| > 0 && Landing(slots, Home(slots, hash, k), k, 0) < |slots| && k > TOMB
    ensures Ends(Written(slots, hash, k, v), hash, k) && AnswerOf(Written(slots, hash, k, v), hash, k) == Found(v)
  {
    WrittenIsMet(slots, hash, k, v);
  }

  /** And answers as before for every other key: the copies of a key keep their order on its path. */
  lemma OtherAnswersKept(slots: seq<Slot>, hash: nat -> nat, k: nat, v: nat, l: nat)
    requires |slots| > 0 && Reached(slots, hash) && Landing(slots, Home(slots, hash, k), k, 0) < |slots|
    requires k > TOMB && l > TOMB && l != k && Ends(slots, hash, l) && Ends(Written(slots, hash, k, v), hash, l)
    ensures AnswerOf(Written(slots, hash, k, v), hash, l) == AnswerOf(slots, hash, l)
  {
    var h, i, t := Home(slots, hash, l), LandingSlot(slots, hash, k), Written(slots, hash, k, v);
    LandingPath(slots, hash, k);
    ReachedKept(slots, hash, i, Slot(k, v));
    FoundIffPresent(slots, hash, l);
    FoundIffPresent(t, hash, l);
    assert slots[i].key != l;
    if Present(slots, l) {
      var j :| 0 <= j < |slots| && slots[j].key == l;
      assert t[j].key == l;
      SameStop(slots, t, h, l, i);
    } else {
      assert !Present(t, l);
    }
  }

  lemma SameStop(slots: seq<Slot>, t: seq<Slot>, h: nat, l: nat, i: nat)
    requires i < |slots| && h < |slots| && l > TOMB
    requires |t| == |slots| && t == slots[i := t[i]] && t[i].key != EMPTY && t[i].key != l && slots[i].key != l
    requires Stop(slots, h, l, 0) < |slots| && KeyAt(slots, h, Stop(slots, h, l, 0)) == l
    ensures Stop(t, h, l, 0) == Stop(slots, h, l, 0)
  {
    StopIsFirst(slots, h, l, 0);
    StopIsFirst(t, h, l, 0);
    var e := Stop(slots, h, l, 0);
    forall c | 0 <= c < e ensures KeyAt(t, h, c) != l && KeyAt(t, h, c) != EMPTY {
      assert KeyAt(slots, h, c) != l && KeyAt(slots, h, c) != EMPTY;
    }
    assert KeyAt(t, h, e) == l;
  }

  // ----- Tables that are maps -----

  /** Each key is where `place` says, on the path from its home, with its value; nothing else is there. */
  ghost predicate Holds(slots: seq<Slot>, hash: nat -> nat, m: map<nat, nat>, place: map<nat, nat>)
    requires |slots| > 0
  {
    && place.Keys == m.Keys
    && (forall k :: k in place ==> k > TOMB && PlacedAt(slots, hash, k, m[k], place[k]))
    && (forall i :: 0 <= i < |slots| && slots[i].key > TOMB ==> slots[i].key in place && place[slots[i].key] == i)
  }

  ghost predicate PlacedAt(slots: seq<Slot>, hash: nat -> nat, k: nat, v: nat, i: nat)
    requires |slots| > 0
  {
    i < |slots| && slots[i] == Slot(k, v) && PathTo(slots, Home(slots, hash, k), i)
  }

  function Look(m: map<nat, nat>, k: nat): Answer { if k in m then Found(m[k]) else Missing }

  /** On such a table the search answers as the map does, and stops where the key is. */
  lemma AnswersLikeMap(slots: seq<Slot>, hash: nat -> nat, m: map<nat, nat>, place: map<nat, nat>, k: nat)
    requires |slots| > 0 && Holds(slots, hash, m, place) && k > TOMB && Ends(slots, hash, k)
    ensures AnswerOf(slots, hash, k) == Look(m, k) && (k in m ==> StopSlot(slots, hash, k) == place[k])
  {
    var h := Home(slots, hash, k);
    StopIsFirst(slots, h, k, 0);
    if k in m {
      assert PlacedAt(slots, hash, k, m[k], place[k]);
      assert KeyAt(slots, h, Distance(h, place[k], |slots|)) == k;
    }
  }

  /** The key and the value at a slot that was free, or was the key's own. */
  lemma PutHolds(slots: seq<Slot>, hash: nat -> nat, m: map<nat, nat>, place: map<nat, nat>, k: nat, v: nat, i: nat)
    requires |slots| > 0 && Holds(slots, hash, m, place) && k > TOMB && i < |slots|
    requires PathTo(slots, Home(slots, hash, k), i)
    requires if k in place then place[k] == i else slots[i].key <= TOMB
    ensures Holds(slots[i := Slot(k, v)], hash, m[k := v], place[k := i])
  {
    var slots', m', place' := slots[i := Slot(k, v)], m[k := v], place[k := i];
    forall l | l in place' ensures PlacedAt(slots', hash, l, m'[l], place'[l]) {
      if l == k {
        PathKept(slots, Home(slots, hash, k), i, i, Slot(k, v));
      } else {
        assert PlacedAt(slots, hash, l, m[l], place[l]);
        PathKept(slots, Home(slots, hash, l), place[l], i, Slot(k, v));
      }
    }
  }

  /** A tombstone in place of a key. */
  lemma EraseHolds(slots: seq<Slot>, hash: nat -> nat, m: map<nat, nat>, place: map<nat, nat>, k: nat)
    requires |slots| > 0 && Holds(slots, hash, m, place) && k > TOMB && Ends(slots, hash, k)
    ensures Holds(Erased(slots, hash, k), hash, m - {k}, place - {k})
  {
    AnswersLikeMap(slots, hash, m, place, k);
    var slots' := Erased(slots, hash, k);
    forall l | l in place - {k} ensures PlacedAt(slots', hash, l, m[l], place[l]) {
      assert PlacedAt(slots, hash, l, m[l], place[l]);
      if k in m {
        PathKept(slots, Home(slots, hash, l), place[l], place[k], slots'[place[k]]);
      }
    }
  }

  // ----- `insert` on a table that is a map -----

  /** No tombstone from h to before i. */
  ghost predicate Clear(slots: seq<Slot>, h: nat, i: nat)
    requires h < |slots| && i < |slots|
  {
    forall c :: 0 <= c < Distance(h, i, |slots|) ==> KeyAt(slots, h, c) != TOMB
  }

  /** The key is new, or no tombstone comes before it on its path. */
  ghost predicate Settled(slots: seq<Slot>, hash: nat -> nat, place: map<nat, nat>, k: nat)
    requires |slots| > 0
  {
    k in place && place[k] < |slots| ==> Clear(slots, Home(slots, hash, k), place[k])
  }

  /** `insert` finds a held key exactly when no tombstone comes before it on its path. */
  lemma LandsOnKeyIff(slots: seq<Slot>, hash: nat -> nat, m: map<nat, nat>, place: map<nat, nat>, k: nat)
    requires |slots| > 0 && Holds(slots, hash, m, place) && k in place && place[k] < |slots|
    requires Landing(slots, Home(slots, hash, k), k, 0) < |slots|
    ensures LandingSlot(slots, hash, k) == place[k] <==> Clear(slots, Home(slots, hash, k), place[k])
    ensures LandingSlot(slots, hash, k) != place[k] ==> slots[LandingSlot(slots, hash, k)].key == TOMB
  {
    var h := Home(slots, hash, k);
    var e, f := Distance(h, place[k], |slots|), Landing(slots, h, k, 0);
    assert PlacedAt(slots, hash, k, m[k], place[k]);
    assert KeyAt(slots, h, e) == k;
    LandingIsFirst(slots, h, k, 0);
    DistanceBack(h, f, |slots|);
    if f < e {
      assert KeyAt(slots, h, f) != EMPTY;
    }
  }

  ghost predicate SomeMap(slots: seq<Slot>, hash: nat -> nat)
    requires |slots| > 0
  {
    exists m, place :: Holds(slots, hash, m, place)
  }

  /** Two slots with one key are no map. */
  lemma TwoCopiesNoMap(slots: seq<Slot>, hash: nat -> nat, m: map<nat, nat>, place: map<nat, nat>, i: nat, j: nat)
    requires |slots| > 0 && i < j < |slots| && slots[i].key == slots[j].key > TOMB
    ensures !Holds(slots, hash, m, place)
  {
  }

  /** After `insert` the table is the updated map, or is no map at all; and it is a map exactly when
      the key was new or no tombstone came before it on its path. */
  lemma InsertKeepsMapIff(slots: seq<Slot>, hash: nat -> nat, m: map<nat, nat>, place: map<nat, nat>, k: nat, v: nat)
    requires |slots| > 0 && Holds(slots, hash, m, place) && k > TOMB
    requires Landing(slots, Home(slots, hash, k), k, 0) < |slots|
    ensures SomeMap(Written(slots, hash, k, v), hash) <==> Settled(slots, hash, place, k)
    ensures Settled(slots, hash, place, k) ==>
              Holds(Written(slots, hash, k, v), hash, m[k := v], place[k := LandingSlot(slots, hash, k)])
  {
    var i := LandingSlot(slots, hash, k);
    LandingPath(slots, hash, k);
    if k in place {
      assert PlacedAt(slots, hash, k, m[k], place[k]);
      LandsOnKeyIff(slots, hash, m, place, k);
    }
    if k !in place || i == place[k] {
      PutHolds(slots, hash, m, place, k, v, i);
      assert Holds(Written(slots, hash, k, v), hash, m[k := v], place[k := i]);
    } else {
      var t := Written(slots, hash, k, v);
      forall m', place' ensures !Holds(t, hash, m', place') {
        TwoCopiesNoMap(t, hash, m', place', if i < place[k] then i else place[k], if i < place[k] then place[k] else i);
      }
    }
  }

  lemma UpdatedMapIff(slots: seq<Slot>, hash: nat -> nat, m: map<nat, nat>, place: map<nat, nat>, k: nat, v: nat)
    requires |slots| > 0 && Holds(slots, hash, m, place) && k > TOMB
    requires Landing(slots, Home(slots, hash, k), k, 0) < |slots|
    ensures Holds(Written(slots, hash, k, v), hash, m[k := v], place[k := LandingSlot(slots, hash, k)])
            <==> Settled(slots, hash, place, k)
  {
    InsertKeepsMapIff(slots, hash, m, place, k, v);
    if Holds(Written(slots, hash, k, v), hash, m[k := v], place[k := LandingSlot(slots, hash, k)]) {
      assert SomeMap(Written(slots, hash, k, v), hash);
    }
  }

  /** What comes of it when it is not: the erase that follows uncovers the value `insert` should have
      overwritten. Otherwise the erase removes the key. */
  lemma EraseAfterInsert(slots: seq<Slot>, hash: nat -> nat, m: map<nat, nat>, place: map<nat, nat>, k: nat, v: nat)
    requires |slots| > 0 && Holds(slots, hash, m, place) && k > TOMB
    requires Landing(slots, Home(slots, hash, k), k, 0) < |slots|
    ensures Ends(Written(slots, hash, k, v), hash, k)
    ensures var t := Erased(Written(slots, hash, k, v), hash, k);
            if Settled(slots, hash, place, k) then !Present(t, k)
            else Ends(t, hash, k) && AnswerOf(t, hash, k) == Found(m[k])
  {
    var t := Written(slots, hash, k, v);
    AnswerAfterInsert(slots, hash, k, v);
    InsertKeepsMapIff(slots, hash, m, place, k, v);
    if Settled(slots, hash, place, k) {
      EraseHolds(t, hash, m[k := v], place[k := LandingSlot(slots, hash, k)], k);
    } else {
      OldCopyUncovered(slots, hash, m, place, k, v);
    }
  }

  lemma OldCopyUncovered(slots: seq<Slot>, hash: nat -> nat, m: map<nat, nat>, place: map<nat, nat>, k: nat, v: nat)
    requires |slots| > 0 && Holds(slots, hash, m, place) && k in place && k > TOMB && place[k] < |slots|
    requires Landing(slots, Home(slots, hash, k), k, 0) < |slots| && !Clear(slots, Home(slots, hash, k), place[k])
    requires Ends(Written(slots, hash, k, v), hash, k)
    ensures var u := Erased(Written(slots, hash, k, v), hash, k);
            Ends(u, hash, k) && AnswerOf(u, hash, k) == Found(m[k])
  {
    var i := LandingSlot(slots, hash, k);
    var u := slots[i := Slot(TOMB, v)];
    assert PlacedAt(slots, hash, k, m[k], place[k]);
    LandsOnKeyIff(slots, hash, m, place, k);
    WrittenIsMet(slots, hash, k, v);
    assert Erased(Written(slots, hash, k, v), hash, k) == u;
    SearchEndsIff(slots, hash, k);
    AnswersLikeMap(slots, hash, m, place, k);
    SameStop(slots, u, Home(slots, hash, k), k, i);
  }

  // ----- Growth: everything put in again, in the order of the slots -----

  ghost predicate NoTombs(slots: seq<Slot>) { forall i :: 0 <= i < |slots| ==> slots[i].key != TOMB }

  /** What the first j slots say when later copies win. */
  function Collected(slots: seq<Slot>, j: nat): map<nat, nat>
    requires j <= |slots|
  {
    if j == 0 then map[]
    else
      var before := Collected(slots, j - 1);
      if slots[j - 1].key > TOMB then before[slots[j - 1].key := slots[j - 1].value] else before
  }

  lemma {:induction false} CollectedPart(slots: seq<Slot>, hash: nat -> nat, m: map<nat, nat>, place: map<nat, nat>, j: nat)
    requires |slots| > 0 && Holds(slots, hash, m, place) && j <= |slots|
    ensures forall k :: k in Collected(slots, j) <==> k in m && place[k] < j
    ensures forall k :: k in Collected(slots, j) ==> k in m && Collected(slots, j)[k] == m[k]
  {
    if j > 0 {
      CollectedPart(slots, hash, m, place, j - 1);
      var k := slots[j - 1].key;
      if k > TOMB {
        assert k in place && place[k] == j - 1;
        assert PlacedAt(slots, hash, k, m[k], place[k]);
      }
      forall l | l in m && place[l] == j - 1 ensures l == k && k > TOMB {
        assert PlacedAt(slots, hash, l, m[l], place[l]);
      }
    }
  }

  /** So a table that is a map is the same map after growing. */
  lemma CollectedAll(slots: seq<Slot>, hash: nat -> nat, m: map<nat, nat>, place: map<nat, nat>)
    requires |slots| > 0 && Holds(slots, hash, m, place)
    ensures Collected(slots, |slots|) == m
  {
    CollectedPart(slots, hash, m, place, |slots|);
    forall k | k in m ensures place[k] < |slots| {
      assert PlacedAt(slots, hash, k, m[k], place[k]);
    }
  }

  lemma UsedSoFar(slots: seq<Slot>, j: nat)
    requires j < |slots|
    ensures Sum(Used, slots[..j + 1]) == Sum(Used, slots[..j]) + Used(slots[j]) && Sum(Used, slots[..j]) <= j
  {
    assert slots[..j + 1] == slots[..j] + [slots[j]];
    SumAppend(Used, slots[..j], slots[j]);
    SumBound(Used, slots[..j], 1);
  }

  /** Without tombstones the load bound does leave an empty slot. */
  lemma EmptyIsLeft(slots: seq<Slot>)
    requires NoTombs(slots) && Sum(Used, slots) < |slots|
    ensures Present(slots, EMPTY)
  {
    if !Present(slots, EMPTY) {
      assert forall i :: 0 <= i < |slots| ==> Used(slots[i]) == 1;
      SumBound(Used, slots, 1);
    }
  }

  class DenseMap {
    const hash: nat -> nat
    var slots: array<Slot>
    var live: nat
    ghost var view: seq<Slot>      // what the slots hold
    ghost var m: map<nat, nat>     // what they say, while they are a map
    ghost var place: map<nat, nat>

    /** What holds after any operations whatsoever, with the load below three quarters. */
    ghost predicate Valid()
      reads this, slots
    {
      view == slots[..] && |view| > 0 && Reached(view, hash) && live == Sum(Used, view) && 4 * live < 3 * |view|
    }

    ghost predicate IsMap()
      reads this
    {
      |view| > 0 && Holds(view, hash, m, place)
    }

    constructor (capacity: nat, hash: nat -> nat)
      requires capacity > 0
      ensures Valid() && IsMap() && m == map[] && NoTombs(view) && live == 0
      ensures this.hash == hash && fresh(slots) && slots.Length == capacity
      ensures view == seq(capacity, _ => Slot(EMPTY, 0))
    {
      this.hash := hash;
      slots := new Slot[capacity](i => Slot(EMPTY, 0));
      live := 0;
      m, place := map[], map[];
      view := seq(capacity, _ => Slot(EMPTY, 0));
      SumZero(Used, seq(capacity, _ => Slot(EMPTY, 0)));
    }

    /** The loop of `find` and of `erase`. */
    method Seek(k: nat) returns (i: nat)
      requires Valid() && Ends(view, hash, k)
      ensures i == StopSlot(view, hash, k) && i < slots.Length
    {
      var size := slots.Length;
      ghost var h := Home(view, hash, k);
      ghost var d: nat := 0;
      i := hash(k) % size;
      while slots[i].key != k && slots[i].key != EMPTY
        invariant d < size && i == Around(h, d, size) && Stop(view, h, k, 0) == Stop(view, h, k, d)
        decreases size - d
      {
        NextAround(h, d, size);
        d := d + 1;
        i := (i + 1) % size;
      }
    }

    method Find(k: nat) returns (found: bool, value: nat)
      requires Valid() && k > TOMB && Ends(view, hash, k)
      ensures (if found then Found(value) else Missing) == AnswerOf(view, hash, k)
      ensures IsMap() ==> (if found then Found(value) else Missing) == Look(m, k)
    {
      var i := Seek(k);
      found, value := slots[i].key == k, slots[i].value;
      if IsMap() {
        AnswersLikeMap(view, hash, m, place, k);
      }
    }

    method Erase(k: nat)
      requires Valid() && k > TOMB && Ends(view, hash, k)
      modifies this, slots
      ensures Valid() && slots == old(slots) && view == Erased(old(view), hash, k)
      ensures old(IsMap()) ==> IsMap() && m == old(m) - {k}
      ensures Present(old(view), EMPTY) ==> Present(view, EMPTY)
    {
      var i := Seek(k);
      if IsMap() {
        EraseHolds(view, hash, m, place, k);
      }
      m, place := m - {k}, place - {k};
      if slots[i].key == k {
        Entomb(i);
      }
    }

    method Entomb(i: nat)
      requires Valid() && i < slots.Length && slots[i].key > TOMB
      modifies slots, `live, `view
      ensures Valid() && view == old(view)[i := old(view)[i].(key := TOMB)]
      ensures Present(old(view), EMPTY) ==> Present(view, EMPTY)
    {
      ghost var tomb := view[i].(key := TOMB);
      ReachedKept(view, hash, i, tomb);
      SumUpdate(Used, view, i, tomb);
      if Present(view, EMPTY) {
        var e :| 0 <= e < |view| && view[e].key == EMPTY;
        assert view[i := tomb][e].key == EMPTY;
      }
      slots[i] := slots[i].(key := TOMB);
      live := live - 1;
      view := view[i := tomb];
    }

    /** The loop of `insert`. */
    method SeekRoom(k: nat) returns (i: nat)
      requires Valid() && k > TOMB
      ensures Landing(view, Home(view, hash, k), k, 0) < |view| && i == LandingSlot(view, hash, k) && i < slots.Length
    {
      var size := slots.Length;
      ghost var h := Home(view, hash, k);
      ghost var d: nat := 0;
      InsertEnds(view, h, k);
      i := hash(k) % size;
      while !(slots[i].key <= TOMB || slots[i].key == k)
        invariant d < size && i == Around(h, d, size) && Landing(view, h, k, 0) == Landing(view, h, k, d)
        decreases size - d
      {
        NextAround(h, d, size);
        d := d + 1;
        i := (i + 1) % size;
      }
    }

    /** The test of the load. */
    predicate AtLimit()
      reads this
    {
      (live + 1) * 4 >= slots.Length * 3
    }

    /** `insert` after its test of the load. */
    method Put(k: nat, v: nat)
      requires Valid() && k > TOMB && !AtLimit()
      modifies this, slots
      ensures Valid() && slots == old(slots) && live <= old(live) + 1
      ensures Landing(old(view), Home(old(view), hash, k), k, 0) < |old(view)| && view == Written(old(view), hash, k, v)
      ensures m == old(m)[k := v]
      ensures old(IsMap()) ==> (IsMap() <==> old(Settled(view, hash, place, k)))
      ensures NoTombs(old(view)) ==> NoTombs(view)
    {
      var i := SeekRoom(k);
      LandingPath(view, hash, k);
      if IsMap() {
        UpdatedMapIff(view, hash, m, place, k, v);
      }
      m, place := m[k := v], place[k := i];
      Store(i, k, v);
    }

    method Store(i: nat, k: nat, v: nat)
      requires Valid() && k > TOMB && !AtLimit() && i < slots.Length
      requires PathTo(view, Home(view, hash, k), i) && (slots[i].key <= TOMB || slots[i].key == k)
      modifies slots, `live, `view
      ensures Valid() && live <= old(live) + 1 && view == old(view)[i := Slot(k, v)]
    {
      ReachedKept(view, hash, i, Slot(k, v));
      SumUpdate(Used, view, i, Slot(k, v));
      if slots[i].key <= TOMB {
        live := live + 1;
      }
      slots[i] := Slot(k, v);
      view := view[i := Slot(k, v)];
    }

    /** A table of twice the size with every key put in again. It is a map, whatever this one is. */
    method Rehashed() returns (n: DenseMap)
      requires Valid()
      ensures fresh(n) && fresh(n.slots) && n.hash == hash && n.slots.Length == 2 * slots.Length
      ensures n.Valid() && n.IsMap() && NoTombs(n.view) && n.m == Collected(view, |view|) && n.live <= live
    {
      n := new DenseMap(2 * slots.Length, hash);
      for j := 0 to slots.Length
        invariant n.Valid() && n.IsMap() && NoTombs(n.view) && n.m == Collected(view, j) && n.live <= Sum(Used, view[..j])
        invariant fresh(n) && fresh(n.slots) && n.slots.Length == 2 * slots.Length
      {
        UsedSoFar(view, j);
        MoveSlot(n, j);
      }
      assert view[..slots.Length] == view;
    }

    method MoveSlot(n: DenseMap, j: nat)
      requires Valid() && n.Valid() && n.IsMap() && NoTombs(n.view) && n != this && n.slots != slots && j < slots.Length
      requires n.slots.Length == 2 * slots.Length && n.m == Collected(view, j) && n.live <= j
      modifies n, n.slots
      ensures n.Valid() && n.IsMap() && NoTombs(n.view) && n.slots == old(n.slots)
      ensures n.m == Collected(view, j + 1) && n.live <= old(n.live) + Used(slots[j])
    {
      if slots[j].key > TOMB {
        n.Put(slots[j].key, slots[j].value);
      }
    }

    method Grow()
      requires Valid()
      modifies this
      ensures Valid() && IsMap() && NoTombs(view) && m == Collected(old(view), |old(view)|)
      ensures fresh(slots) && slots.Length == 2 * old(slots.Length) && live <= old(live)
    {
      var n := Rehashed();
      slots, live := n.slots, n.live;
      view, m, place := n.view, n.m, n.place;
    }

    /** `insert`, in any state. */
    method Insert(k: nat, v: nat)
      requires Valid() && k > TOMB
      modifies this, slots
      ensures Valid() && (slots == old(slots) || fresh(slots))
      ensures 4 * (old(live) + 1) >= 3 * old(slots.Length) ==> IsMap() && NoTombs(view) && m == Collected(old(view), |old(view)|)[k := v]
      ensures 4 * (old(live) + 1) < 3 * old(slots.Length) ==>
                slots == old(slots) && Landing(old(view), Home(old(view), hash, k), k, 0) < |old(view)|
                && view == Written(old(view), hash, k, v)
      ensures old(IsMap()) ==>
                && m == old(m)[k := v]
                && (IsMap() <==> 4 * (old(live) + 1) >= 3 * old(slots.Length) || old(Settled(view, hash, place, k)))
      ensures NoTombs(old(view)) ==> NoTombs(view)
    {
      if IsMap() {
        CollectedAll(view, hash, m, place);
      }
      if AtLimit() {
        Grow();
      }
      Put(k, v);
    }
  }

  // ----- Runs: all insertions, then erasures and searches -----

  datatype Entry = Entry(key: nat, value: nat)
  datatype Query = Remove(key: nat) | Lookup(key: nat)

  function Inserted(entries: seq<Entry>): map<nat, nat>
  {
    if entries == [] then map[]
    else Inserted(entries[..|entries| - 1])[entries[|entries| - 1].key := entries[|entries| - 1].value]
  }

  function Removed(m: map<nat, nat>, queries: seq<Query>): map<nat, nat>
  {
    if queries == [] then m
    else
      var q := queries[|queries| - 1];
      var before := Removed(m, queries[..|queries| - 1]);
      if q.Remove? then before - {q.key} else before
  }

  method Fill(capacity: nat, hash: nat -> nat, entries: seq<Entry>) returns (d: DenseMap)
    requires capacity > 0 && forall e :: e in entries ==> e.key > TOMB
    ensures d.Valid() && d.IsMap() && d.m == Inserted(entries) && Present(d.view, EMPTY) && fresh(d) && fresh(d.slots)
  {
    d := new DenseMap(capacity, hash);
    for j := 0 to |entries|
      invariant d.Valid() && d.IsMap() && NoTombs(d.view)
      invariant d.m == Inserted(entries[..j]) && fresh(d) && fresh(d.slots)
    {
      assert entries[j] in entries && entries[..j + 1][..j] == entries[..j];
      d.Insert(entries[j].key, entries[j].value);
    }
    assert entries[..|entries|] == entries;
    EmptyIsLeft(d.view);
  }

  ghost predicate Answered(m: map<nat, nat>, queries: seq<Query>, answers: seq<Answer>)
  {
    |answers| <= |queries| && forall j :: 0 <= j < |answers| ==> AnsweredAt(m, queries, answers, j)
  }

  ghost predicate AnsweredAt(m: map<nat, nat>, queries: seq<Query>, answers: seq<Answer>, j: nat)
    requires j < |answers| <= |queries|
  {
    answers[j] == Look(Removed(m, queries[..j]), queries[j].key)
  }

  lemma OneMoreAnswer(m: map<nat, nat>, queries: seq<Query>, answers: seq<Answer>, a: Answer)
    requires Answered(m, queries, answers) && |answers| < |queries|
    requires a == Look(Removed(m, queries[..|answers|]), queries[|answers|].key)
    ensures Answered(m, queries, answers + [a])
  {
    forall j | 0 <= j < |answers + [a]| ensures AnsweredAt(m, queries, answers + [a], j) {
      assert j < |answers| ==> AnsweredAt(m, queries, answers, j);
    }
  }

  lemma RemovedNext(m: map<nat, nat>, queries: seq<Query>, i: nat)
    requires i < |queries|
    ensures var before := Removed(m, queries[..i]);
            Removed(m, queries[..i + 1]) == if queries[i].Remove? then before - {queries[i].key} else before
    ensures queries[i] in queries
  {
    assert queries[..i + 1][..i] == queries[..i];
  }

  /** Every search of such a run answers as a map would. */
  method Run(capacity: nat, hash: nat -> nat, entries: seq<Entry>, queries: seq<Query>) returns (answers: seq<Answer>)
    requires capacity > 0
    requires (forall e :: e in entries ==> e.key > TOMB) && forall q :: q in queries ==> q.key > TOMB
    ensures |answers| == |queries| && Answered(Inserted(entries), queries, answers)
  {
    var d := Fill(capacity, hash, entries);
    ghost var m := d.m;
    answers := [];
    for i := 0 to |queries|
      invariant d.Valid() && d.IsMap() && Present(d.view, EMPTY) && d.m == Removed(m, queries[..i])
      invariant fresh(d) && fresh(d.slots)
      invariant |answers| == i && Answered(m, queries, answers)
    {
      RemovedNext(m, queries, i);
      SearchEndsIff(d.view, d.hash, queries[i].key);
      var answer := Ask(d, queries[i]);
      OneMoreAnswer(m, queries, answers, answer);
      answers := answers + [answer];
    }
  }

  method Ask(d: DenseMap, q: Query) returns (answer: Answer)
    requires d.Valid() && q.key > TOMB && Ends(d.view, d.hash, q.key)
    modifies d, d.slots
    ensures d.Valid() && d.slots == old(d.slots) && answer == AnswerOf(old(d.view), d.hash, q.key)
    ensures d.view == if q.Remove? then Erased(old(d.view), d.hash, q.key) else old(d.view)
    ensures old(d.IsMap()) ==> d.IsMap() && answer == Look(old(d.m), q.key)
    ensures old(d.IsMap()) ==> d.m == if q.Remove? then old(d.m) - {q.key} else old(d.m)
    ensures Present(old(d.view), EMPTY) ==> Present(d.view, EMPTY)
  {
    var found, value := d.Find(q.key);
    answer := if found then Found(value) else Missing;
    if q.Remove? {
      d.Erase(q.key);
    }
  }

  // ----- Runs in any order that insert only new keys and search only for held ones -----

  datatype Operation = Store(key: nat, value: nat) | Search(query: Query)

  function After(m: map<nat, nat>, op: Operation): map<nat, nat>
  {
    match op
    case Store(k, v) => m[k := v]
    case Search(Remove(k)) => m - {k}
    case Search(Lookup(_)) => m
  }

  predicate Orderly(m: map<nat, nat>, op: Operation)
  {
    match op
    case Store(k, _) => k > TOMB && k !in m
    case Search(q) => q.key > TOMB && q.key in m
  }

  function Outcome(ops: seq<Operation>): map<nat, nat>
  {
    if ops == [] then map[] else After(Outcome(ops[..|ops| - 1]), ops[|ops| - 1])
  }

  /** After every such run, however erasures and insertions alternate, the table is the map. */
  method RunInAnyOrder(capacity: nat, hash: nat -> nat, ops: seq<Operation>) returns (d: DenseMap)
    requires capacity > 0
    requires forall j :: 0 <= j < |ops| ==> Orderly(Outcome(ops[..j]), ops[j])
    ensures fresh(d) && fresh(d.slots) && d.Valid() && d.IsMap() && d.m == Outcome(ops)
  {
    d := new DenseMap(capacity, hash);
    for i := 0 to |ops|
      invariant d.Valid() && d.IsMap() && d.m == Outcome(ops[..i]) && fresh(d) && fresh(d.slots)
    {
      assert ops[..i + 1][..i] == ops[..i] && Orderly(Outcome(ops[..i]), ops[i]);
      DoOrderly(d, ops[i]);
    }
    assert ops[..|ops|] == ops;
  }

  method DoOrderly(d: DenseMap, op: Operation)
    requires d.Valid() && d.IsMap() && Orderly(d.m, op)
    modifies d, d.slots
    ensures d.Valid() && d.IsMap() && d.m == After(old(d.m), op) && (d.slots == old(d.slots) || fresh(d.slots))
  {
    match op
    case Store(k, v) => d.Insert(k, v);
    case Search(q) =>
      assert PlacedAt(d.view, d.hash, q.key, d.m[q.key], d.place[q.key]);
      SearchEndsIff(d.view, d.hash, q.key);
      var _ := Ask(d, q);
  }

  // ----- A run outside both shapes -----

  lemma LandsAt(slots: seq<Slot>, hash: nat -> nat, k: nat, i: nat)
    requires i < |slots| && Home(slots, hash, k) == 0 && (slots[i].key <= TOMB || slots[i].key == k)
    requires forall c :: 0 <= c < i ==> slots[c].key > TOMB && slots[c].key != k
    ensures Landing(slots, 0, k, 0) == i
  {
    LandingIsFirst(slots, 0, k, 0);
    assert KeyAt(slots, 0, i) == slots[i].key;
    forall c | 0 <= c < i ensures KeyAt(slots, 0, c) > TOMB && KeyAt(slots, 0, c) != k {
    }
  }

  lemma StopsAt(slots: seq<Slot>, hash: nat -> nat, k: nat, i: nat)
    requires i < |slots| && Home(slots, hash, k) == 0 && (slots[i].key == EMPTY || slots[i].key == k)
    requires forall c :: 0 <= c < i ==> slots[c].key != EMPTY && slots[c].key != k
    ensures Stop(slots, 0, k, 0) == i
  {
    StopIsFirst(slots, 0, k, 0);
    assert KeyAt(slots, 0, i) == slots[i].key;
    forall c | 0 <= c < i ensures KeyAt(slots, 0, c) != EMPTY && KeyAt(slots, 0, c) != k {
    }
  }

  lemma UsedOfFour(a: Slot, b: Slot, c: Slot, d: Slot)
    ensures Sum(Used, [a, b, c, d]) == Used(a) + Used(b) + Used(c) + Used(d)
  {
    assert [a, b, c, d] == [a] + [b] + [c] + [d];
    SumAppend(Used, [], a);
    SumAppend(Used, [a], b);
    SumAppend(Used, [a] + [b], c);
    SumAppend(Used, [a] + [b] + [c], d);
    assert [] + [a] == [a];
  }

  method FirstKey(hash: nat -> nat) returns (d: DenseMap)
    requires forall k :: hash(k) == 0
    ensures fresh(d) && fresh(d.slots) && d.Valid() && d.hash == hash && d.live == 1
    ensures d.view == [Slot(32, 0), Slot(EMPTY, 0), Slot(EMPTY, 0), Slot(EMPTY, 0)]
  {
    d := new DenseMap(4, hash);
    ghost var none := Slot(EMPTY, 0);
    UsedOfFour(Slot(32, 0), none, none, none);
    LandsAt(d.view, hash, 32, 0);
    d.Insert(32, 0);
    assert d.view == [Slot(32, 0), none, none, none];
  }

  /** Two keys with one home, the first of them erased again. */
  method EraseBeforeKey(hash: nat -> nat) returns (d: DenseMap)
    requires forall k :: hash(k) == 0
    ensures fresh(d) && fresh(d.slots) && d.Valid() && d.hash == hash && d.live == 1
    ensures d.view == [Slot(TOMB, 0), Slot(16, 7), Slot(EMPTY, 0), Slot(EMPTY, 0)]
  {
    d := FirstKey(hash);
    LandsAt(d.view, hash, 16, 1);
    d.Insert(16, 7);
    StopsAt(d.view, hash, 32, 0);
    d.Erase(32);
    UsedOfFour(Slot(TOMB, 0), Slot(16, 7), Slot(EMPTY, 0), Slot(EMPTY, 0));
    assert d.view == [Slot(TOMB, 0), Slot(16, 7), Slot(EMPTY, 0), Slot(EMPTY, 0)];
  }

  /** Key 16 is then written a second time in front of its slot, over the tombstone; erased, it is
      found with the value that was to be overwritten. */
  method StaleValue() returns (overwritten: Answer, erased: Answer)
    ensures overwritten == Found(9) && erased == Found(7)
  {
    var hash: nat -> nat := _ => 0;
    var d := EraseBeforeKey(hash);
    LandsAt(d.view, hash, 16, 0);
    d.Insert(16, 9);
    StopsAt(d.view, hash, 16, 0);
    overwritten := Ask(d, Lookup(16));
    d.Erase(16);
    StopsAt(d.view, hash, 16, 1);
    erased := Ask(d, Lookup(16));
  }
}
