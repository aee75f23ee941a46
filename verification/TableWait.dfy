/** Waiting through the global contention table: atomics share the entries of the table, and a
    waiter sleeps on its entry's `__platform_state` instead of on the atomic itself. */
module TableWait {
  import opened Arithmetic
  import opened Sums

  /** Atomic a belongs to entry slots[a]; the state of an entry counts modulo `modulus`. */
  datatype Table = Table(slots: seq<nat>, entries: nat, modulus: nat)
  {
    ghost predicate Sound() { modulus > 0 && forall a :: 0 <= a < |slots| ==> slots[a] < entries }

    function Slot(a: nat): nat { if a < |slots| then slots[a] else 0 }
  }

  /** `seen` is how many notifications the entry had when the waiter read its state, `slept` how many
      it had when the platform found the state unchanged. */
  datatype Thread =
    | Idle
    | Monitored(a: nat, seen: nat)
    | Checked(a: nat, value: int, seen: nat)
    | Enrolled(a: nat, value: int, seen: nat)
    | Asleep(a: nat, value: int, seen: nat, slept: nat)
    | Leaving(a: nat)
    | Stored(a: nat)
    | Bumped(a: nat)
    | Notifying(a: nat)

  /** `notified[e]` is the number of times the state of entry e was incremented; the state itself is
      that number modulo `modulus`. */
  datatype State = State(words: seq<int>, notified: seq<nat>, waiters: seq<nat>, threads: seq<Thread>)

  datatype Action =
    | Monitor(a: nat) | Check | GiveUp | Enroll | Sleep | WakeUp | Leave
    | Store(a: nat, value: int) | Bump | Look | Wake

  datatype Move = Move(i: nat, action: Action)

  ghost predicate WellSized(t: Table, s: State)
  {
    t.Sound() && |s.words| == |t.slots| && |s.notified| == |s.waiters| == t.entries
  }

  predicate Enabled(t: Table, th: Thread, action: Action)
  {
    match action
    case Monitor(a) => th.Idle? && a < |t.slots|
    case Check => th.Monitored?
    case GiveUp => th.Monitored? || th.Checked?
    case Enroll => th.Checked?
    case Sleep => th.Enrolled?
    case WakeUp => th.Asleep?
    case Leave => th.Leaving?
    case Store(a, _) => th.Idle? && a < |t.slots|
    case Bump => th.Stored?
    case Look => th.Bumped?
    case Wake => th.Notifying?
  }

  function AtomicOf(th: Thread): nat { if th.Idle? then 0 else th.a }

  ghost predicate CanMove(t: Table, s: State, m: Move)
  {
    && WellSized(t, s) && m.i < |s.threads| && Enabled(t, s.threads[m.i], m.action)
    && (!s.threads[m.i].Idle? ==> s.threads[m.i].a < |t.slots|)
  }

  function Become(s: State, i: nat, th: Thread): State
    requires i < |s.threads|
  {
    s.(threads := s.threads[i := th])
  }

  /** Waking by address: everybody asleep on the entry. */
  function Roused(t: Table, e: nat, th: Thread): Thread
  {
    if th.Asleep? && t.Slot(th.a) == e then Leaving(th.a) else th
  }

  function RouseAll(t: Table, e: nat, threads: seq<Thread>): (r: seq<Thread>)
    ensures |r| == |threads| && forall j :: 0 <= j < |r| ==> r[j] == Roused(t, e, threads[j])
  {
    if threads == [] then [] else [Roused(t, e, threads[0])] + RouseAll(t, e, threads[1..])
  }

  ghost function MoveOn(t: Table, s: State, m: Move): State
    requires CanMove(t, s, m)
  {
    var i, th := m.i, s.threads[m.i];
    var e := t.Slot(AtomicOf(th));
    match m.action
    case Monitor(a) => Become(s, i, Monitored(a, s.notified[t.slots[a]]))
    case Check => Become(s, i, Checked(th.a, s.words[th.a], th.seen))
    case GiveUp => Become(s, i, Idle)
    case Enroll => Become(s.(waiters := s.waiters[e := s.waiters[e] + 1]), i, Enrolled(th.a, th.value, th.seen))
    case Sleep =>
      if s.notified[e] % t.modulus == th.seen % t.modulus then Become(s, i, Asleep(th.a, th.value, th.seen, s.notified[e]))
      else Become(s, i, Leaving(th.a))
    case WakeUp => Become(s, i, Leaving(th.a))
    case Leave => Become(s.(waiters := s.waiters[e := if s.waiters[e] == 0 then 0 else s.waiters[e] - 1]), i, Idle)
    case Store(a, x) => Become(s.(words := s.words[a := x]), i, Stored(a))
    case Bump => Become(s.(notified := s.notified[e := s.notified[e] + 1]), i, Bumped(th.a))
    case Look => Become(s, i, if s.waiters[e] == 0 then Idle else Notifying(th.a))
    case Wake => Become(s.(threads := RouseAll(t, e, s.threads)), i, Idle)
  }

  // ----- The invariant -----

  function EnrolledAt(t: Table, e: nat): Thread -> nat
  {
    (th: Thread) => if (th.Enrolled? || th.Asleep? || th.Leaving?) && t.Slot(th.a) == e then 1 else 0
  }

  /** A waiter that has read the value it waits on. */
  predicate Committed(th: Thread) { th.Checked? || th.Enrolled? || th.Asleep? }

  /** Some notifier has stored to atomic a and not yet changed its entry. */
  ghost predicate StorePending(s: State, a: nat)
  {
    exists j :: 0 <= j < |s.threads| && s.threads[j] == Stored(a)
  }

  predicate WillWake(t: Table, th: Thread, e: nat) { (th.Bumped? || th.Notifying?) && t.Slot(th.a) == e }

  /** Some notifier has changed entry e and not yet woken its sleepers. */
  ghost predicate WakePending(t: Table, s: State, e: nat)
  {
    exists j :: 0 <= j < |s.threads| && WillWake(t, s.threads[j], e)
  }

  ghost predicate ThreadOk(t: Table, s: State, th: Thread)
    requires WellSized(t, s)
  {
    && (!th.Idle? ==> th.a < |t.slots|)
    && (th.Monitored? || Committed(th) ==> th.seen <= s.notified[t.Slot(th.a)])
    && (Committed(th) && s.words[th.a] != th.value && s.notified[t.Slot(th.a)] == th.seen ==> StorePending(s, th.a))
    && (th.Asleep? ==> SleepOk(t, s, th))
  }

  ghost predicate SleepOk(t: Table, s: State, th: Thread)
    requires WellSized(t, s) && th.Asleep? && th.a < |t.slots|
  {
    && th.seen <= th.slept <= s.notified[t.Slot(th.a)] && th.slept % t.modulus == th.seen % t.modulus
    && (s.notified[t.Slot(th.a)] > th.slept ==> WakePending(t, s, t.Slot(th.a)))
  }

  ghost predicate Inv(t: Table, s: State)
  {
    && WellSized(t, s)
    && (forall e :: 0 <= e < t.entries ==> s.waiters[e] == Sum(EnrolledAt(t, e), s.threads))
    && (forall j :: 0 <= j < |s.threads| ==> ThreadOk(t, s, s.threads[j]))
  }

  // ----- What a step keeps -----

  ghost predicate CountsOk(t: Table, s: State)
    requires WellSized(t, s)
  {
    forall e :: 0 <= e < t.entries ==> s.waiters[e] == Sum(EnrolledAt(t, e), s.threads)
  }

  /** The count of one entry changes by what thread i changes. */
  lemma CountsAfter(t: Table, s: State, i: nat, th: Thread, waiters: seq<nat>)
    requires WellSized(t, s) && CountsOk(t, s) && i < |s.threads| && |waiters| == t.entries
    requires forall e :: 0 <= e < t.entries ==>
               waiters[e] + EnrolledAt(t, e)(s.threads[i]) == s.waiters[e] + EnrolledAt(t, e)(th)
    ensures CountsOk(t, Become(s.(waiters := waiters), i, th))
  {
    forall e | 0 <= e < t.entries ensures waiters[e] == Sum(EnrolledAt(t, e), s.threads[i := th]) {
      SumUpdate(EnrolledAt(t, e), s.threads, i, th);
    }
  }

  /** A thread that is no notifier may become anything. */
  lemma PendingKept(t: Table, s: State, i: nat, th: Thread, a: nat, e: nat)
    requires i < |s.threads|
    ensures StorePending(s, a) && s.threads[i] != Stored(a) ==> StorePending(Become(s, i, th), a)
    ensures WakePending(t, s, e) && !WillWake(t, s.threads[i], e) ==> WakePending(t, Become(s, i, th), e)
  {
    var s' := Become(s, i, th);
    if StorePending(s, a) && s.threads[i] != Stored(a) {
      var j :| 0 <= j < |s.threads| && s.threads[j] == Stored(a);
      assert s'.threads[j] == Stored(a);
    }
    if WakePending(t, s, e) && !WillWake(t, s.threads[i], e) {
      var j :| 0 <= j < |s.threads| && WillWake(t, s.threads[j], e);
      assert WillWake(t, s'.threads[j], e);
    }
  }

  /** The moves of waiters: nothing shared changes but the waiter count. */
  predicate IsWaiterMove(action: Action)
  {
    action.Monitor? || action.Check? || action.GiveUp? || action.Enroll? || action.Sleep? || action.WakeUp? || action.Leave?
  }

  lemma WaiterKeepsCounts(t: Table, s: State, m: Move)
    requires Inv(t, s) && CanMove(t, s, m) && IsWaiterMove(m.action)
    ensures CountsOk(t, MoveOn(t, s, m))
  {
    var s' := MoveOn(t, s, m);
    var e := t.Slot(AtomicOf(s.threads[m.i]));
    if m.action.Leave? {
      SumMember(EnrolledAt(t, e), s.threads, m.i);
    }
    CountsAfter(t, s, m.i, s'.threads[m.i], s'.waiters);
  }

  lemma WaiterKeepsThreads(t: Table, s: State, m: Move)
    requires Inv(t, s) && CanMove(t, s, m) && IsWaiterMove(m.action)
    ensures Inv(t, MoveOn(t, s, m))
  {
    var s' := MoveOn(t, s, m);
    WaiterKeepsCounts(t, s, m);
    assert ThreadOk(t, s, s.threads[m.i]);
    forall j | 0 <= j < |s'.threads| ensures ThreadOk(t, s', s'.threads[j]) {
      var a := AtomicOf(s'.threads[j]);
      PendingKept(t, s, m.i, s'.threads[m.i], a, t.Slot(a));
      assert ThreadOk(t, s, s.threads[j]);
    }
  }

  lemma StoreKeepsInv(t: Table, s: State, m: Move)
    requires Inv(t, s) && CanMove(t, s, m) && m.action.Store?
    ensures Inv(t, MoveOn(t, s, m))
  {
    var s' := MoveOn(t, s, m);
    CountsAfter(t, s, m.i, s'.threads[m.i], s.waiters);
    assert s'.threads[m.i] == Stored(m.action.a);
    forall j | 0 <= j < |s'.threads| ensures ThreadOk(t, s', s'.threads[j]) {
      var a := AtomicOf(s'.threads[j]);
      PendingKept(t, s, m.i, s'.threads[m.i], a, t.Slot(a));
      assert ThreadOk(t, s, s.threads[j]);
    }
  }

  lemma BumpKeepsInv(t: Table, s: State, m: Move)
    requires Inv(t, s) && CanMove(t, s, m) && m.action.Bump?
    ensures Inv(t, MoveOn(t, s, m))
  {
    var s' := MoveOn(t, s, m);
    CountsAfter(t, s, m.i, s'.threads[m.i], s.waiters);
    assert WillWake(t, s'.threads[m.i], t.Slot(s.threads[m.i].a));
    forall j | 0 <= j < |s'.threads| ensures ThreadOk(t, s', s'.threads[j]) {
      var a := AtomicOf(s'.threads[j]);
      PendingKept(t, s, m.i, s'.threads[m.i], a, t.Slot(a));
      assert ThreadOk(t, s, s.threads[j]);
    }
  }

  /** A notifier that reads a waiter count of 0 leaves nobody asleep behind. */
  lemma NobodyAsleep(t: Table, s: State, e: nat, j: nat)
    requires Inv(t, s) && e < t.entries && s.waiters[e] == 0 && j < |s.threads| && s.threads[j].Asleep?
    ensures t.Slot(s.threads[j].a) != e
  {
    SumMember(EnrolledAt(t, e), s.threads, j);
  }

  lemma LookKeepsInv(t: Table, s: State, m: Move)
    requires Inv(t, s) && CanMove(t, s, m) && m.action.Look?
    ensures Inv(t, MoveOn(t, s, m))
  {
    var s' := MoveOn(t, s, m);
    var e := t.Slot(s.threads[m.i].a);
    CountsAfter(t, s, m.i, s'.threads[m.i], s.waiters);
    forall j | 0 <= j < |s'.threads| ensures ThreadOk(t, s', s'.threads[j]) {
      var a := AtomicOf(s'.threads[j]);
      PendingKept(t, s, m.i, s'.threads[m.i], a, t.Slot(a));
      assert ThreadOk(t, s, s.threads[j]);
      if s.threads[j].Asleep? && t.Slot(a) == e {
        if s.waiters[e] == 0 {
          NobodyAsleep(t, s, e, j);
        } else {
          assert WillWake(t, s'.threads[m.i], e);
        }
      }
    }
  }

  lemma WakeKeepsInv(t: Table, s: State, m: Move)
    requires Inv(t, s) && CanMove(t, s, m) && m.action.Wake?
    ensures Inv(t, MoveOn(t, s, m))
  {
    var e := t.Slot(s.threads[m.i].a);
    var r := s.(threads := RouseAll(t, e, s.threads));
    var s' := MoveOn(t, s, m);
    assert s' == Become(r, m.i, Idle) && r.threads[m.i] == s.threads[m.i];
    RouseKeepsCounts(t, s, e);
    CountsAfter(t, r, m.i, Idle, s.waiters);
    forall j | 0 <= j < |s'.threads| ensures ThreadOk(t, s', s'.threads[j]) {
      var a := AtomicOf(s'.threads[j]);
      RousePending(t, s, e, a, t.Slot(a));
      PendingKept(t, r, m.i, Idle, a, t.Slot(a));
      assert ThreadOk(t, s, s.threads[j]);
    }
  }

  lemma RouseKeepsCounts(t: Table, s: State, e: nat)
    requires WellSized(t, s) && CountsOk(t, s)
    ensures CountsOk(t, s.(threads := RouseAll(t, e, s.threads)))
  {
    var r := s.(threads := RouseAll(t, e, s.threads));
    forall d | 0 <= d < t.entries ensures r.waiters[d] == Sum(EnrolledAt(t, d), r.threads) {
      SumPointwise(EnrolledAt(t, d), s.threads, r.threads);
    }
  }

  lemma RousePending(t: Table, s: State, e: nat, a: nat, d: nat)
    ensures var r := s.(threads := RouseAll(t, e, s.threads));
            (StorePending(s, a) ==> StorePending(r, a)) && (WakePending(t, s, d) ==> WakePending(t, r, d))
  {
    var r := s.(threads := RouseAll(t, e, s.threads));
    if StorePending(s, a) {
      var j :| 0 <= j < |s.threads| && s.threads[j] == Stored(a);
      assert r.threads[j] == Stored(a);
    }
    if WakePending(t, s, d) {
      var j :| 0 <= j < |s.threads| && WillWake(t, s.threads[j], d);
      assert WillWake(t, r.threads[j], d);
    }
  }

  lemma MoveKeepsInv(t: Table, s: State, m: Move)
    requires Inv(t, s) && CanMove(t, s, m)
    ensures Inv(t, MoveOn(t, s, m))
  {
    match m.action
    case Store(_, _) => StoreKeepsInv(t, s, m);
    case Bump => BumpKeepsInv(t, s, m);
    case Look => LookKeepsInv(t, s, m);
    case Wake => WakeKeepsInv(t, s, m);
    case _ => WaiterKeepsThreads(t, s, m);
  }

  // ----- Runs -----

  ghost predicate IsInitial(t: Table, s: State)
  {
    && WellSized(t, s)
    && (forall e :: 0 <= e < t.entries ==> s.notified[e] == s.waiters[e] == 0)
    && (forall j :: 0 <= j < |s.threads| ==> s.threads[j].Idle?)
  }

  ghost predicate IsRun(t: Table, s: State, moves: seq<Move>, u: State)
    decreases |moves|
  {
    if moves == [] then u == s
    else CanMove(t, s, moves[0]) && IsRun(t, MoveOn(t, s, moves[0]), moves[1..], u)
  }

  lemma {:induction false} RunKeepsInv(t: Table, s: State, moves: seq<Move>, u: State)
    requires Inv(t, s) && IsRun(t, s, moves, u)
    ensures Inv(t, u)
    decreases |moves|
  {
    if moves != [] {
      MoveKeepsInv(t, s, moves[0]);
      RunKeepsInv(t, MoveOn(t, s, moves[0]), moves[1..], u);
    }
  }

  lemma InitialInv(t: Table, s: State)
    requires IsInitial(t, s)
    ensures Inv(t, s)
  {
    forall e | 0 <= e < t.entries ensures s.waiters[e] == Sum(EnrolledAt(t, e), s.threads) {
      SumZero(EnrolledAt(t, e), s.threads);
    }
  }

  /** No lost wake-up: while a waiter sleeps on a value that has changed, a notifier of that atomic is
      still to change the entry, or one of the entry is still to wake its sleepers. It takes fewer
      notifications than the state can count between the waiter's look at the state and its sleep. */
  lemma NoLostWakeUp(t: Table, s0: State, moves: seq<Move>, s: State, j: nat)
    requires IsInitial(t, s0) && IsRun(t, s0, moves, s)
    requires j < |s.threads| && s.threads[j].Asleep?
    requires s.threads[j].a < |s.words| && s.words[s.threads[j].a] != s.threads[j].value
    requires s.threads[j].slept - s.threads[j].seen < t.modulus
    ensures StorePending(s, s.threads[j].a) || WakePending(t, s, t.Slot(s.threads[j].a))
  {
    InitialInv(t, s0);
    RunKeepsInv(t, s0, moves, s);
    var th := s.threads[j];
    assert ThreadOk(t, s, th) && SleepOk(t, s, th);
    SameResidue(th.seen, th.slept, t.modulus);
  }

  lemma SameResidue(m: nat, n: nat, w: nat)
    requires w > 0 && m <= n && n - m < w && m % w == n % w
    ensures m == n
  {
    var p, q := m / w, n / w;
    assert m == w * p + m % w && n == w * q + n % w;
    TimesSuccessor(w, p);
    TimesSuccessor(w, q);
    if p < q {
      TimesMonotone(w, p + 1, q);
    } else if q < p {
      TimesMonotone(w, q + 1, p);
    }
  }

  // ----- With more notifications than that, it can be lost -----

  function Single(modulus: nat): Table { Table([0], 1, modulus) }

  /** A waiter has read state 0 and value 0; n notifications later. */
  function Notified(n: nat): State
  {
    State([if n == 0 then 0 else 1], [n], [0], [Checked(0, 0, 0), Idle])
  }

  lemma {:induction false} RunsCompose(t: Table, s: State, ms: seq<Move>, u: State, ns: seq<Move>, v: State)
    requires IsRun(t, s, ms, u) && IsRun(t, u, ns, v)
    ensures IsRun(t, s, ms + ns, v)
    decreases |ms|
  {
    if ms == [] {
      assert ms + ns == ns;
    } else {
      assert (ms + ns)[1..] == ms[1..] + ns;
      RunsCompose(t, MoveOn(t, s, ms[0]), ms[1..], u, ns, v);
    }
  }

  lemma Extend(t: Table, s: State, ms: seq<Move>, u: State, m: Move) returns (ms': seq<Move>)
    requires IsRun(t, s, ms, u) && CanMove(t, u, m)
    ensures IsRun(t, s, ms', MoveOn(t, u, m))
  {
    assert [m][1..] == [];
    RunsCompose(t, s, ms, u, [m], MoveOn(t, u, m));
    ms' := ms + [m];
  }

  /** The same with thread 1 at some point of its next notification. */
  function Midway(n: nat, th: Thread): State { State([1], [n], [0], [Checked(0, 0, 0), th]) }

  lemma StepsOfNotification(w: nat, n: nat)
    requires w > 0
    ensures CanMove(Single(w), Notified(n), Move(1, Store(0, 1)))
    ensures MoveOn(Single(w), Notified(n), Move(1, Store(0, 1))) == Midway(n, Stored(0))
  {
  }

  lemma StepsAfterStore(w: nat, n: nat)
    requires w > 0
    ensures CanMove(Single(w), Midway(n, Stored(0)), Move(1, Bump))
    ensures MoveOn(Single(w), Midway(n, Stored(0)), Move(1, Bump)) == Midway(n + 1, Bumped(0))
    ensures CanMove(Single(w), Midway(n, Bumped(0)), Move(1, Look))
    ensures MoveOn(Single(w), Midway(n, Bumped(0)), Move(1, Look)) == Midway(n, Idle)
  {
  }

  /** One store and its whole notification, with nobody enrolled. */
  lemma OneNotification(w: nat, s: State, ms: seq<Move>, n: nat) returns (ms': seq<Move>)
    requires w > 0 && IsRun(Single(w), s, ms, Notified(n))
    ensures IsRun(Single(w), s, ms', Notified(n + 1))
  {
    StepsOfNotification(w, n);
    StepsAfterStore(w, n);
    StepsAfterStore(w, n + 1);
    ms' := Extend(Single(w), s, ms, Notified(n), Move(1, Store(0, 1)));
    ms' := Extend(Single(w), s, ms', Midway(n, Stored(0)), Move(1, Bump));
    ms' := Extend(Single(w), s, ms', Midway(n + 1, Bumped(0)), Move(1, Look));
    assert Midway(n + 1, Idle) == Notified(n + 1);
  }

  lemma {:induction false} Notifications(w: nat, s: State, ms: seq<Move>, n: nat) returns (ms': seq<Move>)
    requires w > 0 && IsRun(Single(w), s, ms, Notified(0))
    ensures IsRun(Single(w), s, ms', Notified(n))
  {
    if n == 0 {
      ms' := ms;
    } else {
      ms' := Notifications(w, s, ms, n - 1);
      ms' := OneNotification(w, s, ms', n - 1);
    }
  }

  lemma FirstSteps(w: nat)
    requires w > 0
    ensures var s0 := State([0], [0], [0], [Idle, Idle]);
            && CanMove(Single(w), s0, Move(0, Monitor(0)))
            && MoveOn(Single(w), s0, Move(0, Monitor(0))) == State([0], [0], [0], [Monitored(0, 0), Idle])
  {
  }

  lemma SecondSteps(w: nat)
    requires w > 0
    ensures var s1 := State([0], [0], [0], [Monitored(0, 0), Idle]);
            CanMove(Single(w), s1, Move(0, Check)) && MoveOn(Single(w), s1, Move(0, Check)) == Notified(0)
  {
  }

  lemma LastSteps(w: nat)
    requires w > 0
    ensures var u := State([1], [w], [1], [Enrolled(0, 0, 0), Idle]);
            && CanMove(Single(w), Notified(w), Move(0, Enroll)) && MoveOn(Single(w), Notified(w), Move(0, Enroll)) == u
            && CanMove(Single(w), u, Move(0, Sleep))
            && MoveOn(Single(w), u, Move(0, Sleep)) == State([1], [w], [1], [Asleep(0, 0, 0, w), Idle])
  {
    Euclid(w, w, 1, 0);
  }

  lemma WaiterLooks(w: nat) returns (moves: seq<Move>)
    requires w > 0
    ensures IsRun(Single(w), State([0], [0], [0], [Idle, Idle]), moves, Notified(0))
  {
    var s0 := State([0], [0], [0], [Idle, Idle]);
    FirstSteps(w);
    SecondSteps(w);
    moves := Extend(Single(w), s0, [], s0, Move(0, Monitor(0)));
    moves := Extend(Single(w), s0, moves, State([0], [0], [0], [Monitored(0, 0), Idle]), Move(0, Check));
  }

  lemma WaiterSleeps(w: nat, s0: State, ms: seq<Move>) returns (moves: seq<Move>)
    requires w > 0 && IsRun(Single(w), s0, ms, Notified(w))
    ensures IsRun(Single(w), s0, moves, State([1], [w], [1], [Asleep(0, 0, 0, w), Idle]))
  {
    LastSteps(w);
    moves := Extend(Single(w), s0, ms, Notified(w), Move(0, Enroll));
    moves := Extend(Single(w), s0, moves, State([1], [w], [1], [Enrolled(0, 0, 0), Idle]), Move(0, Sleep));
  }

  /** After exactly `modulus` notifications the state reads as before: the waiter goes to sleep on a
      value that has changed, and nobody is left to wake it. */
  lemma WrapLosesWakeUp(w: nat) returns (s0: State, moves: seq<Move>, s: State)
    requires w > 0
    ensures IsInitial(Single(w), s0) && IsRun(Single(w), s0, moves, s)
    ensures s.threads == [Asleep(0, 0, 0, w), Idle] && s.words == [1]
    ensures !StorePending(s, 0) && !WakePending(Single(w), s, 0)
  {
    s0 := State([0], [0], [0], [Idle, Idle]);
    moves := WaiterLooks(w);
    moves := Notifications(w, s0, moves, w);
    moves := WaiterSleeps(w, s0, moves);
    s := State([1], [w], [1], [Asleep(0, 0, 0, w), Idle]);
    NobodyPending(w, s);
  }

  lemma NobodyPending(w: nat, s: State)
    requires |s.threads| == 2 && s.threads[0].Asleep? && s.threads[1].Idle?
    ensures !StorePending(s, 0) && !WakePending(Single(w), s, 0)
  {
  }

  // ----- What the steps come to -----

  /** A store changes the word of its atomic, and nothing else changes a word; a notification changes the
      state of the atomic's entry, and nothing else changes a state. */
  lemma OnlyNotifiersChangeMemory(t: Table, s: State, m: Move)
    requires CanMove(t, s, m)
    ensures MoveOn(t, s, m).words == if m.action.Store? then s.words[m.action.a := m.action.value] else s.words
    ensures MoveOn(t, s, m).notified ==
            if m.action.Bump? then var e := t.slots[s.threads[m.i].a]; s.notified[e := s.notified[e] + 1] else s.notified
    ensures |MoveOn(t, s, m).threads| == |s.threads|
  {
  }

  /** A waiter reads the state of the entry, then the value, and sleeps exactly if the state, as the
      platform sees it, is still the one it has read. */
  lemma SleepsIffUnchanged(t: Table, s: State, m: Move)
    requires CanMove(t, s, m)
    ensures m.action.Monitor? ==> MoveOn(t, s, m).threads[m.i] == Monitored(m.action.a, s.notified[t.slots[m.action.a]])
    ensures m.action.Check? ==>
              var th := s.threads[m.i]; MoveOn(t, s, m).threads[m.i] == Checked(th.a, s.words[th.a], th.seen)
    ensures m.action.Enroll? ==>
              var th := s.threads[m.i]; MoveOn(t, s, m).threads[m.i] == Enrolled(th.a, th.value, th.seen)
    ensures m.action.Sleep? ==>
              var th, e := s.threads[m.i], t.slots[s.threads[m.i].a];
              MoveOn(t, s, m).threads[m.i] ==
                if s.notified[e] % t.modulus == th.seen % t.modulus then Asleep(th.a, th.value, th.seen, s.notified[e])
                else Leaving(th.a)
  {
  }

  /** A pending notifier wakes every sleeper of its entry by its own next steps, whichever atomic the
      sleeper waits on. */
  lemma NotifierWakesSleepers(t: Table, s: State, i: nat, j: nat)
    requires Inv(t, s) && i < |s.threads| && j < |s.threads| && s.threads[j].Asleep?
    requires s.threads[i].Stored? || s.threads[i].Bumped? || s.threads[i].Notifying?
    requires s.threads[i].a < |t.slots| && s.threads[j].a < |t.slots| && t.slots[s.threads[i].a] == t.slots[s.threads[j].a]
    ensures var a := s.threads[i].a;
            var s1 := if s.threads[i].Stored? then MoveOn(t, s, Move(i, Bump)) else s;
            && (s1.threads[i] == Bumped(a) || s1.threads[i] == Notifying(a))
            && var s2 := if s1.threads[i].Bumped? then MoveOn(t, s1, Move(i, Look)) else s1;
               s2.threads[i] == Notifying(a) && MoveOn(t, s2, Move(i, Wake)).threads[j] == Leaving(s.threads[j].a)
  {
    SumMember(EnrolledAt(t, t.Slot(s.threads[j].a)), s.threads, j);
  }

  /** No thread is ever stuck: an idle one may wait on or notify any atomic, and any other has a next step. */
  lemma NobodyIsStuck(t: Table, s: State, i: nat, a: nat, x: int)
    requires Inv(t, s) && i < |s.threads| && a < |t.slots|
    ensures match s.threads[i]
            case Idle => CanMove(t, s, Move(i, Monitor(a))) && CanMove(t, s, Move(i, Store(a, x)))
            case Monitored(_, _) => CanMove(t, s, Move(i, Check)) && CanMove(t, s, Move(i, GiveUp))
            case Checked(_, _, _) => CanMove(t, s, Move(i, Enroll)) && CanMove(t, s, Move(i, GiveUp))
            case Enrolled(_, _, _) => CanMove(t, s, Move(i, Sleep))
            case Asleep(_, _, _, _) => CanMove(t, s, Move(i, WakeUp))
            case Leaving(_) => CanMove(t, s, Move(i, Leave)) && MoveOn(t, s, Move(i, Leave)).threads[i] == Idle
            case Stored(_) => CanMove(t, s, Move(i, Bump))
            case Bumped(_) => CanMove(t, s, Move(i, Look))
            case Notifying(_) => CanMove(t, s, Move(i, Wake)) && MoveOn(t, s, Move(i, Wake)).threads[i] == Idle
  {
    assert ThreadOk(t, s, s.threads[i]);
  }
}
