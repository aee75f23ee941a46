/** Waiting on the atomic's own word: the waiter count of its table entry only tells a notifier
    whether to wake anybody. */
module NativeWait {
  import opened Sums

  datatype Thread =
    | Idle
    | Checked(a: nat, value: int)
    | Enrolled(a: nat, value: int)
    | Asleep(a: nat, value: int)
    | Leaving(a: nat)
    | Stored(a: nat)
    | Notifying(a: nat)

  /** Atomic a is counted in entry slots[a]; different atomics may share an entry. */
  datatype State = State(slots: seq<nat>, words: seq<int>, waiters: seq<nat>, threads: seq<Thread>)
  {
    function Slot(a: nat): nat { if a < |slots| then slots[a] else 0 }
  }

  datatype Action = Check(a: nat) | GiveUp | Enroll | Sleep | WakeUp | Leave | Store(a: nat, value: int) | Look | Wake

  datatype Move = Move(i: nat, action: Action)

  ghost predicate WellSized(s: State)
  {
    |s.words| == |s.slots| && forall a :: 0 <= a < |s.slots| ==> s.slots[a] < |s.waiters|
  }

  predicate Enabled(s: State, th: Thread, action: Action)
  {
    match action
    case Check(a) => th.Idle? && a < |s.slots|
    case GiveUp => th.Checked?
    case Enroll => th.Checked?
    case Sleep => th.Enrolled?
    case WakeUp => th.Asleep?
    case Leave => th.Leaving?
    case Store(a, _) => th.Idle? && a < |s.slots|
    case Look => th.Stored?
    case Wake => th.Notifying?
  }

  function AtomicOf(th: Thread): nat { if th.Idle? then 0 else th.a }

  ghost predicate CanMove(s: State, m: Move)
  {
    && WellSized(s) && m.i < |s.threads| && Enabled(s, s.threads[m.i], m.action)
    && (!s.threads[m.i].Idle? ==> s.threads[m.i].a < |s.slots|)
  }

  function Become(s: State, i: nat, th: Thread): State
    requires i < |s.threads|
  {
    s.(threads := s.threads[i := th])
  }

  function Roused(a: nat, th: Thread): Thread { if th.Asleep? && th.a == a then Leaving(a) else th }

  function RouseAll(a: nat, threads: seq<Thread>): (r: seq<Thread>)
    ensures |r| == |threads| && forall j :: 0 <= j < |r| ==> r[j] == Roused(a, threads[j])
  {
    if threads == [] then [] else [Roused(a, threads[0])] + RouseAll(a, threads[1..])
  }

  ghost function MoveOn(s: State, m: Move): State
    requires CanMove(s, m)
  {
    var i, th := m.i, s.threads[m.i];
    var e := s.Slot(AtomicOf(th));
    match m.action
    case Check(a) => Become(s, i, Checked(a, s.words[a]))
    case GiveUp => Become(s, i, Idle)
    case Enroll => Become(s.(waiters := s.waiters[e := s.waiters[e] + 1]), i, Enrolled(th.a, th.value))
    case Sleep => Become(s, i, if s.words[th.a] == th.value then Asleep(th.a, th.value) else Leaving(th.a))
    case WakeUp => Become(s, i, Leaving(th.a))
    case Leave => Become(s.(waiters := s.waiters[e := if s.waiters[e] == 0 then 0 else s.waiters[e] - 1]), i, Idle)
    case Store(a, x) => Become(s.(words := s.words[a := x]), i, Stored(a))
    case Look => Become(s, i, if s.waiters[e] == 0 then Idle else Notifying(th.a))
    case Wake => Become(s.(threads := RouseAll(th.a, s.threads)), i, Idle)
  }

  // ----- The invariant -----

  function EnrolledAt(slots: seq<nat>, e: nat): Thread -> nat
  {
    (th: Thread) => if (th.Enrolled? || th.Asleep? || th.Leaving?) && th.a < |slots| && slots[th.a] == e then 1 else 0
  }

  predicate WillWake(th: Thread, a: nat) { (th.Stored? || th.Notifying?) && th.a == a }

  /** Some notifier is between its store to atomic a and its wake. */
  ghost predicate Pending(s: State, a: nat)
  {
    exists j :: 0 <= j < |s.threads| && WillWake(s.threads[j], a)
  }

  ghost predicate ThreadOk(s: State, th: Thread)
    requires WellSized(s)
  {
    !th.Idle? ==> th.a < |s.slots| && (th.Asleep? && s.words[th.a] != th.value ==> Pending(s, th.a))
  }

  ghost predicate CountsOk(s: State)
  {
    forall e :: 0 <= e < |s.waiters| ==> s.waiters[e] == Sum(EnrolledAt(s.slots, e), s.threads)
  }

  ghost predicate Inv(s: State)
  {
    WellSized(s) && CountsOk(s) && forall j :: 0 <= j < |s.threads| ==> ThreadOk(s, s.threads[j])
  }

  lemma CountsAfter(s: State, i: nat, th: Thread, waiters: seq<nat>)
    requires CountsOk(s) && i < |s.threads| && |waiters| == |s.waiters|
    requires forall e :: 0 <= e < |waiters| ==>
               waiters[e] + EnrolledAt(s.slots, e)(s.threads[i]) == s.waiters[e] + EnrolledAt(s.slots, e)(th)
    ensures CountsOk(Become(s.(waiters := waiters), i, th))
  {
    forall e | 0 <= e < |waiters| ensures waiters[e] == Sum(EnrolledAt(s.slots, e), s.threads[i := th]) {
      SumUpdate(EnrolledAt(s.slots, e), s.threads, i, th);
    }
  }

  lemma PendingKept(s: State, i: nat, th: Thread, a: nat)
    requires i < |s.threads| && Pending(s, a) && !WillWake(s.threads[i], a)
    ensures Pending(Become(s, i, th), a)
  {
    var j :| 0 <= j < |s.threads| && WillWake(s.threads[j], a);
    assert WillWake(Become(s, i, th).threads[j], a);
  }

  lemma PlainMoveKeepsInv(s: State, m: Move)
    requires Inv(s) && CanMove(s, m) && !m.action.Look? && !m.action.Wake?
    ensures Inv(MoveOn(s, m))
  {
    var s' := MoveOn(s, m);
    var e := s.Slot(AtomicOf(s.threads[m.i]));
    if m.action.Leave? {
      SumMember(EnrolledAt(s.slots, e), s.threads, m.i);
    }
    CountsAfter(s, m.i, s'.threads[m.i], s'.waiters);
    forall j | 0 <= j < |s'.threads| ensures ThreadOk(s', s'.threads[j]) {
      assert ThreadOk(s, s.threads[j]);
      var a := AtomicOf(s'.threads[j]);
      assert m.action.Store? ==> WillWake(s'.threads[m.i], m.action.a);
      if Pending(s, a) {
        PendingKept(s, m.i, s'.threads[m.i], a);
      }
    }
  }

  /** A notifier that reads a waiter count of 0 has nobody to wake. */
  lemma LookKeepsInv(s: State, m: Move)
    requires Inv(s) && CanMove(s, m) && m.action.Look?
    ensures Inv(MoveOn(s, m))
  {
    var s' := MoveOn(s, m);
    var b := s.threads[m.i].a;
    CountsAfter(s, m.i, s'.threads[m.i], s.waiters);
    forall j | 0 <= j < |s'.threads| ensures ThreadOk(s', s'.threads[j]) {
      assert ThreadOk(s, s.threads[j]);
      var a := AtomicOf(s'.threads[j]);
      if a != b {
        if Pending(s, a) {
          PendingKept(s, m.i, s'.threads[m.i], a);
        }
      } else if s.threads[j].Asleep? {
        SumMember(EnrolledAt(s.slots, s.Slot(b)), s.threads, j);
        assert WillWake(s'.threads[m.i], a);
      }
    }
  }

  lemma WakeKeepsInv(s: State, m: Move)
    requires Inv(s) && CanMove(s, m) && m.action.Wake?
    ensures Inv(MoveOn(s, m))
  {
    var b := s.threads[m.i].a;
    var r := s.(threads := RouseAll(b, s.threads));
    var s' := MoveOn(s, m);
    forall e | 0 <= e < |s.waiters| ensures r.waiters[e] == Sum(EnrolledAt(s.slots, e), r.threads) {
      SumPointwise(EnrolledAt(s.slots, e), s.threads, r.threads);
    }
    assert r.threads[m.i] == s.threads[m.i];
    CountsAfter(r, m.i, Idle, s.waiters);
    forall j | 0 <= j < |s'.threads| ensures ThreadOk(s', s'.threads[j]) {
      assert ThreadOk(s, s.threads[j]);
      var a := AtomicOf(s'.threads[j]);
      if a != b && Pending(s, a) {
        var k :| 0 <= k < |s.threads| && WillWake(s.threads[k], a);
        assert WillWake(s'.threads[k], a);
      }
    }
  }

  lemma MoveKeepsInv(s: State, m: Move)
    requires Inv(s) && CanMove(s, m)
    ensures Inv(MoveOn(s, m))
  {
    match m.action
    case Look => LookKeepsInv(s, m);
    case Wake => WakeKeepsInv(s, m);
    case _ => PlainMoveKeepsInv(s, m);
  }

  // ----- Runs -----

  ghost predicate IsInitial(s: State)
  {
    && WellSized(s)
    && (forall e :: 0 <= e < |s.waiters| ==> s.waiters[e] == 0)
    && (forall j :: 0 <= j < |s.threads| ==> s.threads[j].Idle?)
  }

  ghost predicate IsRun(s: State, moves: seq<Move>, u: State)
    decreases |moves|
  {
    if moves == [] then u == s
    else CanMove(s, moves[0]) && IsRun(MoveOn(s, moves[0]), moves[1..], u)
  }

  lemma {:induction false} RunKeepsInv(s: State, moves: seq<Move>, u: State)
    requires Inv(s) && IsRun(s, moves, u)
    ensures Inv(u)
    decreases |moves|
  {
    if moves != [] {
      MoveKeepsInv(s, moves[0]);
      RunKeepsInv(MoveOn(s, moves[0]), moves[1..], u);
    }
  }

  /** No lost wake-up: while a waiter sleeps on a value that has changed, a notifier of the atomic is
      between its store and its wake. */
  lemma NoLostWakeUp(s0: State, moves: seq<Move>, s: State, j: nat)
    requires IsInitial(s0) && IsRun(s0, moves, s) && j < |s.threads| && s.threads[j].Asleep?
    requires s.threads[j].a < |s.words| && s.words[s.threads[j].a] != s.threads[j].value
    ensures Pending(s, s.threads[j].a)
  {
    forall e | 0 <= e < |s0.waiters| ensures s0.waiters[e] == Sum(EnrolledAt(s0.slots, e), s0.threads) {
      SumZero(EnrolledAt(s0.slots, e), s0.threads);
    }
    RunKeepsInv(s0, moves, s);
    assert ThreadOk(s, s.threads[j]);
  }

  // ----- What the steps come to -----

  /** A store changes the word of its atomic, and nothing else changes a word. */
  lemma OnlyStoresChangeWords(s: State, m: Move)
    requires CanMove(s, m)
    ensures MoveOn(s, m).words == if m.action.Store? then s.words[m.action.a := m.action.value] else s.words
    ensures MoveOn(s, m).slots == s.slots && |MoveOn(s, m).threads| == |s.threads|
  {
  }

  /** A waiter remembers the value it has read, and sleeps exactly if the word still has it. */
  lemma SleepsIffUnchanged(s: State, m: Move)
    requires CanMove(s, m)
    ensures m.action.Check? ==> MoveOn(s, m).threads[m.i] == Checked(m.action.a, s.words[m.action.a])
    ensures m.action.Enroll? ==>
              MoveOn(s, m).threads[m.i] == Enrolled(s.threads[m.i].a, s.threads[m.i].value)
    ensures m.action.Sleep? ==>
              var th := s.threads[m.i];
              MoveOn(s, m).threads[m.i] == if s.words[th.a] == th.value then Asleep(th.a, th.value) else Leaving(th.a)
  {
  }

  /** The notifier that is pending wakes every sleeper of its atomic by its own next steps. */
  lemma NotifierWakesSleepers(s: State, i: nat, j: nat)
    requires Inv(s) && i < |s.threads| && j < |s.threads| && s.threads[j].Asleep? && WillWake(s.threads[i], s.threads[j].a)
    ensures var a := s.threads[j].a;
            var s1 := if s.threads[i].Stored? then MoveOn(s, Move(i, Look)) else s;
            s1.threads[i] == Notifying(a) && MoveOn(s1, Move(i, Wake)).threads[j] == Leaving(a)
  {
    var a := s.threads[j].a;
    assert ThreadOk(s, s.threads[j]) && ThreadOk(s, s.threads[i]);
    SumMember(EnrolledAt(s.slots, s.Slot(a)), s.threads, j);
  }

  /** No thread is ever stuck: an idle one may wait on or notify any atomic, and any other has a next step. */
  lemma NobodyIsStuck(s: State, i: nat, a: nat, x: int)
    requires Inv(s) && i < |s.threads| && a < |s.slots|
    ensures var th := s.threads[i];
            match th
            case Idle => CanMove(s, Move(i, Check(a))) && CanMove(s, Move(i, Store(a, x)))
            case Checked(_, _) => CanMove(s, Move(i, Enroll)) && CanMove(s, Move(i, GiveUp))
            case Enrolled(_, _) => CanMove(s, Move(i, Sleep))
            case Asleep(_, _) => CanMove(s, Move(i, WakeUp))
            case Leaving(_) => CanMove(s, Move(i, Leave)) && MoveOn(s, Move(i, Leave)).threads[i] == Idle
            case Stored(_) => CanMove(s, Move(i, Look))
            case Notifying(_) => CanMove(s, Move(i, Wake)) && MoveOn(s, Move(i, Wake)).threads[i] == Idle
  {
    assert ThreadOk(s, s.threads[i]);
  }
}
