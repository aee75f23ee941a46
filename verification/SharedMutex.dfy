/** `__shared_mutex_base`: one word under a mutex, two gates, any number of threads. Each critical
    section of the mutex is one step; a notification made after the mutex is released is another. */
module SharedMutex {
  import opened Arithmetic
  import opened Sums

  /** `__write_entered_` is the top bit of the word and `__n_readers_` all the bits below it. */
  datatype Word = Word(writeEntered: nat)
  {
    predicate Sound() { writeEntered >= 2 }

    function Most(): nat requires Sound() { writeEntered - 1 }      // __n_readers_, as a count

    predicate HasWriter(state: nat) requires Sound() { state / writeEntered % 2 == 1 }

    function Readers(state: nat): nat requires Sound() { state % writeEntered }

    /** `state & ~__n_readers_ | readers` */
    function WithReaders(state: nat, readers: nat): nat
      requires Sound()
    {
      (if HasWriter(state) then writeEntered else 0) + readers
    }
  }

  datatype Thread =
    | Out
    | Locking | LockingShared                // at the test of gate 1
    | AtGate1(shared: bool)                  // asleep there
    | AtGate2                                // asleep there, with the write bit set
    | Leaving2                               // awake at gate 2, before its test
    | Writer | Reader
    | Signal1 | SignalAll1 | Signal2         // released, about to notify a gate

  datatype State = State(word: nat, threads: seq<Thread>)

  datatype Action =
    | Lock | TryLock | LockShared | TryLockShared | Unlock | UnlockShared
    | Test                                   // of the gate the thread is at
    | WakeUp                                 // spuriously
    | Notify(j: nat)                         // with j the thread a notify_one picks

  datatype Move = Move(i: nat, action: Action)

  predicate Enabled(th: Thread, action: Action)
  {
    match action
    case Lock => th.Out?
    case TryLock => th.Out?
    case LockShared => th.Out?
    case TryLockShared => th.Out?
    case Unlock => th.Writer?
    case UnlockShared => th.Reader?
    case Test => th.Locking? || th.LockingShared? || th.Leaving2?
    case WakeUp => th.AtGate1? || th.AtGate2?
    case Notify(_) => th.Signal1? || th.SignalAll1? || th.Signal2?
  }

  /** What a woken thread goes on with. */
  function Woken(th: Thread): Thread
  {
    match th
    case AtGate1(shared) => if shared then LockingShared else Locking
    case AtGate2 => Leaving2
    case _ => th
  }

  function Waked1(th: Thread): Thread { if th.AtGate1? then Woken(th) else th }

  function WakeGate1(threads: seq<Thread>): (r: seq<Thread>)
    ensures |r| == |threads| && forall j :: 0 <= j < |r| ==> r[j] == Waked1(threads[j])
  {
    if threads == [] then [] else [Waked1(threads[0])] + WakeGate1(threads[1..])
  }

  function Become(s: State, i: nat, th: Thread): State
    requires i < |s.threads|
  {
    s.(threads := s.threads[i := th])
  }

  /** Both loops of `lock`, or of `lock_shared`, up to where the thread sleeps or holds the lock. */
  function TestGate(w: Word, s: State, i: nat): State
    requires w.Sound() && i < |s.threads| && Enabled(s.threads[i], Test)
  {
    match s.threads[i]
    case Locking =>
      if w.HasWriter(s.word) then Become(s, i, AtGate1(false))
      else Become(s.(word := s.word + w.writeEntered), i, if w.Readers(s.word) > 0 then AtGate2 else Writer)
    case LockingShared =>
      if w.HasWriter(s.word) || w.Readers(s.word) == w.Most() then Become(s, i, AtGate1(true))
      else Become(s.(word := w.WithReaders(s.word, w.Readers(s.word) + 1)), i, Reader)
    case Leaving2 => Become(s, i, if w.Readers(s.word) > 0 then AtGate2 else Writer)
  }

  predicate AtGate(th: Thread, second: bool) { if second then th.AtGate2? else th.AtGate1? }

  /** `notify_one` picks some sleeper of the gate, if there is one. */
  ghost predicate Picks(s: State, second: bool, j: nat)
  {
    (exists k :: 0 <= k < |s.threads| && AtGate(s.threads[k], second)) ==> j < |s.threads| && AtGate(s.threads[j], second)
  }

  ghost predicate CanMove(s: State, m: Move)
  {
    && m.i < |s.threads| && Enabled(s.threads[m.i], m.action)
    && (m.action.Notify? && !s.threads[m.i].SignalAll1? ==> Picks(s, s.threads[m.i].Signal2?, m.action.j))
  }

  function NotifyGate(s: State, i: nat, j: nat): State
    requires i < |s.threads| && Enabled(s.threads[i], Notify(j))
  {
    var th := s.threads[i];
    if th.SignalAll1? then Become(s.(threads := WakeGate1(s.threads)), i, Out)
    else if j < |s.threads| && AtGate(s.threads[j], th.Signal2?)
    then Become(Become(s, j, Woken(s.threads[j])), i, Out)
    else Become(s, i, Out)
  }

  function ReleaseShared(w: Word, s: State, i: nat): State
    requires w.Sound() && i < |s.threads|
  {
    var left := if w.Readers(s.word) == 0 then w.Most() else w.Readers(s.word) - 1;
    var s' := s.(word := w.WithReaders(s.word, left));
    if w.HasWriter(s'.word) then Become(s', i, if left == 0 then Signal2 else Out)
    else Become(s', i, if left == w.Most() - 1 then Signal1 else Out)
  }

  ghost function MoveOn(w: Word, s: State, m: Move): State
    requires w.Sound() && CanMove(s, m)
  {
    match m.action
    case Lock => Become(s, m.i, Locking)
    case TryLock => if s.word == 0 then Become(s.(word := w.writeEntered), m.i, Writer) else s
    case LockShared => Become(s, m.i, LockingShared)
    case TryLockShared =>
      if !w.HasWriter(s.word) && w.Readers(s.word) != w.Most()
      then Become(s.(word := w.WithReaders(s.word, w.Readers(s.word) + 1)), m.i, Reader) else s
    case Unlock => Become(s.(word := 0), m.i, SignalAll1)
    case UnlockShared => ReleaseShared(w, s, m.i)
    case Test => TestGate(w, s, m.i)
    case WakeUp => Become(s, m.i, Woken(s.threads[m.i]))
    case Notify(j) => NotifyGate(s, m.i, j)
  }

  // ----- The invariant -----

  function ReaderOf(th: Thread): nat { if th.Reader? then 1 else 0 }
  function BitOf(th: Thread): nat { if th.Writer? || th.AtGate2? || th.Leaving2? then 1 else 0 }

  ghost predicate SignalPending(s: State) { exists k :: 0 <= k < |s.threads| && s.threads[k].Signal2? }

  ghost predicate ThreadOk(w: Word, s: State, th: Thread)
    requires w.Sound()
  {
    && (th.Writer? ==> w.Readers(s.word) == 0)
    && (th.AtGate2? && w.Readers(s.word) == 0 ==> SignalPending(s))
  }

  ghost predicate Counted(w: Word, s: State)
    requires w.Sound()
  {
    && s.word < 2 * w.writeEntered
    && w.Readers(s.word) == Sum(ReaderOf, s.threads)
    && Sum(BitOf, s.threads) == (if w.HasWriter(s.word) then 1 else 0)
  }

  ghost predicate Core(w: Word, s: State)
  {
    && w.Sound() && Counted(w, s)
    && forall k :: 0 <= k < |s.threads| ==> ThreadOk(w, s, s.threads[k])
  }

  /** The word, split: at most one writer bit above the readers. */
  lemma WordParts(w: Word, state: nat)
    requires w.Sound() && state < 2 * w.writeEntered
    ensures w.HasWriter(state) <==> state >= w.writeEntered
    ensures w.Readers(state) == (if state >= w.writeEntered then state - w.writeEntered else state)
    ensures w.Readers(state) <= w.Most()
  {
    if state >= w.writeEntered {
      assert state == w.writeEntered * 1 + (state - w.writeEntered);
      Euclid(state, w.writeEntered, 1, state - w.writeEntered);
    } else {
      Euclid(state, w.writeEntered, 0, state);
    }
  }

  lemma WithReadersParts(w: Word, state: nat, readers: nat)
    requires w.Sound() && state < 2 * w.writeEntered && readers < w.writeEntered
    ensures var r := w.WithReaders(state, readers);
            r < 2 * w.writeEntered && w.HasWriter(r) == w.HasWriter(state) && w.Readers(r) == readers
  {
    WordParts(w, w.WithReaders(state, readers));
  }

  /** The sums after one thread changes. */
  lemma Counts(s: State, i: nat, th: Thread)
    requires i < |s.threads|
    ensures var t, b := s.threads[i := th], s.threads[i];
            && Sum(ReaderOf, t) + ReaderOf(b) == Sum(ReaderOf, s.threads) + ReaderOf(th)
            && Sum(BitOf, t) + BitOf(b) == Sum(BitOf, s.threads) + BitOf(th)
    ensures ReaderOf(s.threads[i]) <= Sum(ReaderOf, s.threads) && BitOf(s.threads[i]) <= Sum(BitOf, s.threads)
  {
    SumUpdate(ReaderOf, s.threads, i, th);
    SumUpdate(BitOf, s.threads, i, th);
    SumMember(ReaderOf, s.threads, i);
    SumMember(BitOf, s.threads, i);
  }

  /** Nobody but thread i, if anybody, has the write bit. */
  lemma OnlyBit(w: Word, s: State, i: nat, k: nat)
    requires Core(w, s) && i < |s.threads| && k < |s.threads| && k != i
    requires !w.HasWriter(s.word) || BitOf(s.threads[i]) == 1
    ensures BitOf(s.threads[k]) == 0
  {
    SumMember(BitOf, s.threads, k);
    if BitOf(s.threads[i]) == 1 {
      SumTwoMembers(BitOf, s.threads, if i < k then i else k, if i < k then k else i);
    }
  }

  lemma SignalKept(s: State, i: nat, th: Thread)
    requires i < |s.threads| && SignalPending(s) && !s.threads[i].Signal2?
    ensures SignalPending(Become(s, i, th))
  {
    var k :| 0 <= k < |s.threads| && s.threads[k].Signal2?;
    assert Become(s, i, th).threads[k].Signal2?;
  }

  /** A step of thread i that leaves the word alone. */
  lemma PlainKeepsCore(w: Word, s: State, i: nat, th: Thread)
    requires Core(w, s) && i < |s.threads| && !s.threads[i].Signal2?
    requires ReaderOf(th) == ReaderOf(s.threads[i]) && BitOf(th) == BitOf(s.threads[i])
    requires ThreadOk(w, Become(s, i, th), th)
    ensures Core(w, Become(s, i, th))
  {
    var s' := Become(s, i, th);
    Counts(s, i, th);
    forall k | 0 <= k < |s'.threads| ensures ThreadOk(w, s', s'.threads[k]) {
      assert ThreadOk(w, s, s.threads[k]);
      if SignalPending(s) {
        SignalKept(s, i, th);
      }
    }
  }

  lemma TestKeepsCore(w: Word, s: State, m: Move)
    requires Core(w, s) && CanMove(s, m) && m.action.Test? && !s.threads[m.i].LockingShared?
    ensures Core(w, MoveOn(w, s, m))
  {
    var s' := MoveOn(w, s, m);
    var th := s'.threads[m.i];
    assert ThreadOk(w, s, s.threads[m.i]);
    WordParts(w, s.word);
    if s'.word == s.word {
      PlainKeepsCore(w, s, m.i, th);
    } else {
      WordParts(w, s'.word);
      Counts(s, m.i, th);
      forall k | 0 <= k < |s'.threads| ensures ThreadOk(w, s', s'.threads[k]) {
        if k != m.i {
          OnlyBit(w, s, m.i, k);
        }
      }
    }
  }

  /** A reader more: nobody has the write bit. */
  lemma EnterShared(w: Word, s: State, i: nat)
    requires Core(w, s) && i < |s.threads| && ReaderOf(s.threads[i]) == BitOf(s.threads[i]) == 0
    requires !w.HasWriter(s.word) && w.Readers(s.word) != w.Most()
    ensures Core(w, Become(s.(word := w.WithReaders(s.word, w.Readers(s.word) + 1)), i, Reader))
  {
    var s' := Become(s.(word := w.WithReaders(s.word, w.Readers(s.word) + 1)), i, Reader);
    WordParts(w, s.word);
    WithReadersParts(w, s.word, w.Readers(s.word) + 1);
    Counts(s, i, Reader);
    forall k | 0 <= k < |s'.threads| ensures ThreadOk(w, s', s'.threads[k]) {
      if k != i {
        OnlyBit(w, s, i, k);
      }
    }
  }

  lemma LeaveShared(w: Word, s: State, m: Move)
    requires Core(w, s) && CanMove(s, m) && m.action.UnlockShared?
    ensures Core(w, MoveOn(w, s, m))
  {
    var s' := MoveOn(w, s, m);
    Counts(s, m.i, s'.threads[m.i]);
    WordParts(w, s.word);
    WithReadersParts(w, s.word, w.Readers(s.word) - 1);
    forall k | 0 <= k < |s'.threads| ensures ThreadOk(w, s', s'.threads[k]) {
      assert ThreadOk(w, s, s.threads[k]);
      if s'.threads[k].AtGate2? && w.Readers(s'.word) == 0 {
        SumMember(BitOf, s.threads, k);
        assert s'.threads[m.i].Signal2?;
      }
    }
  }

  lemma UnlockKeepsCore(w: Word, s: State, m: Move)
    requires Core(w, s) && CanMove(s, m) && m.action.Unlock?
    ensures Core(w, MoveOn(w, s, m))
  {
    var s' := MoveOn(w, s, m);
    Counts(s, m.i, SignalAll1);
    WordParts(w, 0);
    assert ThreadOk(w, s, s.threads[m.i]);
    forall k | 0 <= k < |s'.threads| ensures ThreadOk(w, s', s'.threads[k]) {
      if k != m.i {
        OnlyBit(w, s, m.i, k);
      }
    }
  }

  lemma TryLockKeepsCore(w: Word, s: State, m: Move)
    requires Core(w, s) && CanMove(s, m) && m.action.TryLock? && s.word == 0
    ensures Core(w, MoveOn(w, s, m))
  {
    var s' := MoveOn(w, s, m);
    WordParts(w, 0);
    WordParts(w, w.writeEntered);
    Counts(s, m.i, Writer);
    forall k | 0 <= k < |s'.threads| ensures ThreadOk(w, s', s'.threads[k]) {
      if k != m.i {
        OnlyBit(w, s, m.i, k);
      }
    }
  }

  lemma NotifyAllKeepsCore(w: Word, s: State, m: Move)
    requires Core(w, s) && CanMove(s, m) && m.action.Notify? && s.threads[m.i].SignalAll1?
    ensures Core(w, MoveOn(w, s, m))
  {
    var r := s.(threads := WakeGate1(s.threads));
    SumPointwise(ReaderOf, s.threads, r.threads);
    SumPointwise(BitOf, s.threads, r.threads);
    forall k | 0 <= k < |r.threads| ensures ThreadOk(w, r, r.threads[k]) {
      assert ThreadOk(w, s, s.threads[k]);
      if SignalPending(s) {
        var n :| 0 <= n < |s.threads| && s.threads[n].Signal2?;
        assert r.threads[n].Signal2?;
      }
    }
    assert r.threads[m.i] == s.threads[m.i];
    PlainKeepsCore(w, r, m.i, Out);
  }

  lemma NotifyOneKeepsCore(w: Word, s: State, m: Move)
    requires Core(w, s) && CanMove(s, m) && m.action.Notify? && !s.threads[m.i].SignalAll1?
    ensures Core(w, MoveOn(w, s, m))
  {
    var second, j := s.threads[m.i].Signal2?, m.action.j;
    var r := s;
    if j < |s.threads| && AtGate(s.threads[j], second) {
      r := Become(s, j, Woken(s.threads[j]));
      PlainKeepsCore(w, s, j, Woken(s.threads[j]));
    }
    assert MoveOn(w, s, m) == Become(r, m.i, Out);
    if second {
      NobodyLeftAtGate2(w, s, r, j);
      Counts(r, m.i, Out);
      forall k | 0 <= k < |r.threads| ensures ThreadOk(w, Become(r, m.i, Out), Become(r, m.i, Out).threads[k]) {
        assert ThreadOk(w, r, r.threads[k]);
      }
    } else {
      PlainKeepsCore(w, r, m.i, Out);
    }
  }

  /** Only one thread can be at gate 2, and it is the one picked. */
  lemma NobodyLeftAtGate2(w: Word, s: State, r: State, j: nat)
    requires Core(w, s) && Picks(s, true, j)
    requires r == if j < |s.threads| && AtGate(s.threads[j], true) then Become(s, j, Woken(s.threads[j])) else s
    ensures forall k :: 0 <= k < |r.threads| ==> !r.threads[k].AtGate2?
  {
    forall k | 0 <= k < |r.threads| ensures !r.threads[k].AtGate2? {
      if r.threads[k].AtGate2? {
        assert AtGate(s.threads[k], true);
        OnlyBit(w, s, j, k);
      }
    }
  }

  lemma MoveKeepsCore(w: Word, s: State, m: Move)
    requires Core(w, s) && CanMove(s, m)
    ensures Core(w, MoveOn(w, s, m))
  {
    var th := s.threads[m.i];
    match m.action
    case Test =>
      if th.LockingShared? {
        if w.HasWriter(s.word) || w.Readers(s.word) == w.Most() {
          PlainKeepsCore(w, s, m.i, AtGate1(true));
        } else {
          EnterShared(w, s, m.i);
        }
      } else {
        TestKeepsCore(w, s, m);
      }
    case TryLock =>
      if s.word == 0 {
        TryLockKeepsCore(w, s, m);
      }
    case TryLockShared =>
      if !w.HasWriter(s.word) && w.Readers(s.word) != w.Most() {
        EnterShared(w, s, m.i);
      }
    case Unlock => UnlockKeepsCore(w, s, m);
    case UnlockShared => LeaveShared(w, s, m);
    case Notify(_) =>
      if th.SignalAll1? {
        NotifyAllKeepsCore(w, s, m);
      } else {
        NotifyOneKeepsCore(w, s, m);
      }
    case _ => PlainKeepsCore(w, s, m.i, MoveOn(w, s, m).threads[m.i]);
  }

  /** Some thread that has unlocked is about to wake everybody at gate 1. */
  ghost predicate CallPending(s: State) { exists k :: 0 <= k < |s.threads| && s.threads[k].SignalAll1? }

  /** A writer asleep at gate 1 with the writer bit clear is about to be woken. */
  ghost predicate WritersCalled(w: Word, s: State)
    requires w.Sound()
  {
    !w.HasWriter(s.word) ==> forall k :: 0 <= k < |s.threads| && s.threads[k] == AtGate1(false) ==> CallPending(s)
  }

  ghost predicate Inv(w: Word, s: State) { Core(w, s) && WritersCalled(w, s) }

  /** Only `unlock` clears the writer bit. */
  lemma BitStays(w: Word, s: State, m: Move)
    requires Core(w, s) && CanMove(s, m) && w.HasWriter(s.word) && !m.action.Unlock?
    ensures w.HasWriter(MoveOn(w, s, m).word)
  {
    WordParts(w, s.word);
    if m.action.UnlockShared? {
      SumMember(ReaderOf, s.threads, m.i);
      WithReadersParts(w, s.word, w.Readers(s.word) - 1);
    }
  }

  lemma MoveKeepsCalled(w: Word, s: State, m: Move)
    requires Inv(w, s) && CanMove(s, m)
    ensures WritersCalled(w, MoveOn(w, s, m))
  {
    var s' := MoveOn(w, s, m);
    if m.action.Unlock? {
      assert s'.threads[m.i].SignalAll1?;
    } else if !w.HasWriter(s'.word) {
      if w.HasWriter(s.word) {
        BitStays(w, s, m);
      }
      forall k | 0 <= k < |s'.threads| && s'.threads[k] == AtGate1(false) ensures CallPending(s') {
        assert s.threads[k] == AtGate1(false);
        var n :| 0 <= n < |s.threads| && s.threads[n].SignalAll1?;
        assert s'.threads[n].SignalAll1?;
      }
    }
  }

  lemma MoveKeepsInv(w: Word, s: State, m: Move)
    requires Inv(w, s) && CanMove(s, m)
    ensures Inv(w, MoveOn(w, s, m))
  {
    MoveKeepsCore(w, s, m);
    MoveKeepsCalled(w, s, m);
  }

  // ----- Runs -----

  ghost predicate IsInitial(s: State) { s.word == 0 && forall k :: 0 <= k < |s.threads| ==> s.threads[k].Out? }

  ghost predicate IsRun(w: Word, s: State, moves: seq<Move>, u: State)
    requires w.Sound()
    decreases |moves|
  {
    if moves == [] then u == s
    else CanMove(s, moves[0]) && IsRun(w, MoveOn(w, s, moves[0]), moves[1..], u)
  }

  lemma {:induction false} RunKeepsInv(w: Word, s: State, moves: seq<Move>, u: State)
    requires Inv(w, s) && IsRun(w, s, moves, u)
    ensures Inv(w, u)
    decreases |moves|
  {
    if moves != [] {
      MoveKeepsInv(w, s, moves[0]);
      RunKeepsInv(w, MoveOn(w, s, moves[0]), moves[1..], u);
    }
  }

  lemma Reachable(w: Word, s0: State, moves: seq<Move>, s: State)
    requires w.Sound() && IsInitial(s0) && IsRun(w, s0, moves, s)
    ensures Inv(w, s)
  {
    WordParts(w, 0);
    SumZero(ReaderOf, s0.threads);
    SumZero(BitOf, s0.threads);
    RunKeepsInv(w, s0, moves, s);
  }

  /** A held exclusive lock excludes every other holder. */
  lemma WriterIsAlone(w: Word, s0: State, moves: seq<Move>, s: State, i: nat, k: nat)
    requires w.Sound() && IsInitial(s0) && IsRun(w, s0, moves, s)
    requires i < |s.threads| && k < |s.threads| && i != k && s.threads[i].Writer?
    ensures !s.threads[k].Writer? && !s.threads[k].Reader?
  {
    Reachable(w, s0, moves, s);
    OnlyBit(w, s, i, k);
    assert ThreadOk(w, s, s.threads[i]);
    SumMember(ReaderOf, s.threads, k);
  }

  /** The reader field is the number of shared holders, and leaves the writer bit alone. */
  lemma ReadersAreCounted(w: Word, s0: State, moves: seq<Move>, s: State)
    requires w.Sound() && IsInitial(s0) && IsRun(w, s0, moves, s)
    ensures s.word == (if w.HasWriter(s.word) then w.writeEntered else 0) + Sum(ReaderOf, s.threads)
    ensures Sum(ReaderOf, s.threads) < w.writeEntered
    ensures w.HasWriter(s.word) <==> exists k :: 0 <= k < |s.threads| && BitOf(s.threads[k]) == 1
  {
    Reachable(w, s0, moves, s);
    WordParts(w, s.word);
    SumZero(BitOf, s.threads);
  }

  /** From the moment thread i has set the writer bit until its own unlock the bit is set and nobody
      becomes a reader, whatever any thread does. */
  lemma BitShutsOutReaders(w: Word, s0: State, moves: seq<Move>, s: State, m: Move, i: nat, k: nat)
    requires w.Sound() && IsInitial(s0) && IsRun(w, s0, moves, s)
    requires i < |s.threads| && BitOf(s.threads[i]) == 1 && CanMove(s, m) && k < |s.threads|
    ensures w.HasWriter(s.word)
    ensures var s' := MoveOn(w, s, m);
            && |s'.threads| == |s.threads|
            && (w.HasWriter(s'.word) <==> !(m.i == i && m.action.Unlock?))
            && (BitOf(s'.threads[i]) == 1 <==> !(m.i == i && m.action.Unlock?))
            && (s'.threads[k].Reader? ==> s.threads[k].Reader?)
  {
    Reachable(w, s0, moves, s);
    SumMember(BitOf, s.threads, i);
    WordParts(w, s.word);
    WordParts(w, 0);
    if m.i != i {
      OnlyBit(w, s, i, m.i);
    }
    if m.action.UnlockShared? {
      SumMember(ReaderOf, s.threads, m.i);
      WithReadersParts(w, s.word, w.Readers(s.word) - 1);
    }
  }

  /** A writer asleep at gate 1 while nobody has the writer bit has a call to gate 1 under way. */
  lemma WriterIsCalled(w: Word, s0: State, moves: seq<Move>, s: State, i: nat)
    requires w.Sound() && IsInitial(s0) && IsRun(w, s0, moves, s)
    requires i < |s.threads| && s.threads[i] == AtGate1(false)
    requires forall k :: 0 <= k < |s.threads| ==> BitOf(s.threads[k]) == 0
    ensures CallPending(s)
  {
    Reachable(w, s0, moves, s);
    SumZero(BitOf, s.threads);
  }

  /** And that call sends everybody who sleeps there back to its own test, and changes nothing else. */
  lemma CallWakesEverybody(w: Word, s: State, m: Move, k: nat)
    requires w.Sound() && CanMove(s, m) && m.action.Notify? && s.threads[m.i].SignalAll1? && k < |s.threads|
    ensures var s' := MoveOn(w, s, m);
            && s'.word == s.word && |s'.threads| == |s.threads| && s'.threads[m.i] == Out && !s'.threads[k].AtGate1?
            && (k != m.i ==> s'.threads[k] == match s.threads[k]
                                              case AtGate1(true) => LockingShared
                                              case AtGate1(false) => Locking
                                              case th => th)
  {
  }

  /** A sleeper may also wake for no reason, and then goes back to its test. */
  lemma SleeperMayWake(w: Word, s: State, i: nat)
    requires w.Sound() && i < |s.threads| && (s.threads[i].AtGate1? || s.threads[i].AtGate2?)
    ensures CanMove(s, Move(i, WakeUp)) && Enabled(MoveOn(w, s, Move(i, WakeUp)).threads[i], Test)
    ensures MoveOn(w, s, Move(i, WakeUp)).threads[i].LockingShared? <==> s.threads[i] == AtGate1(true)
    ensures MoveOn(w, s, Move(i, WakeUp)).threads[i].Leaving2? <==> s.threads[i].AtGate2?
  {
  }

  /** A signal to gate 1 sends one sleeper there back to its test, if there is one, and nobody else. */
  lemma SignalWakesOne(w: Word, s: State, m: Move, k: nat)
    requires w.Sound() && CanMove(s, m) && m.action.Notify? && s.threads[m.i].Signal1? && k < |s.threads|
    ensures var s', j := MoveOn(w, s, m), m.action.j;
            && s'.word == s.word && |s'.threads| == |s.threads| && s'.threads[m.i] == Out
            && (s.threads[k].AtGate1? ==> j < |s.threads| && s.threads[j].AtGate1?
                                          && s'.threads[j] == if s.threads[j].shared then LockingShared else Locking)
            && (k != m.i && (k != j || !s.threads[k].AtGate1?) ==> s'.threads[k] == s.threads[k])
  {
    if s.threads[k].AtGate1? {
      assert AtGate(s.threads[k], false);
    }
  }

  // ----- When each operation gets the lock, in terms of who holds what -----

  function Readers(s: State): nat { Sum(ReaderOf, s.threads) }

  ghost predicate NobodyHasBit(s: State) { forall k :: 0 <= k < |s.threads| ==> BitOf(s.threads[k]) == 0 }

  lemma WordSays(w: Word, s0: State, moves: seq<Move>, s: State)
    requires w.Sound() && IsInitial(s0) && IsRun(w, s0, moves, s)
    ensures w.HasWriter(s.word) <==> !NobodyHasBit(s)
    ensures w.Readers(s.word) == Readers(s) <= w.Most() && (s.word == 0 <==> NobodyHasBit(s) && Readers(s) == 0)
  {
    Reachable(w, s0, moves, s);
    WordParts(w, s.word);
    SumZero(BitOf, s.threads);
  }

  /** `try_lock` and `try_lock_shared` succeed exactly when they may, and otherwise change nothing. */
  lemma TrySucceedsIff(w: Word, s0: State, moves: seq<Move>, s: State, i: nat)
    requires w.Sound() && IsInitial(s0) && IsRun(w, s0, moves, s) && i < |s.threads| && s.threads[i].Out?
    ensures var s' := MoveOn(w, s, Move(i, TryLock));
            if NobodyHasBit(s) && Readers(s) == 0 then s'.threads[i].Writer? else s' == s
    ensures var s' := MoveOn(w, s, Move(i, TryLockShared));
            if NobodyHasBit(s) && Readers(s) < w.Most() then s'.threads[i].Reader? else s' == s
  {
    WordSays(w, s0, moves, s);
  }

  /** So do the tests at the gates: a writer passes gate 1 exactly when nobody has the bit, and gate 2
      exactly when no reader is left; a reader passes gate 1 exactly when nobody has the bit and there
      is room for it. Otherwise the thread sleeps. */
  lemma TestPassesIff(w: Word, s0: State, moves: seq<Move>, s: State, i: nat)
    requires w.Sound() && IsInitial(s0) && IsRun(w, s0, moves, s) && i < |s.threads| && Enabled(s.threads[i], Test)
    ensures MoveOn(w, s, Move(i, Test)).threads[i] ==
            match s.threads[i]
            case Locking => if !NobodyHasBit(s) then AtGate1(false) else if Readers(s) > 0 then AtGate2 else Writer
            case LockingShared => if NobodyHasBit(s) && Readers(s) < w.Most() then Reader else AtGate1(true)
            case _ => if Readers(s) > 0 then AtGate2 else Writer
  {
    WordSays(w, s0, moves, s);
  }

  /** An uncontended `lock` takes the lock, and so does an uncontended `lock_shared`. */
  lemma FreeLockIsTaken(w: Word, s0: State, moves: seq<Move>, s: State, i: nat)
    requires w.Sound() && IsInitial(s0) && IsRun(w, s0, moves, s) && i < |s.threads| && s.threads[i].Out?
    requires NobodyHasBit(s)
    ensures Readers(s) == 0 ==> MoveOn(w, MoveOn(w, s, Move(i, Lock)), Move(i, Test)).threads[i].Writer?
    ensures Readers(s) < w.Most() ==> MoveOn(w, MoveOn(w, s, Move(i, LockShared)), Move(i, Test)).threads[i].Reader?
  {
    WordSays(w, s0, moves, s);
  }

  /** `unlock_shared` signals gate 2 exactly when somebody has the bit and the last reader leaves, and
      gate 1 exactly when nobody has it and the readers were as many as there can be. */
  lemma LastReaderSignals(w: Word, s0: State, moves: seq<Move>, s: State, i: nat)
    requires w.Sound() && IsInitial(s0) && IsRun(w, s0, moves, s) && i < |s.threads| && s.threads[i].Reader?
    ensures var s' := MoveOn(w, s, Move(i, UnlockShared));
            && (s'.threads[i].Signal2? <==> !NobodyHasBit(s) && Readers(s) == 1)
            && (s'.threads[i].Signal1? <==> NobodyHasBit(s) && Readers(s) == w.Most())
            && (s'.threads[i].Out? || s'.threads[i].Signal1? || s'.threads[i].Signal2?)
  {
    WordSays(w, s0, moves, s);
    Reachable(w, s0, moves, s);
    SumMember(ReaderOf, s.threads, i);
    WithReadersParts(w, s.word, w.Readers(s.word) - 1);
  }

  /** A writer asleep at gate 2 when the readers are gone has a signal under way. */
  lemma WriterIsSignalled(w: Word, s0: State, moves: seq<Move>, s: State, i: nat)
    requires w.Sound() && IsInitial(s0) && IsRun(w, s0, moves, s)
    requires i < |s.threads| && s.threads[i].AtGate2? && w.Readers(s.word) == 0
    ensures SignalPending(s)
  {
    Reachable(w, s0, moves, s);
    assert ThreadOk(w, s, s.threads[i]);
  }

  /** And that signal reaches it: whichever thread gives it, the writer goes on to its test, and holds
      the lock after it. */
  lemma SignalReachesWriter(w: Word, s0: State, moves: seq<Move>, s: State, m: Move, i: nat)
    requires w.Sound() && IsInitial(s0) && IsRun(w, s0, moves, s)
    requires CanMove(s, m) && s.threads[m.i].Signal2? && m.action.Notify?
    requires i < |s.threads| && s.threads[i].AtGate2? && w.Readers(s.word) == 0
    ensures var s' := MoveOn(w, s, m);
            s'.threads[i].Leaving2? && MoveOn(w, s', Move(i, Test)).threads[i].Writer?
  {
    Reachable(w, s0, moves, s);
    var j := m.action.j;
    assert AtGate(s.threads[i], true);
    if j != i {
      OnlyBit(w, s, i, j);
    }
  }

  // ----- Readers at the maximum count -----

  function AsleepOf(th: Thread): nat { if th.AtGate1? then 1 else 0 }
  function CallOf(th: Thread): nat { if th.Signal1? then 1 else 0 }

  function Asleep(s: State): nat { Sum(AsleepOf, s.threads) }
  function Calls(s: State): nat { Sum(CallOf, s.threads) }

  predicate MayEnterShared(w: Word, s: State)
    requires w.Sound()
  {
    !w.HasWriter(s.word) && w.Readers(s.word) != w.Most()
  }

  /** While a reader may enter, the notifications under way reach everybody asleep at gate 1. */
  ghost predicate SleepersCalled(w: Word, s: State)
    requires w.Sound()
  {
    MayEnterShared(w, s) ==> CallPending(s) || Asleep(s) <= Calls(s)
  }

  /** The condition of a shared unlock at the maximum: its one signal, and those under way, are enough. */
  ghost predicate OneCallWillDo(w: Word, s: State, m: Move)
    requires w.Sound()
  {
    m.action.UnlockShared? && !w.HasWriter(s.word) && w.Readers(s.word) == w.Most() ==>
      CallPending(s) || Asleep(s) <= Calls(s) + 1
  }

  lemma CallSums(s: State, i: nat, th: Thread)
    requires i < |s.threads|
    ensures var s', b := Become(s, i, th), s.threads[i];
            && Asleep(s') + AsleepOf(b) == Asleep(s) + AsleepOf(th)
            && Calls(s') + CallOf(b) == Calls(s) + CallOf(th)
  {
    SumUpdate(AsleepOf, s.threads, i, th);
    SumUpdate(CallOf, s.threads, i, th);
  }

  lemma CallKept(s: State, i: nat, th: Thread)
    requires i < |s.threads| && !s.threads[i].SignalAll1? && !th.SignalAll1?
    ensures CallPending(Become(s, i, th)) <==> CallPending(s)
  {
    var s' := Become(s, i, th);
    if CallPending(s) {
      var k :| 0 <= k < |s.threads| && s.threads[k].SignalAll1?;
      assert s'.threads[k].SignalAll1?;
    }
    if CallPending(s') {
      var k :| 0 <= k < |s'.threads| && s'.threads[k].SignalAll1?;
      assert s.threads[k].SignalAll1?;
    }
  }

  lemma NotifyKeepsCalled(w: Word, s: State, m: Move)
    requires Core(w, s) && CanMove(s, m) && m.action.Notify? && SleepersCalled(w, s)
    ensures SleepersCalled(w, MoveOn(w, s, m))
  {
    var th, j, s' := s.threads[m.i], m.action.j, MoveOn(w, s, m);
    if th.SignalAll1? {
      SumZero(AsleepOf, s'.threads);
    } else {
      var r := s;
      if j < |s.threads| && AtGate(s.threads[j], th.Signal2?) {
        r := Become(s, j, Woken(s.threads[j]));
        CallSums(s, j, Woken(s.threads[j]));
        CallKept(s, j, Woken(s.threads[j]));
      } else if th.Signal1? {
        forall k | 0 <= k < |s.threads| ensures AsleepOf(s.threads[k]) == 0 {
          assert !AtGate(s.threads[k], false);
        }
        SumZero(AsleepOf, s.threads);
      }
      CallSums(r, m.i, Out);
      CallKept(r, m.i, Out);
    }
  }

  lemma UnlockSharedCallsIff(w: Word, s: State, m: Move)
    requires Core(w, s) && CanMove(s, m) && m.action.UnlockShared? && SleepersCalled(w, s)
    ensures SleepersCalled(w, MoveOn(w, s, m)) <==> OneCallWillDo(w, s, m)
  {
    var s' := MoveOn(w, s, m);
    SumMember(ReaderOf, s.threads, m.i);
    WordParts(w, s.word);
    WithReadersParts(w, s.word, w.Readers(s.word) - 1);
    CallSums(s, m.i, s'.threads[m.i]);
    CallKept(s, m.i, s'.threads[m.i]);
  }

  /** One step keeps everybody at gate 1 called exactly if it is no shared unlock at the maximum with
      more asleep than the signals under way and one more. */
  lemma CalledIff(w: Word, s: State, m: Move)
    requires Core(w, s) && CanMove(s, m) && SleepersCalled(w, s)
    ensures SleepersCalled(w, MoveOn(w, s, m)) <==> OneCallWillDo(w, s, m)
  {
    var s' := MoveOn(w, s, m);
    if m.action.Notify? {
      NotifyKeepsCalled(w, s, m);
    } else if m.action.UnlockShared? {
      UnlockSharedCallsIff(w, s, m);
    } else if m.action.Unlock? {
      assert s'.threads[m.i].SignalAll1?;
    } else if s' != s {
      CallSums(s, m.i, s'.threads[m.i]);
      CallKept(s, m.i, s'.threads[m.i]);
      WordParts(w, s.word);
      WordParts(w, s'.word);
    }
  }

  /** Runs in which no shared unlock at the maximum finds too many asleep. */
  ghost predicate OneCallDoes(w: Word, s: State, moves: seq<Move>)
    requires w.Sound()
    decreases |moves|
  {
    moves == [] || (CanMove(s, moves[0]) && OneCallWillDo(w, s, moves[0]) && OneCallDoes(w, MoveOn(w, s, moves[0]), moves[1..]))
  }

  lemma {:induction false} RunKeepsCalled(w: Word, s: State, moves: seq<Move>, u: State)
    requires Core(w, s) && SleepersCalled(w, s) && IsRun(w, s, moves, u) && OneCallDoes(w, s, moves)
    ensures SleepersCalled(w, u)
    decreases |moves|
  {
    if moves != [] {
      CalledIff(w, s, moves[0]);
      MoveKeepsCore(w, s, moves[0]);
      RunKeepsCalled(w, MoveOn(w, s, moves[0]), moves[1..], u);
    }
  }

  /** In such a run a thread asleep at gate 1 while a reader may enter has a notification under way. */
  lemma SleeperIsCalled(w: Word, s0: State, moves: seq<Move>, s: State, i: nat)
    requires w.Sound() && IsInitial(s0) && IsRun(w, s0, moves, s) && OneCallDoes(w, s0, moves)
    requires i < |s.threads| && s.threads[i].AtGate1? && NobodyHasBit(s) && Readers(s) < w.Most()
    ensures exists k :: 0 <= k < |s.threads| && (s.threads[k].Signal1? || s.threads[k].SignalAll1?)
  {
    Reachable(w, s0, [], s0);
    SumZero(AsleepOf, s0.threads);
    RunKeepsCalled(w, s0, moves, s);
    WordSays(w, s0, moves, s);
    SumMember(AsleepOf, s.threads, i);
    SumZero(CallOf, s.threads);
  }

  /** Readers and sleepers are different threads. */
  lemma {:induction false} ReadersAndSleepers(threads: seq<Thread>)
    ensures Sum(ReaderOf, threads) + Sum(AsleepOf, threads) <= |threads|
  {
    if threads != [] {
      ReadersAndSleepers(threads[1..]);
    }
  }

  /** With at most one thread more than there can be readers, every run is such a run. */
  lemma {:induction false} FewThreadsSuffice(w: Word, s: State, moves: seq<Move>, u: State)
    requires Core(w, s) && IsRun(w, s, moves, u) && |s.threads| <= w.Most() + 1
    ensures OneCallDoes(w, s, moves)
    decreases |moves|
  {
    if moves != [] {
      ReadersAndSleepers(s.threads);
      MoveKeepsCore(w, s, moves[0]);
      FewThreadsSuffice(w, MoveOn(w, s, moves[0]), moves[1..], u);
    }
  }

  // ----- A reader that is not woken -----

  lemma {:induction false} RunExtended(w: Word, s0: State, moves: seq<Move>, s: State, m: Move)
    requires w.Sound() && IsRun(w, s0, moves, s) && CanMove(s, m)
    ensures IsRun(w, s0, moves + [m], MoveOn(w, s, m))
    decreases |moves|
  {
    if moves == [] {
      assert [] + [m] == [m] && [m][1..] == [];
    } else {
      assert (moves + [m])[1..] == moves[1..] + [m];
      RunExtended(w, MoveOn(w, s0, moves[0]), moves[1..], s, m);
    }
  }

  /** A reader that locks: it enters, or falls asleep. */
  lemma ReaderComes(w: Word, s0: State, moves: seq<Move>, s: State, i: nat, s': State)
    returns (moves': seq<Move>)
    requires w.Sound() && IsRun(w, s0, moves, s) && i < |s.threads| && s.threads[i].Out? && s.word < w.writeEntered
    requires s' == if s.word == w.Most() then Become(s, i, AtGate1(true)) else Become(s.(word := s.word + 1), i, Reader)
    ensures IsRun(w, s0, moves', s')
  {
    WordParts(w, s.word);
    var t := MoveOn(w, s, Move(i, LockShared));
    RunExtended(w, s0, moves, s, Move(i, LockShared));
    RunExtended(w, s0, moves + [Move(i, LockShared)], t, Move(i, Test));
    moves' := moves + [Move(i, LockShared)] + [Move(i, Test)];
    assert MoveOn(w, t, Move(i, Test)) == s';
  }

  /** A reader that unlocks, up to the signal it may have to give. */
  lemma ReaderGoes(w: Word, s0: State, moves: seq<Move>, s: State, i: nat, s': State)
    returns (moves': seq<Move>)
    requires w.Sound() && IsRun(w, s0, moves, s) && i < |s.threads| && s.threads[i].Reader? && 0 < s.word < w.writeEntered
    requires s' == Become(s.(word := s.word - 1), i, if s.word == w.Most() then Signal1 else Out)
    ensures IsRun(w, s0, moves', s')
  {
    WordParts(w, s.word);
    WordParts(w, s.word - 1);
    RunExtended(w, s0, moves, s, Move(i, UnlockShared));
    moves' := moves + [Move(i, UnlockShared)];
  }

  lemma TwoGoAtOnce(w: Word, s0: State, moves: seq<Move>, s5: State) returns (moves': seq<Move>)
    requires w == Word(4) && IsRun(w, s0, moves, s5)
    requires s5 == State(3, [Reader, Reader, Reader, AtGate1(true), AtGate1(true)])
    ensures IsRun(w, s0, moves', State(1, [Out, Out, Reader, LockingShared, AtGate1(true)]))
  {
    var s6 := State(2, [Signal1, Reader, Reader, AtGate1(true), AtGate1(true)]);
    var s7 := State(2, [Out, Reader, Reader, LockingShared, AtGate1(true)]);
    moves' := ReaderGoes(w, s0, moves, s5, 0, s6);
    assert AtGate(s6.threads[3], false);
    RunExtended(w, s0, moves', s6, Move(0, Notify(3)));
    assert MoveOn(w, s6, Move(0, Notify(3))) == s7;
    moves' := moves' + [Move(0, Notify(3))];
    moves' := ReaderGoes(w, s0, moves', s7, 1, State(1, [Out, Out, Reader, LockingShared, AtGate1(true)]));
  }

  lemma ThreeEnter(w: Word, s0: State, moves: seq<Move>, s: State) returns (moves': seq<Move>)
    requires w == Word(4) && IsRun(w, s0, moves, s) && s == State(0, [Out, Out, Out, Out, Out])
    ensures IsRun(w, s0, moves', State(3, [Reader, Reader, Reader, Out, Out]))
  {
    var s1, s2 := State(1, [Reader, Out, Out, Out, Out]), State(2, [Reader, Reader, Out, Out, Out]);
    moves' := ReaderComes(w, s0, moves, s, 0, s1);
    moves' := ReaderComes(w, s0, moves', s1, 1, s2);
    moves' := ReaderComes(w, s0, moves', s2, 2, State(3, [Reader, Reader, Reader, Out, Out]));
  }

  lemma TwoSleep(w: Word, s0: State, moves: seq<Move>, s: State) returns (moves': seq<Move>)
    requires w == Word(4) && IsRun(w, s0, moves, s) && s == State(3, [Reader, Reader, Reader, Out, Out])
    ensures IsRun(w, s0, moves', State(3, [Reader, Reader, Reader, AtGate1(true), AtGate1(true)]))
  {
    var s4 := State(3, [Reader, Reader, Reader, AtGate1(true), Out]);
    moves' := ReaderComes(w, s0, moves, s, 3, s4);
    moves' := ReaderComes(w, s0, moves', s4, 4, State(3, [Reader, Reader, Reader, AtGate1(true), AtGate1(true)]));
  }

  lemma LastTwoGo(w: Word, s0: State, moves: seq<Move>, s: State) returns (moves': seq<Move>)
    requires w == Word(4) && IsRun(w, s0, moves, s) && s == State(2, [Out, Out, Reader, Reader, AtGate1(true)])
    ensures IsRun(w, s0, moves', State(0, [Out, Out, Out, Out, AtGate1(true)]))
  {
    var s11 := State(1, [Out, Out, Out, Reader, AtGate1(true)]);
    moves' := ReaderGoes(w, s0, moves, s, 2, s11);
    moves' := ReaderGoes(w, s0, moves', s11, 3, State(0, [Out, Out, Out, Out, AtGate1(true)]));
  }

  lemma LateReaderEnters(w: Word, s0: State, moves: seq<Move>, s: State) returns (moves': seq<Move>)
    requires w == Word(4) && IsRun(w, s0, moves, s) && s == State(1, [Out, Out, Reader, LockingShared, AtGate1(true)])
    ensures IsRun(w, s0, moves', State(2, [Out, Out, Reader, Reader, AtGate1(true)]))
  {
    WordParts(w, 1);
    RunExtended(w, s0, moves, s, Move(3, Test));
    moves' := moves + [Move(3, Test)];
    assert MoveOn(w, s, Move(3, Test)) == State(2, [Out, Out, Reader, Reader, AtGate1(true)]);
  }

  lemma OthersComeAndGo(w: Word, s0: State, moves: seq<Move>, s: State) returns (moves': seq<Move>)
    requires w == Word(4) && IsRun(w, s0, moves, s) && s == State(3, [Reader, Reader, Reader, Out, Out])
    ensures IsRun(w, s0, moves', State(0, [Out, Out, Out, Out, AtGate1(true)]))
  {
    moves' := TwoSleep(w, s0, moves, s);
    moves' := TwoGoAtOnce(w, s0, moves', State(3, [Reader, Reader, Reader, AtGate1(true), AtGate1(true)]));
    moves' := LateReaderEnters(w, s0, moves', State(1, [Out, Out, Reader, LockingShared, AtGate1(true)]));
    moves' := LastTwoGo(w, s0, moves', State(2, [Out, Out, Reader, Reader, AtGate1(true)]));
  }

  /** With room for three readers, five come and two of them sleep. The first to unlock signals one
      sleeper; the second unlocks before that one has entered, and signals nobody. When all the others
      have gone the lock is free, the last sleeper sleeps and nobody is about to wake it. */
  lemma ReaderLeftAsleep() returns (moves: seq<Move>)
    ensures var w, s0 := Word(4), State(0, [Out, Out, Out, Out, Out]);
            w.Sound() && IsInitial(s0) && IsRun(w, s0, moves, State(0, [Out, Out, Out, Out, AtGate1(true)]))
  {
    var w, s0 := Word(4), State(0, [Out, Out, Out, Out, Out]);
    moves := ThreeEnter(w, s0, [], s0);
    moves := OthersComeAndGo(w, s0, moves, State(3, [Reader, Reader, Reader, Out, Out]));
  }
}
