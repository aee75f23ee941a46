/** The shared and weak counts of `__shared_weak_count`, under any interleaving of the atomic steps
    of any number of handles. A count of -1 means none. Any number of threads may copy or `lock` one
    weak handle at once; it may only not be dropped while one of them is inside `lock`. */
module RefCount {
  import opened Sums

  /** A handle, what is left of one inside a release, or a `lock` under way. */
  datatype Agent =
    | Strong                        // a shared_ptr
    | Weak                          // a weak_ptr
    | Locking(handle: nat, read: int)   // in `lock` of that weak_ptr, before the compare-exchange
    | Disposing                     // in `__release_shared`, about to call `__on_zero_shared`
    | Releasing                     // in `__release_weak`, before the load
    | Decrementing                  // in `__release_weak`, before the decrement
    | Last                          // in `__release_weak`, about to call `__on_zero_shared_weak`
    | Gone

  datatype State = State(owners: int, weakOwners: int, agents: seq<Agent>, disposed: nat, freed: nat)

  datatype Action =
    | CopyStrong | CopyWeak | DropStrong | DropWeak
    | Dispose | Load | Decrement | Free
    | BeginLock | Exchange(spurious: bool)

  datatype Move = Move(i: nat, action: Action)

  function Initial(): State { State(0, 0, [Strong], 0, 0) }

  predicate Enabled(a: Agent, action: Action)
  {
    match action
    case CopyStrong => a.Strong?
    case CopyWeak => a.Strong? || a.Weak?
    case DropStrong => a.Strong?
    case DropWeak => a.Weak?
    case Dispose => a.Disposing?
    case Load => a.Releasing?
    case Decrement => a.Decrementing?
    case Free => a.Last?
    case BeginLock => a.Weak?
    case Exchange(_) => a.Locking?
  }

  /** No `lock` of the handle is under way. */
  predicate Unused(s: State, handle: nat)
  {
    forall j :: 0 <= j < |s.agents| && s.agents[j].Locking? ==> s.agents[j].handle != handle
  }

  predicate CanMove(s: State, m: Move)
  {
    m.i < |s.agents| && Enabled(s.agents[m.i], m.action) && (m.action.DropWeak? ==> Unused(s, m.i))
  }

  function Become(s: State, i: nat, a: Agent): State
    requires i < |s.agents|
  {
    s.(agents := s.agents[i := a])
  }

  function Join(s: State, a: Agent): State { s.(agents := s.agents + [a]) }

  /** What a thread in `lock` does with the value it has of the shared count. */
  function AfterRead(handle: nat, owners: int): Agent { if owners == -1 then Gone else Locking(handle, owners) }

  function MoveOn(s: State, m: Move): State
    requires CanMove(s, m)
  {
    var i := m.i;
    match m.action
    case CopyStrong => Join(s.(owners := s.owners + 1), Strong)
    case CopyWeak => Join(s.(weakOwners := s.weakOwners + 1), Weak)
    case DropStrong => Become(s.(owners := s.owners - 1), i, if s.owners - 1 == -1 then Disposing else Gone)
    case DropWeak => Become(s, i, Releasing)
    case Dispose => Become(s.(disposed := s.disposed + 1), i, Releasing)
    case Load => Become(s, i, if s.weakOwners == 0 then Last else Decrementing)
    case Decrement => Become(s.(weakOwners := s.weakOwners - 1), i, if s.weakOwners - 1 == -1 then Last else Gone)
    case Free => Become(s.(freed := s.freed + 1), i, Gone)
    case BeginLock => Join(s, AfterRead(i, s.owners))
    case Exchange(spurious) =>
      if s.owners == s.agents[i].read && !spurious then Become(s.(owners := s.owners + 1), i, Strong)
      else Become(s, i, AfterRead(s.agents[i].handle, s.owners))
  }

  // ----- The invariant -----

  function StrongOf(a: Agent): nat { if a.Strong? then 1 else 0 }
  function HoldOf(a: Agent): nat { if a.Strong? || a.Last? || a.Gone? || a.Locking? then 0 else 1 }
  function DisposeOf(a: Agent): nat { if a.Disposing? then 1 else 0 }
  function LastOf(a: Agent): nat { if a.Last? then 1 else 0 }

  /** The weak references: one of each weak handle, and one of all the strong handles together. */
  function Held(s: State): nat { Sum(HoldOf, s.agents) + if s.owners >= 0 then 1 else 0 }

  /** What a `lock` has read was a count of owners, and its handle is still there. */
  ghost predicate LockOk(agents: seq<Agent>, a: Agent)
  {
    a.Locking? ==> a.read >= 0 && a.handle < |agents| && agents[a.handle].Weak?
  }

  ghost predicate LocksOk(agents: seq<Agent>) { forall i :: 0 <= i < |agents| ==> LockOk(agents, agents[i]) }

  ghost predicate Inv(s: State)
  {
    && s.owners + 1 == Sum(StrongOf, s.agents)
    && s.disposed + Sum(DisposeOf, s.agents) == (if s.owners == -1 then 1 else 0)
    && (Held(s) > 0 ==> s.weakOwners + 1 == Held(s))
    && s.freed + Sum(LastOf, s.agents) == (if Held(s) == 0 then 1 else 0)
    && LocksOk(s.agents)
  }

  lemma InitialInv()
    ensures Inv(Initial())
  {
    var a := Initial().agents;
    assert a[1..] == [];
    assert Sum(StrongOf, a) == 1;
    assert Sum(HoldOf, a) == Sum(DisposeOf, a) == Sum(LastOf, a) == 0;
  }

  /** The sums after one agent changes. */
  lemma Counts(s: State, i: nat, a: Agent)
    requires i < |s.agents|
    ensures var t, b := s.agents[i := a], s.agents[i];
            && Sum(StrongOf, t) + StrongOf(b) == Sum(StrongOf, s.agents) + StrongOf(a)
            && Sum(HoldOf, t) + HoldOf(b) == Sum(HoldOf, s.agents) + HoldOf(a)
            && Sum(DisposeOf, t) + DisposeOf(b) == Sum(DisposeOf, s.agents) + DisposeOf(a)
            && Sum(LastOf, t) + LastOf(b) == Sum(LastOf, s.agents) + LastOf(a)
    ensures StrongOf(s.agents[i]) <= Sum(StrongOf, s.agents) && HoldOf(s.agents[i]) <= Sum(HoldOf, s.agents)
    ensures DisposeOf(s.agents[i]) <= Sum(DisposeOf, s.agents) && LastOf(s.agents[i]) <= Sum(LastOf, s.agents)
  {
    SumUpdate(StrongOf, s.agents, i, a);
    SumUpdate(HoldOf, s.agents, i, a);
    SumUpdate(DisposeOf, s.agents, i, a);
    SumUpdate(LastOf, s.agents, i, a);
    SumMember(StrongOf, s.agents, i);
    SumMember(HoldOf, s.agents, i);
    SumMember(DisposeOf, s.agents, i);
    SumMember(LastOf, s.agents, i);
  }

  lemma JoinCounts(agents: seq<Agent>, a: Agent)
    ensures var t := agents + [a];
            && Sum(StrongOf, t) == Sum(StrongOf, agents) + StrongOf(a)
            && Sum(HoldOf, t) == Sum(HoldOf, agents) + HoldOf(a)
            && Sum(DisposeOf, t) == Sum(DisposeOf, agents) + DisposeOf(a)
            && Sum(LastOf, t) == Sum(LastOf, agents) + LastOf(a)
  {
    SumAppend(StrongOf, agents, a);
    SumAppend(HoldOf, agents, a);
    SumAppend(DisposeOf, agents, a);
    SumAppend(LastOf, agents, a);
  }

  /** Handles only go when nobody locks them. */
  lemma LocksKept(s: State, i: nat, a: Agent)
    requires Inv(s) && i < |s.agents| && (s.agents[i].Weak? ==> a.Weak? || Unused(s, i))
    requires LockOk(s.agents, a) && !(a.Locking? && a.handle == i)
    ensures LocksOk(s.agents[i := a])
  {
    var agents' := s.agents[i := a];
    forall j | 0 <= j < |agents'| ensures LockOk(agents', agents'[j]) {
      assert LockOk(s.agents, s.agents[j]);
    }
  }

  lemma LocksJoined(s: State, a: Agent)
    requires Inv(s) && LockOk(s.agents, a)
    ensures LocksOk(s.agents + [a])
  {
    var agents' := s.agents + [a];
    forall j | 0 <= j < |agents'| ensures LockOk(agents', agents'[j]) {
      assert j < |s.agents| ==> LockOk(s.agents, s.agents[j]);
    }
  }

  lemma JoinKeepsInv(s: State, m: Move)
    requires Inv(s) && CanMove(s, m) && (m.action.CopyStrong? || m.action.CopyWeak? || m.action.BeginLock?)
    ensures Inv(MoveOn(s, m))
  {
    var t := MoveOn(s, m);
    var a := t.agents[|s.agents|];
    assert t.agents == s.agents + [a];
    Counts(s, m.i, s.agents[m.i]);
    JoinCounts(s.agents, a);
    LocksJoined(s, a);
  }

  lemma BecomeKeepsInv(s: State, m: Move)
    requires Inv(s) && CanMove(s, m) && !(m.action.CopyStrong? || m.action.CopyWeak? || m.action.BeginLock?)
    ensures Inv(MoveOn(s, m))
  {
    var a := MoveOn(s, m).agents[m.i];
    assert LockOk(s.agents, s.agents[m.i]);
    Counts(s, m.i, a);
    LocksKept(s, m.i, a);
  }

  lemma MoveKeepsInv(s: State, m: Move)
    requires Inv(s) && CanMove(s, m)
    ensures Inv(MoveOn(s, m))
  {
    if m.action.CopyStrong? || m.action.CopyWeak? || m.action.BeginLock? {
      JoinKeepsInv(s, m);
    } else {
      BecomeKeepsInv(s, m);
    }
  }

  // ----- Runs -----

  ghost predicate IsRun(s: State, moves: seq<Move>, t: State)
    decreases |moves|
  {
    if moves == [] then t == s
    else CanMove(s, moves[0]) && IsRun(MoveOn(s, moves[0]), moves[1..], t)
  }

  lemma {:induction false} RunKeepsInv(s: State, moves: seq<Move>, t: State)
    requires Inv(s) && IsRun(s, moves, t)
    ensures Inv(t)
    decreases |moves|
  {
    if moves != [] {
      MoveKeepsInv(s, moves[0]);
      RunKeepsInv(MoveOn(s, moves[0]), moves[1..], t);
    }
  }

  lemma Reachable(moves: seq<Move>, t: State)
    requires IsRun(Initial(), moves, t)
    ensures Inv(t)
  {
    InitialInv();
    RunKeepsInv(Initial(), moves, t);
  }

  /** Whoever is inside `lock` counts on a handle that is held. */
  lemma HandleHolds(s: State, i: nat)
    requires Inv(s) && i < |s.agents|
    ensures s.agents[i].Locking? ==> s.agents[i].handle < |s.agents| && HoldOf(s.agents[s.agents[i].handle]) == 1
  {
    assert LockOk(s.agents, s.agents[i]);
  }

  /** The object is disposed of at most once, and never while a strong handle is left. */
  lemma DisposedOnceAfterTheLastStrong(moves: seq<Move>, t: State)
    requires IsRun(Initial(), moves, t)
    ensures t.disposed <= 1
    ensures t.disposed == 1 ==> t.owners == -1 && forall i :: 0 <= i < |t.agents| ==> !t.agents[i].Strong?
  {
    Reachable(moves, t);
    if t.disposed == 1 {
      SumZero(StrongOf, t.agents);
      assert forall i :: 0 <= i < |t.agents| ==> StrongOf(t.agents[i]) == 0;
    }
  }

  /** The block is freed at most once, after the object, and never while a handle of either kind or an
      operation on one is left. */
  lemma FreedOnceAtTheEnd(moves: seq<Move>, t: State)
    requires IsRun(Initial(), moves, t)
    ensures t.freed <= 1
    ensures t.freed == 1 ==> t.disposed == 1 && forall i :: 0 <= i < |t.agents| ==> t.agents[i].Gone?
  {
    Reachable(moves, t);
    if t.freed == 1 {
      SumZero(StrongOf, t.agents);
      SumZero(HoldOf, t.agents);
      SumZero(LastOf, t.agents);
      forall i | 0 <= i < |t.agents| ensures t.agents[i].Gone? && DisposeOf(t.agents[i]) == 0 {
        assert StrongOf(t.agents[i]) == HoldOf(t.agents[i]) == LastOf(t.agents[i]) == 0;
        HandleHolds(t, i);
      }
      SumZero(DisposeOf, t.agents);
    }
  }

  /** What is left of a handle, or of a `lock` under way, is never stuck: exactly one kind of step is next. */
  predicate NextStep(a: Agent, action: Action)
  {
    match a
    case Strong => action.CopyStrong? || action.CopyWeak? || action.DropStrong?
    case Weak => action.CopyWeak? || action.BeginLock? || action.DropWeak?
    case Locking(_, _) => action.Exchange?
    case Disposing => action.Dispose?
    case Releasing => action.Load?
    case Decrementing => action.Decrement?
    case Last => action.Free?
    case Gone => false
  }

  lemma MovesOf(s: State, i: nat, action: Action)
    requires i < |s.agents|
    ensures CanMove(s, Move(i, action)) <==> NextStep(s.agents[i], action) && (action.DropWeak? ==> Unused(s, i))
  {
  }

  /** A copy adds a handle of its kind and leaves all others alone. */
  lemma CopyAddsHandle(s: State, i: nat)
    requires i < |s.agents|
    ensures s.agents[i].Strong? ==> MoveOn(s, Move(i, CopyStrong)).agents == s.agents + [Strong]
    ensures s.agents[i].Strong? || s.agents[i].Weak? ==> MoveOn(s, Move(i, CopyWeak)).agents == s.agents + [Weak]
  {
  }

  /** When every handle is gone both have happened, each exactly once. */
  lemma EverythingReleased(moves: seq<Move>, t: State)
    requires IsRun(Initial(), moves, t) && forall i :: 0 <= i < |t.agents| ==> t.agents[i].Gone?
    ensures t.disposed == 1 && t.freed == 1
  {
    Reachable(moves, t);
    SumZero(StrongOf, t.agents);
    SumZero(HoldOf, t.agents);
    SumZero(DisposeOf, t.agents);
    SumZero(LastOf, t.agents);
  }

  /** Once the shared count is -1 it stays so: no `lock` succeeds any more. */
  lemma LockNeverRevives(moves: seq<Move>, t: State, m: Move)
    requires IsRun(Initial(), moves, t) && t.owners == -1 && CanMove(t, m)
    ensures MoveOn(t, m).owners == -1
    ensures m.action.BeginLock? ==> MoveOn(t, m) == Join(t, Gone)
    ensures m.action.Exchange? ==> MoveOn(t, m) == Become(t, m.i, Gone)
  {
    Reachable(moves, t);
    assert LockOk(t.agents, t.agents[m.i]);
    SumMember(StrongOf, t.agents, m.i);
  }

  /** The load that spares the decrement: a thread that reads 0 is alone with the block. */
  lemma LoadOfZeroMeansAlone(moves: seq<Move>, t: State, i: nat, j: nat)
    requires IsRun(Initial(), moves, t) && i < |t.agents| && j < |t.agents| && i != j
    requires t.agents[i].Releasing? && t.weakOwners == 0
    ensures t.agents[j].Gone? && t.disposed == 1
  {
    Reachable(moves, t);
    SumMember(HoldOf, t.agents, i);
    SumTwoMembers(HoldOf, t.agents, if i < j then i else j, if i < j then j else i);
    if t.agents[j].Locking? {
      HandleHolds(t, j);
      var k := t.agents[j].handle;
      assert LockOk(t.agents, t.agents[j]);
      SumTwoMembers(HoldOf, t.agents, if i < k then i else k, if i < k then k else i);
    }
    SumMember(StrongOf, t.agents, j);
    SumMember(LastOf, t.agents, j);
    if Sum(DisposeOf, t.agents) > 0 {
      DisposerHolds(t.agents, i);
    }
  }

  lemma {:induction false} DisposerHolds(agents: seq<Agent>, i: nat)
    requires i < |agents| && agents[i].Releasing? && Sum(DisposeOf, agents) > 0
    ensures Sum(HoldOf, agents) >= 2
  {
    SumZero(DisposeOf, agents);
    var j :| 0 <= j < |agents| && DisposeOf(agents[j]) != 0;
    SumTwoMembers(HoldOf, agents, if i < j then i else j, if i < j then j else i);
  }

  // ----- The member functions, each run without interruption -----

  lemma {:induction false} RunsCompose(s: State, ms: seq<Move>, t: State, ns: seq<Move>, u: State)
    requires IsRun(s, ms, t) && IsRun(t, ns, u)
    ensures IsRun(s, ms + ns, u)
    decreases |ms|
  {
    if ms == [] {
      assert ms + ns == ns;
    } else {
      assert (ms + ns)[1..] == ms[1..] + ns;
      RunsCompose(MoveOn(s, ms[0]), ms[1..], t, ns, u);
    }
  }

  lemma OneMove(s: State, m: Move)
    requires CanMove(s, m)
    ensures IsRun(s, [m], MoveOn(s, m))
  {
    assert [m][1..] == [];
  }

  class SharedWeakCount {
    var sharedOwners: int
    var sharedWeakOwners: int
    var disposals: nat            // calls of __on_zero_shared
    var frees: nat                // calls of __on_zero_shared_weak
    ghost var agents: seq<Agent>

    ghost function Now(): State
      reads this
    {
      State(sharedOwners, sharedWeakOwners, agents, disposals, frees)
    }

    constructor ()
      ensures Now() == Initial()
    {
      sharedOwners, sharedWeakOwners, disposals, frees := 0, 0, 0, 0;
      agents := [Strong];
    }

    method AddShared(ghost i: nat)
      requires CanMove(Now(), Move(i, CopyStrong))
      modifies this
      ensures Now() == MoveOn(old(Now()), Move(i, CopyStrong))
    {
      sharedOwners := sharedOwners + 1;
      agents := agents + [Strong];
    }

    method AddWeak(ghost i: nat)
      requires CanMove(Now(), Move(i, CopyWeak))
      modifies this
      ensures Now() == MoveOn(old(Now()), Move(i, CopyWeak))
    {
      sharedWeakOwners := sharedWeakOwners + 1;
      agents := agents + [Weak];
    }

    /** `__release_weak`, by an agent that has come to the load. */
    method ReleaseWeak(ghost i: nat) returns (ghost moves: seq<Move>)
      requires i < |agents| && agents[i].Releasing?
      modifies this
      ensures IsRun(old(Now()), moves, Now()) && |agents| == |old(agents)| && agents[i].Gone?
    {
      ghost var load := Move(i, Load);
      OneMove(Now(), load);
      if sharedWeakOwners == 0 {
        agents := agents[i := Last];
        OneMove(Now(), Move(i, Free));
        moves := [load] + [Move(i, Free)];
        frees := frees + 1;
        agents := agents[i := Gone];
        RunsCompose(old(Now()), [load], MoveOn(old(Now()), load), [Move(i, Free)], Now());
      } else {
        agents := agents[i := Decrementing];
        moves := Decremented(i);
        RunsCompose(old(Now()), [load], MoveOn(old(Now()), load), moves, Now());
        moves := [load] + moves;
      }
    }

    method Decremented(ghost i: nat) returns (ghost moves: seq<Move>)
      requires i < |agents| && agents[i].Decrementing?
      modifies this
      ensures IsRun(old(Now()), moves, Now()) && |agents| == |old(agents)| && agents[i].Gone?
    {
      moves := [Move(i, Decrement)];
      OneMove(Now(), moves[0]);
      sharedWeakOwners := sharedWeakOwners - 1;
      agents := agents[i := if sharedWeakOwners == -1 then Last else Gone];
      if sharedWeakOwners == -1 {
        ghost var last := Now();
        OneMove(last, Move(i, Free));
        frees := frees + 1;
        agents := agents[i := Gone];
        RunsCompose(old(Now()), moves, last, [Move(i, Free)], Now());
        moves := moves + [Move(i, Free)];
      }
    }

    /** `__release_shared` */
    method ReleaseShared(ghost i: nat) returns (ghost moves: seq<Move>)
      requires i < |agents| && agents[i].Strong?
      modifies this
      ensures IsRun(old(Now()), moves, Now()) && |agents| == |old(agents)| && agents[i].Gone?
    {
      moves := [Move(i, DropStrong)];
      OneMove(Now(), moves[0]);
      sharedOwners := sharedOwners - 1;
      agents := agents[i := if sharedOwners == -1 then Disposing else Gone];
      if sharedOwners == -1 {
        ghost var dropped := Now();
        OneMove(dropped, Move(i, Dispose));
        disposals := disposals + 1;
        agents := agents[i := Releasing];
        RunsCompose(old(Now()), moves, dropped, [Move(i, Dispose)], Now());
        moves := moves + [Move(i, Dispose)];
        ghost var disposed := Now();
        ghost var rest := ReleaseWeak(i);
        RunsCompose(old(Now()), moves, disposed, rest, Now());
        moves := moves + rest;
      }
    }

    /** `lock`: the first `failures` compare-exchanges fail for no reason. */
    method Lock(ghost i: nat, failures: nat) returns (ok: bool, ghost moves: seq<Move>)
      requires i < |agents| && agents[i].Weak?
      modifies this
      ensures IsRun(old(Now()), moves, Now())
      ensures ok == (old(sharedOwners) != -1) && sharedWeakOwners == old(sharedWeakOwners)
      ensures agents == old(agents) + [if ok then Strong else Gone]
      ensures sharedOwners == old(sharedOwners) + if ok then 1 else 0
    {
      var objectOwners := sharedOwners;
      ghost var j := |agents|;
      moves := [Move(i, BeginLock)];
      OneMove(Now(), moves[0]);
      agents := agents + [AfterRead(i, objectOwners)];
      var left := failures;
      ok := false;
      while objectOwners != -1
        invariant IsRun(old(Now()), moves, Now()) && objectOwners == old(sharedOwners) == sharedOwners
        invariant agents == old(agents) + [AfterRead(i, objectOwners)] && sharedWeakOwners == old(sharedWeakOwners)
        invariant disposals == old(disposals) && frees == old(frees)
        decreases left
      {
        ghost var before, move := Now(), Move(j, Exchange(left > 0));
        OneMove(before, move);
        RunsCompose(old(Now()), moves, before, [move], MoveOn(before, move));
        moves := moves + [move];
        if left == 0 {
          sharedOwners := sharedOwners + 1;
          agents := agents[j := Strong];
          ok := true;
          return;
        }
        assert MoveOn(before, move).agents == agents;
        objectOwners := sharedOwners;
        left := left - 1;
      }
    }
  }
}
