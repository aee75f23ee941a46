/** `__barrier_algorithm_base` with its loops, on a real ticket array. `Arrive` is proved for a
    thread that runs with nobody else stepping, starting from any state the protocol reaches. */
module BarrierAlgorithm {
  import opened Barrier
  import opened BarrierSafety
  import opened BarrierProgress

  /** The states a single thread steps through, oldest first. */
  ghost predicate IsSoloRun(t: nat, run: seq<State>)
  {
    && |run| > 0
    && forall i :: 0 <= i < |run| - 1 ==> SoloStep(t, run[i], run[i + 1])
  }

  ghost predicate SoloStep(t: nat, s: State, s': State)
  {
    && WellFormed(s) && t < |s.threads| && !s.threads[t].Done?
    && exists hash: nat :: s' == Step(s, t, hash)
  }

  lemma ExtendSoloRun(t: nat, run: seq<State>, hash: nat)
    requires IsSoloRun(t, run)
    requires var s := run[|run| - 1]; WellFormed(s) && t < |s.threads| && !s.threads[t].Done?
    ensures IsSoloRun(t, run + [Step(run[|run| - 1], t, hash)])
  {
    var longer := run + [Step(run[|run| - 1], t, hash)];
    forall i | 0 <= i < |longer| - 1 ensures SoloStep(t, longer[i], longer[i + 1]) {
      if i < |run| - 1 {
        assert SoloStep(t, run[i], run[i + 1]);
      }
    }
  }

  /** What the compare-exchanges on one node come to. */
  datatype Attempt = Advance | Return | Retry

  /** Where an attempt leaves its thread. */
  ghost function After(expected: nat, round: nat, node: nat, a: Attempt): Thread
  {
    match a
    case Advance => Enter(expected, round + 1, node / 2)
    case Return => Done(false)
    case Retry => First(round, NextNode(expected, round, node))
  }

  /** The run so far ends in a state the array shows, where only thread `t` has moved. */
  ghost predicate Follows(t: nat, run: seq<State>, s: State, next: Thread)
    requires t < |s.threads|
  {
    && IsSoloRun(t, run) && run[0] == s
    && var now := run[|run| - 1];
       Inv(now) && now.prior == s.prior && now.expected == s.expected && now.threads == s.threads[t := next]
  }

  /** The measure of the inner loop, for a thread alone in its round. */
  ghost function SearchDistance(s: State, round: nat, node: nat): nat
    requires Allocated(s.expected, s.tickets)
  {
    Distance(s.expected, s.prior, s.tickets)(First(round, node))
  }

  /** An open ticket is met after at most `left` nodes. */
  ghost predicate Within(s: State, round: nat, node: nat, left: nat)
    requires Allocated(s.expected, s.tickets)
  {
    SearchDistance(s, round, node) <= 2 * left + 1
  }

  lemma RetryComesNearer(before: State, t: nat, round: nat, node: nat, left: nat)
    requires Inv(before) && t < |before.threads| && before.threads[t] == First(round, node)
    requires before.tickets[node][round] == FullStep(before.prior)
    requires Within(before, round, node, left)
    ensures left > 0 && Within(Miss(before, t), round, NextNode(before.expected, round, node), left - 1)
  {
    MissComesNearer(before, t);
  }

  lemma SearchWithinOneLap(s: State, t: nat, round: nat, node: nat)
    requires Inv(s) && t < |s.threads| && s.threads[t] == First(round, node)
    ensures EndNode(s.expected, round) >= 1 && Within(s, round, node, EndNode(s.expected, round) - 1)
  {
    OpenTicketWithinOneLap(s, t);
  }

  class BarrierBase {
    const phase: array2<Phase>   // __state_[node].__tickets[round].__phase
    const expected: nat          // __expected_, which nothing changes during a phase

    /** The array and the state of the protocol agree. */
    ghost predicate Shows(s: State)
      reads this, phase
    {
      && s.expected == expected
      && |s.tickets| == phase.Length0 && phase.Length1 == ROUNDS
      && (forall i :: 0 <= i < |s.tickets| ==> |s.tickets[i]| == ROUNDS)
      && forall i, j :: 0 <= i < phase.Length0 && 0 <= j < ROUNDS ==> s.tickets[i][j] == phase[i, j]
    }

    constructor (expected: nat)
      requires 1 <= expected <= MAX_EXPECTED
      ensures this.expected == expected && Shows(Constructed(expected)) && PhaseStart(Constructed(expected))
      ensures fresh(phase) && forall i, j :: 0 <= i < phase.Length0 && 0 <= j < phase.Length1 ==> phase[i, j] == 0
    {
      this.expected := expected;
      phase := new Phase[(expected + 1) / 2, ROUNDS]((_, _) => 0);
      new;
      AllocationSuffices(expected, expected, Constructed(expected).tickets);
    }

    method CompareExchange(node: nat, round: nat, wanted: Phase, desired: Phase) returns (ok: bool, seen: Phase)
      requires node < phase.Length0 && round < phase.Length1
      modifies phase
      ensures seen == old(phase[node, round]) && ok == (seen == wanted)
      ensures phase[node, round] == if ok then desired else seen
      ensures forall i, j :: 0 <= i < phase.Length0 && 0 <= j < phase.Length1 && (i != node || j != round) ==>
                phase[i, j] == old(phase[i, j])
    {
      seen := phase[node, round];
      ok := seen == wanted;
      if ok {
        phase[node, round] := desired;
      }
    }

    /** The one compare-exchange on a node that a thread has to itself. */
    method AttemptSingle(prior: Phase, round: nat, current: nat,
                       ghost s: State, ghost t: nat, ghost run: seq<State>)
      returns (a: Attempt, ghost run': seq<State>)
      requires t < |s.threads| && s.prior == prior && round < Rounds(expected)
      requires Follows(t, run, s, First(round, current)) && Shows(run[|run| - 1])
      requires current < EndNode(expected, round) && Single(expected, round, current)
      modifies phase
      ensures Follows(t, run', s, After(expected, round, current, a)) && Shows(run'[|run'| - 1])
      ensures a.Retry? ==> run'[|run'| - 1] == Miss(run[|run| - 1], t)
                           && run[|run| - 1].tickets[current][round] == FullStep(prior)
      ensures |run'| <= |run| + if a.Retry? then 1 else 2
    {
      ghost var now := run[|run| - 1];
      PhasesDistinct(prior);
      assert Column(expected, now.tickets, round)[current] == now.tickets[current][round];
      assert TicketInPhase(prior, now.tickets[current][round], Single(expected, round, current));
      StepKeepsInv(now, t, 0);
      ExtendSoloRun(t, run, 0);
      run' := run + [Step(now, t, 0)];
      var ok, _ := CompareExchange(current, round, prior, FullStep(prior));
      a := if ok then Advance else Retry;   // 1 in 1
    }

    /** The second compare-exchange on a node of two, after the first one saw it half taken. */
    method AttemptHalf(prior: Phase, round: nat, current: nat,
                       ghost s: State, ghost t: nat, ghost run: seq<State>)
      returns (a: Attempt, ghost run': seq<State>)
      requires t < |s.threads| && s.prior == prior && round < Rounds(expected)
      requires Follows(t, run, s, Second(round, current)) && Shows(run[|run| - 1])
      requires current < EndNode(expected, round) && run[|run| - 1].tickets[current][round] == HalfStep(prior)
      modifies phase
      ensures Follows(t, run', s, After(expected, round, current, a)) && Shows(run'[|run'| - 1])
      ensures a.Advance? && |run'| == |run| + 1
    {
      ghost var now := run[|run| - 1];
      StepKeepsInv(now, t, 0);
      ExtendSoloRun(t, run, 0);
      run' := run + [Step(now, t, 0)];
      var ok, _ := CompareExchange(current, round, HalfStep(prior), FullStep(prior));
      a := if ok then Advance else Retry;   // 2 in 2
    }

    /** The one or two compare-exchanges on a node that two threads share. */
    method AttemptPair(prior: Phase, round: nat, current: nat,
                       ghost s: State, ghost t: nat, ghost run: seq<State>)
      returns (a: Attempt, ghost run': seq<State>)
      requires t < |s.threads| && s.prior == prior && round < Rounds(expected)
      requires Follows(t, run, s, First(round, current)) && Shows(run[|run| - 1])
      requires current < EndNode(expected, round) && !Single(expected, round, current)
      modifies phase
      ensures Follows(t, run', s, After(expected, round, current, a)) && Shows(run'[|run'| - 1])
      ensures a.Retry? ==> run'[|run'| - 1] == Miss(run[|run| - 1], t)
                           && run[|run| - 1].tickets[current][round] == FullStep(prior)
      ensures |run'| <= |run| + if a.Retry? then 1 else 2
    {
      ghost var now := run[|run| - 1];
      PhasesDistinct(prior);
      assert Column(expected, now.tickets, round)[current] == now.tickets[current][round];
      assert TicketInPhase(prior, now.tickets[current][round], Single(expected, round, current));
      StepKeepsInv(now, t, 0);
      ExtendSoloRun(t, run, 0);
      run' := run + [Step(now, t, 0)];
      var ok, seen := CompareExchange(current, round, prior, HalfStep(prior));
      if ok {
        a := Return;                        // 1 in 2
      } else if seen == HalfStep(prior) {
        a, run' := AttemptHalf(prior, round, current, s, t, run');
      } else {
        a := Retry;
      }
    }

    /** The body of the inner loop. */
    method AttemptNode(prior: Phase, round: nat, current: nat, single: bool,
                       ghost s: State, ghost t: nat, ghost run: seq<State>, ghost left: nat)
      returns (a: Attempt, ghost run': seq<State>)
      requires t < |s.threads| && s.prior == prior && s.expected == expected && round < Rounds(expected)
      requires Follows(t, run, s, First(round, current)) && Shows(run[|run| - 1])
      requires current < EndNode(expected, round) && single == Single(expected, round, current)
      requires Within(run[|run| - 1], round, current, left)
      modifies phase
      ensures Follows(t, run', s, After(expected, round, current, a)) && Shows(run'[|run'| - 1])
      ensures a.Retry? ==> left > 0 && Within(run'[|run'| - 1], round, NextNode(expected, round, current), left - 1)
      ensures |run'| <= |run| + if a.Retry? then 1 else 2
    {
      if single {
        a, run' := AttemptSingle(prior, round, current, s, t, run);
      } else {
        a, run' := AttemptPair(prior, round, current, s, t, run);
      }
      if a.Retry? {
        RetryComesNearer(run[|run| - 1], t, round, current, left);
      }
    }

    /** The inner loop: walk the nodes of a round until one of them takes the thread, which happens
        within one lap: one compare-exchange a node, and one more on the last. */
    method Search(prior: Phase, round: nat, currentExpected: nat, from: nat,
                  ghost s: State, ghost t: nat, ghost run: seq<State>)
      returns (a: Attempt, current: nat, ghost run': seq<State>)
      requires t < |s.threads| && s.prior == prior && s.expected == expected && round < Rounds(expected)
      requires Follows(t, run, s, First(round, from)) && Shows(run[|run| - 1])
      requires from < EndNode(expected, round) && currentExpected == Width(expected, round)
      modifies phase
      ensures !a.Retry? && current < EndNode(expected, round)
      ensures Follows(t, run', s, After(expected, round, current, a)) && Shows(run'[|run'| - 1])
      ensures |run'| - |run| <= EndNode(expected, round) + 1
    {
      SearchWithinOneLap(run[|run| - 1], t, round, from);
      var endNode := (currentExpected + 1) / 2;
      var lastNode := endNode - 1;
      current := from;
      run' := run;
      ghost var at, left: nat := from, endNode - 1;   // the node to try next, and how many after it
      while true
        invariant current <= endNode && at == if current == endNode then 0 else current
        invariant Follows(t, run', s, First(round, at))
        invariant Shows(run'[|run'| - 1])
        invariant Within(run'[|run'| - 1], round, at, left) && |run'| - |run| + left < endNode
        decreases left
      {
        if current == endNode {
          current := 0;
        }
        a, run' := AttemptNode(prior, round, current, current == lastNode && currentExpected % 2 == 1,
                               s, t, run', left);
        if !a.Retry? {
          return;
        }
        at, left := NextNode(expected, round, current), left - 1;
        current := current + 1;
      }
    }

    /** Every ticket the phase uses has this number in the array. */
    ghost predicate TicketsShow(number: int)
      reads phase
    {
      forall r: nat, i: nat :: r < Rounds(expected) && i < EndNode(expected, r) ==>
        i < phase.Length0 && r < phase.Length1 && phase[i, r] as int == number
    }

    lemma LastFillsTickets(s: State, t: nat)
      requires Inv(s) && Shows(s) && t < |s.threads| && s.threads[t] == Done(true)
      ensures TicketsShow((s.prior as int + 2) % 256)
    {
      TrueMeansEverybodyArrived(s, t);
    }

    /** The outer loop of `__arrive`: up round by round, until the thread is held back or alone. */
    method ClimbRounds(prior: Phase, start: nat, ghost s: State, ghost t: nat, ghost begun: seq<State>)
      returns (last: bool, ghost run: seq<State>)
      requires t < |s.threads| && s.prior == prior && s.expected == expected && start < EndNode(expected, 0)
      requires Follows(t, begun, s, Enter(expected, 0, start)) && Shows(begun[|begun| - 1])
      modifies phase
      ensures Follows(t, run, s, Done(last)) && Shows(run[|run| - 1])
      ensures |run| < |begun| + 3 * expected
    {
      var currentExpected: nat, current: nat, round: nat := expected, start, 0;
      run := begun;
      while true
        invariant round <= Rounds(expected) && currentExpected == Width(expected, round)
        invariant current < EndNode(expected, round) && |run| + 3 * Width(expected, round) <= |begun| + 3 * expected
        invariant Follows(t, run, s, Enter(expected, round, current)) && Shows(run[|run| - 1])
        decreases Rounds(expected) - round
      {
        WidthAndRounds(expected, round);
        if currentExpected <= 1 {
          return true, run;
        }
        var a;
        a, current, run := Search(prior, round, currentExpected, current, s, t, run);
        if a.Return? {
          return false, run;
        }
        assert EndNode(expected, round + 1) == (EndNode(expected, round) + 1) / 2;
        currentExpected := (currentExpected + 1) / 2;
        current := current / 2;
        round := round + 1;
      }
    }

    /** `__arrive` by thread `t` while the other threads stand still: it returns, what it did is
        a run of the protocol of at most 3 steps for each thread there is, and every other thread is
        where it was. If it is the last, it leaves every ticket of the phase at old phase + 2. */
    method Arrive(prior: Phase, hash: nat, ghost s: State, ghost t: nat)
      returns (last: bool, ghost run: seq<State>)
      requires Inv(s) && Shows(s) && s.prior == prior
      requires t < |s.threads| && s.threads[t].NotArrived?
      modifies phase
      ensures Follows(t, run, s, Done(last)) && Shows(run[|run| - 1])
      ensures |run| - 1 <= 3 * expected
      ensures last ==> TicketsShow((prior as int + 2) % 256)
    {
      StepKeepsInv(s, t, hash);
      ExtendSoloRun(t, [s], hash);
      last, run := ClimbRounds(prior, hash % ((expected + 1) / 2), s, t, [s] + [Step(s, t, hash)]);
      if last {
        LastFillsTickets(run[|run| - 1], t);
      }
    }
  }
}
