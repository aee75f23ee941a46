/** Progress of the barrier: every interleaving of one phase is finite, with an explicit bound
    on its length, and `__arrive` running alone always returns. */
module BarrierProgress {
  import opened Sums
  import opened Barrier
  import opened BarrierSafety

  // ----- How far a searching thread is from a ticket it can claim -----

  /** The first node at or after `from` whose ticket is not full, or the end of the column. */
  function FirstOpen(prior: Phase, c: seq<Phase>, from: nat): (k: nat)
    requires from <= |c|
    ensures from <= k <= |c|
    ensures forall i :: from <= i < k ==> c[i] == FullStep(prior)
    ensures k < |c| ==> c[k] != FullStep(prior)
    decreases |c| - from
  {
    if from == |c| || c[from] != FullStep(prior) then from else FirstOpen(prior, c, from + 1)
  }

  /** Nodes to pass, going round once, before one with an open ticket. */
  function Gap(prior: Phase, c: seq<Phase>, node: nat): (g: nat)
    requires node < |c|
    ensures g <= 2 * |c|
  {
    var k := FirstOpen(prior, c, node);
    if k < |c| then k - node else |c| - node + FirstOpen(prior, c, 0)
  }

  /** Compare-exchanges left before a claim if nobody else claims: at most two a node. */
  ghost function Distance(expected: nat, prior: Phase, tickets: seq<seq<Phase>>): Thread -> nat
    requires Allocated(expected, tickets)
  {
    t => if !Running(t) || !InRange(expected, t) then 0
         else 2 * Gap(prior, Column(expected, tickets, t.round), t.node) + (if t.First? then 1 else 0)
  }

  ghost function TotalDistance(s: State): nat
    requires Allocated(s.expected, s.tickets)
  {
    Sum(Distance(s.expected, s.prior, s.tickets), s.threads)
  }

  /** Claims still to be made in the rounds from `round` on. */
  ghost function ClaimsLeftFrom(s: State, round: nat): int
    requires Allocated(s.expected, s.tickets) && round <= Rounds(s.expected)
    decreases Rounds(s.expected) - round
  {
    if round == Rounds(s.expected) then 0
    else Width(s.expected, round) - Claimed(s, round) + ClaimsLeftFrom(s, round + 1)
  }

  /** Arrivals and claims still to come. */
  ghost function ClaimsLeft(s: State): int
    requires Allocated(s.expected, s.tickets)
  {
    s.expected - Sum(HasArrived(), s.threads) + ClaimsLeftFrom(s, 0)
  }

  /** More than all the distances of the threads together can be. */
  function Spread(expected: nat): nat { expected * (4 * expected + 1) + 1 }

  /** Bounds the number of steps a phase can still take. */
  ghost function Potential(s: State): int
    requires Allocated(s.expected, s.tickets)
  {
    ClaimsLeft(s) * Spread(s.expected) + TotalDistance(s)
  }

  lemma {:induction false} ClaimsLeftFromNonNegative(s: State, round: nat)
    requires Inv(s) && round <= Rounds(s.expected)
    ensures ClaimsLeftFrom(s, round) >= 0
    decreases Rounds(s.expected) - round
  {
    if round < Rounds(s.expected) {
      ClaimsBound(s, round);
      ClaimsLeftFromNonNegative(s, round + 1);
    }
  }

  lemma EndNodeBound(expected: nat, round: nat)
    requires 1 <= expected
    ensures 1 <= EndNode(expected, round) <= expected
  {
    WidthAndRounds(expected, round + 1);
    WidthDecreases(expected, 0, round + 1);
  }

  lemma DistanceBound(s: State)
    requires Inv(s)
    ensures TotalDistance(s) < Spread(s.expected)
  {
    var d := Distance(s.expected, s.prior, s.tickets);
    forall t | 0 <= t < |s.threads| ensures d(s.threads[t]) <= 4 * s.expected + 1 {
      if Running(s.threads[t]) {
        EndNodeBound(s.expected, s.threads[t].round);
      }
    }
    SumBound(d, s.threads, 4 * s.expected + 1);
    assert (4 * s.expected + 1) * |s.threads| == s.expected * (4 * s.expected + 1);
  }

  lemma PotentialBounds(s: State)
    requires Inv(s)
    ensures ClaimsLeft(s) >= 0 && TotalDistance(s) < Spread(s.expected) && Potential(s) >= 0
  {
    ClaimsLeftFromNonNegative(s, 0);
    SumBound(HasArrived(), s.threads, 1);
    DistanceBound(s);
    NonNegativeProduct(ClaimsLeft(s), Spread(s.expected));
  }

  lemma NonNegativeProduct(a: nat, b: nat)
    ensures a * b >= 0
  {
  }

  // ----- Each step lowers the potential -----

  lemma {:induction false} ClaimsLeftFromUnchanged(s: State, s': State, round: nat)
    requires Allocated(s.expected, s.tickets) && Allocated(s'.expected, s'.tickets)
    requires s'.expected == s.expected && s'.prior == s.prior && round <= Rounds(s.expected)
    requires forall r: nat :: round <= r < Rounds(s.expected) ==>
               Column(s.expected, s'.tickets, r) == Column(s.expected, s.tickets, r)
    ensures ClaimsLeftFrom(s', round) == ClaimsLeftFrom(s, round)
    decreases Rounds(s.expected) - round
  {
    if round < Rounds(s.expected) {
      ClaimsLeftFromUnchanged(s, s', round + 1);
    }
  }

  lemma {:induction false} ClaimLowersClaimsLeft(s: State, t: nat, p: Phase, next: Thread, round: nat)
    requires Inv(s) && t < |s.threads| && Running(s.threads[t]) && ValidClaim(s, t, p)
    requires round <= s.threads[t].round
    ensures var s' := Claim(s, t, p, next);
            Allocated(s'.expected, s'.tickets) && ClaimsLeftFrom(s', round) == ClaimsLeftFrom(s, round) - 1
    decreases s.threads[t].round - round
  {
    var s' := Claim(s, t, p, next);
    ClaimCounts(s, t, p, next);
    if round == s.threads[t].round {
      ClaimsLeftFromUnchanged(s, s', round + 1);
    } else {
      ClaimLowersClaimsLeft(s, t, p, next, round + 1);
      assert Column(s.expected, s'.tickets, round) == Column(s.expected, s.tickets, round);
    }
  }

  /** Somebody searching a round means some ticket of it is open. */
  lemma SearcherHasOpenTicket(s: State, t: nat)
    requires Inv(s) && t < |s.threads| && Running(s.threads[t])
    ensures var c := Column(s.expected, s.tickets, s.threads[t].round); FirstOpen(s.prior, c, 0) < |c|
  {
    var r := s.threads[t].round;
    SumMember(AtRound(r), s.threads, t);
    FreeTicketForEverySearcher(s, r);
    ClaimsBound(s, r);
  }

  /** The node `g` places on, going round. */
  function NodeAhead(expected: nat, round: nat, node: nat, g: nat): nat
  {
    var endNode := EndNode(expected, round);
    if node + g < endNode then node + g else node + g - endNode
  }

  /** A searcher has an open ticket less than one lap ahead, whatever the others have done, and only
      full ones before it. */
  lemma OpenTicketWithinOneLap(s: State, t: nat)
    requires Inv(s) && t < |s.threads| && Running(s.threads[t])
    ensures var r, n := s.threads[t].round, s.threads[t].node;
            var g := Gap(s.prior, Column(s.expected, s.tickets, r), n);
            && g < EndNode(s.expected, r)
            && s.tickets[NodeAhead(s.expected, r, n, g)][r] != FullStep(s.prior)
            && forall j :: 0 <= j < g ==> s.tickets[NodeAhead(s.expected, r, n, j)][r] == FullStep(s.prior)
  {
    var r, n := s.threads[t].round, s.threads[t].node;
    var c := Column(s.expected, s.tickets, r);
    SearcherHasOpenTicket(s, t);
    forall k | 0 <= k < |c| ensures c[k] == s.tickets[k][r] {
    }
    var g := Gap(s.prior, c, n);
    assert c[NodeAhead(s.expected, r, n, g)] != FullStep(s.prior);
    forall j | 0 <= j < g ensures s.tickets[NodeAhead(s.expected, r, n, j)][r] == FullStep(s.prior) {
      assert c[NodeAhead(s.expected, r, n, j)] == FullStep(s.prior);
    }
  }

  lemma {:induction false} FirstOpenStep(prior: Phase, c: seq<Phase>, node: nat)
    requires node < |c| && c[node] == FullStep(prior)
    ensures FirstOpen(prior, c, node) == FirstOpen(prior, c, node + 1)
  {
  }

  /** A compare-exchange that claims nothing brings its thread nearer to an open ticket. */
  lemma MissComesNearer(s: State, t: nat)
    requires Inv(s) && t < |s.threads| && Running(s.threads[t])
    requires var r, n := s.threads[t].round, s.threads[t].node; s.tickets[n][r] == FullStep(s.prior)
    ensures var d := Distance(s.expected, s.prior, s.tickets);
            d(Miss(s, t).threads[t]) < d(s.threads[t])
  {
    var r, n := s.threads[t].round, s.threads[t].node;
    var c := Column(s.expected, s.tickets, r);
    assert c[n] == s.tickets[n][r];
    SearcherHasOpenTicket(s, t);
    FirstOpenStep(s.prior, c, n);
    EndNodeBound(s.expected, r);
    var next := Miss(s, t).threads[t];
    assert InRange(s.expected, next);
    if n + 1 < |c| {
      assert Gap(s.prior, c, n) == 1 + Gap(s.prior, c, n + 1);
    } else {
      assert FirstOpen(s.prior, c, |c|) == |c|;
      assert Gap(s.prior, c, n) == 1 + Gap(s.prior, c, 0);
    }
  }

  lemma ClaimsLeftDrop(left: int, left': int, k: nat, d: nat, d': nat)
    requires left' <= left - 1 && d' < k
    ensures left' * k + d' < left * k + d
  {
    assert left' * k <= (left - 1) * k;
    assert (left - 1) * k == left * k - k;
  }

  /** Arriving or claiming uses up one of the claims left. */
  lemma ArrivalOrClaimLowersPotential(s: State, t: nat, hash: nat)
    requires Inv(s) && t < |s.threads| && !s.threads[t].Done?
    requires var s' := Step(s, t, hash); s.threads[t].NotArrived? || s'.tickets != s.tickets
    ensures Inv(Step(s, t, hash)) && Potential(Step(s, t, hash)) < Potential(s)
  {
    var s' := Step(s, t, hash);
    StepKeepsInv(s, t, hash);
    ThreadUpdate(s.threads, t, s'.threads[t]);
    if s.threads[t].NotArrived? {
      ClaimsLeftFromUnchanged(s, s', 0);
    } else {
      var r, n := s.threads[t].round, s.threads[t].node;
      ClaimLowersClaimsLeft(s, t, s'.tickets[n][r], s'.threads[t], 0);
    }
    PotentialBounds(s);
    PotentialBounds(s');
    ClaimsLeftDrop(ClaimsLeft(s), ClaimsLeft(s'), Spread(s.expected), TotalDistance(s), TotalDistance(s'));
  }

  /** A step that claims nothing either re-reads a half ticket or passes a full one. */
  lemma SearchComesNearer(s: State, t: nat, hash: nat)
    requires Inv(s) && t < |s.threads| && Running(s.threads[t])
    requires Step(s, t, hash).tickets == s.tickets
    ensures var d := Distance(s.expected, s.prior, s.tickets);
            d(Step(s, t, hash).threads[t]) < d(s.threads[t])
  {
    var r, n := s.threads[t].round, s.threads[t].node;
    PhasesDistinct(s.prior);
    assert Column(s.expected, s.tickets, r)[n] == s.tickets[n][r];
    assert TicketInPhase(s.prior, s.tickets[n][r], Single(s.expected, r, n));
    if s.tickets[n][r] == FullStep(s.prior) {
      assert Step(s, t, hash) == Miss(s, t);
      MissComesNearer(s, t);
    } else {
      assert Step(s, t, hash).tickets[n][r] == s.tickets[n][r];
      assert Step(s, t, hash).threads[t] == Second(r, n);
    }
  }

  /** Any other step leaves the claims alone and shortens the stepping thread's search. */
  lemma SearchLowersPotential(s: State, t: nat, hash: nat)
    requires Inv(s) && t < |s.threads| && Running(s.threads[t])
    requires Step(s, t, hash).tickets == s.tickets
    ensures Inv(Step(s, t, hash)) && Potential(Step(s, t, hash)) < Potential(s)
  {
    var s' := Step(s, t, hash);
    StepKeepsInv(s, t, hash);
    SearchComesNearer(s, t, hash);
    assert ClaimsLeft(s') == ClaimsLeft(s) by {
      ClaimsLeftFromUnchanged(s, s', 0);
      SumUpdate(HasArrived(), s.threads, t, s'.threads[t]);
    }
    assert TotalDistance(s') < TotalDistance(s) by {
      SumUpdate(Distance(s.expected, s.prior, s.tickets), s.threads, t, s'.threads[t]);
    }
  }

  /** Every step of every thread lowers the potential: no thread can spin for ever, whatever
      the others do, and no fairness is assumed. */
  lemma StepLowersPotential(s: State, t: nat, hash: nat)
    requires Inv(s) && t < |s.threads| && !s.threads[t].Done?
    ensures Inv(Step(s, t, hash)) && 0 <= Potential(Step(s, t, hash)) < Potential(s)
  {
    if s.threads[t].NotArrived? || Step(s, t, hash).tickets != s.tickets {
      ArrivalOrClaimLowersPotential(s, t, hash);
    } else {
      SearchLowersPotential(s, t, hash);
    }
    PotentialBounds(Step(s, t, hash));
  }

  /** A step of some thread that is still in its phase. */
  ghost predicate ThreadStep(s: State, s': State)
  {
    && WellFormed(s)
    && exists t: nat, hash: nat :: t < |s.threads| && !s.threads[t].Done? && s' == Step(s, t, hash)
  }

  /** The steps of one phase, in any interleaving. */
  ghost predicate IsSchedule(run: seq<State>)
  {
    |run| > 0 && forall i :: 0 <= i < |run| - 1 ==> ThreadStep(run[i], run[i + 1])
  }

  /** A schedule is no longer than the potential of the state it starts from. */
  lemma {:induction false} ScheduleIsFinite(run: seq<State>)
    requires IsSchedule(run) && Inv(run[0])
    ensures Inv(run[|run| - 1])
    ensures |run| - 1 + Potential(run[|run| - 1]) <= Potential(run[0])
    decreases |run|
  {
    if |run| > 1 {
      var s, s' := run[0], run[1];
      assert ThreadStep(s, s');
      var t: nat, hash: nat :| t < |s.threads| && !s.threads[t].Done? && s' == Step(s, t, hash);
      StepLowersPotential(s, t, hash);
      TailIsSchedule(run);
      ScheduleIsFinite(run[1..]);
    }
  }

  lemma TailIsSchedule(run: seq<State>)
    requires IsSchedule(run) && |run| > 1
    ensures IsSchedule(run[1..])
  {
    forall i | 0 <= i < |run[1..]| - 1 ensures ThreadStep(run[1..][i], run[1..][i + 1]) {
      assert ThreadStep(run[i + 1], run[i + 1 + 1]);
    }
  }

  lemma {:induction false} WidthsSum(s: State, round: nat)
    requires PhaseStart(s) && round <= Rounds(s.expected)
    ensures ClaimsLeftFrom(s, round) <= 3 * Width(s.expected, round)
    decreases Rounds(s.expected) - round
  {
    if round < Rounds(s.expected) {
      WidthAndRounds(s.expected, round);
      PhaseStartInv(s);
      PhaseStartClaims(s, round);
      WidthsSum(s, round + 1);
      if Width(s.expected, round) == 2 {
        WidthAndRounds(s.expected, round + 1);
        assert round + 1 == Rounds(s.expected);
      }
    }
  }

  lemma PhaseStartPotential(s: State)
    requires PhaseStart(s)
    ensures Potential(s) <= 4 * s.expected * Spread(s.expected)
  {
    WidthsSum(s, 0);
    SumZero(Distance(s.expected, s.prior, s.tickets), s.threads);
    ProductMonotone(ClaimsLeft(s), 4 * s.expected, Spread(s.expected));
  }

  /** A phase of `expected` threads is over after at most 4e(e(4e + 1) + 1) compare-exchanges,
      arrivals included, whatever the schedule. */
  lemma PhaseLengthBound(run: seq<State>)
    requires IsSchedule(run) && PhaseStart(run[0])
    ensures |run| - 1 <= 4 * run[0].expected * (run[0].expected * (4 * run[0].expected + 1) + 1)
  {
    PhaseStartInv(run[0]);
    ScheduleIsFinite(run);
    PotentialBounds(run[|run| - 1]);
    PhaseStartPotential(run[0]);
  }

  lemma ProductMonotone(a: int, b: int, k: nat)
    requires a <= b
    ensures a * k <= b * k
  {
  }

  /** While anybody is still in the phase some step is possible: nothing ever blocks. */
  lemma NeverStuck(s: State)
    requires Inv(s) && exists t :: 0 <= t < |s.threads| && !s.threads[t].Done?
    ensures exists s' :: ThreadStep(s, s')
  {
    var t :| 0 <= t < |s.threads| && !s.threads[t].Done?;
    assert ThreadStep(s, Step(s, t, 0));
  }

  ghost predicate IsFinal(s: State) { forall s' :: !ThreadStep(s, s') }

  /** So a schedule that cannot be continued, and by the bound above every one comes to that, has
      brought all arrivals back, exactly one of them with true. */
  lemma PhaseRunsToItsEnd(run: seq<State>)
    requires IsSchedule(run) && PhaseStart(run[0])
    requires IsFinal(run[|run| - 1])
    ensures var last := run[|run| - 1];
            exists t :: 0 <= t < |last.threads| && last.threads[t] == Done(true)
              && forall u :: 0 <= u < |last.threads| && u != t ==> last.threads[u] == Done(false)
  {
    var last := run[|run| - 1];
    PhaseStartInv(run[0]);
    ScheduleIsFinite(run);
    if exists t :: 0 <= t < |last.threads| && !last.threads[t].Done? {
      NeverStuck(last);
    }
    ExactlyOneReturnsTrue(last);
  }
}
