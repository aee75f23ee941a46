/** Safety of the barrier over every run: a counting invariant on each round, and what it says
    about the one arrival that returns true. */
module BarrierSafety {
  import opened Sums
  import opened Barrier

  // ----- The measures that are counted -----

  /** How many threads a ticket has taken. */
  function Level(prior: Phase): Phase -> nat
  {
    p => if p == HalfStep(prior) then 1 else if p == FullStep(prior) then 2 else 0
  }

  function IsFull(prior: Phase): Phase -> nat { p => if p == FullStep(prior) then 1 else 0 }

  function AtRound(round: nat): Thread -> nat
  {
    t => if Running(t) && t.round == round then 1 else 0
  }

  function HasArrived(): Thread -> nat { (t: Thread) => if t.NotArrived? then 0 else 1 }

  function IsChampion(): Thread -> nat { t => if t == Done(true) then 1 else 0 }

  /** The tickets that a phase with `expected` threads uses in a round. */
  ghost function Column(expected: nat, tickets: seq<seq<Phase>>, round: nat): (c: seq<Phase>)
    requires Allocated(expected, tickets) && round < Rounds(expected)
    ensures |c| == EndNode(expected, round)
  {
    seq(EndNode(expected, round), i requires 0 <= i < EndNode(expected, round) => tickets[i][round])
  }

  /** Claims made on the tickets of a round; a full single ticket, the last of an odd round,
      took one thread, not two. */
  ghost function ClaimsOn(prior: Phase, c: seq<Phase>, odd: bool): int
  {
    Sum(Level(prior), c) - if odd && |c| > 0 && c[|c| - 1] == FullStep(prior) then 1 else 0
  }

  ghost function Claimed(s: State, round: nat): int
    requires Allocated(s.expected, s.tickets) && round < Rounds(s.expected)
  {
    ClaimsOn(s.prior, Column(s.expected, s.tickets, round), Width(s.expected, round) % 2 == 1)
  }

  ghost function Searching(s: State, round: nat): nat { Sum(AtRound(round), s.threads) }

  /** Threads that have come into a round: arrivals, or one per full ticket of the round before. */
  ghost function Entered(s: State, round: nat): nat
    requires Allocated(s.expected, s.tickets) && round <= Rounds(s.expected)
  {
    if round == 0 then Sum(HasArrived(), s.threads)
    else Sum(IsFull(s.prior), Column(s.expected, s.tickets, round - 1))
  }

  // ----- The invariant -----

  /** Untouched, half (never on a single ticket) or full. */
  predicate TicketInPhase(prior: Phase, p: Phase, single: bool)
  {
    p == prior || p == FullStep(prior) || (p == HalfStep(prior) && !single)
  }

  ghost predicate TicketsInPhase(s: State)
    requires Allocated(s.expected, s.tickets)
  {
    forall r: nat, i: nat {:trigger Column(s.expected, s.tickets, r)[i]} ::
      r < Rounds(s.expected) && i < EndNode(s.expected, r) ==>
        TicketInPhase(s.prior, Column(s.expected, s.tickets, r)[i], Single(s.expected, r, i))
  }

  ghost predicate Balanced(s: State, round: nat)
    requires Allocated(s.expected, s.tickets) && round < Rounds(s.expected)
  {
    Searching(s, round) + Claimed(s, round) == Entered(s, round)
  }

  /** A thread at its second compare-exchange saw a half ticket, which never turns back. */
  ghost predicate SecondAttemptsJustified(s: State)
    requires WellFormed(s)
  {
    forall t :: 0 <= t < |s.threads| && s.threads[t].Second? ==>
      s.tickets[s.threads[t].node][s.threads[t].round] != s.prior
  }

  ghost predicate Inv(s: State)
  {
    && WellFormed(s)
    && TicketsInPhase(s)
    && SecondAttemptsJustified(s)
    && (forall r: nat :: r < Rounds(s.expected) ==> Balanced(s, r))
    && Sum(IsChampion(), s.threads) == Entered(s, Rounds(s.expected))
  }

  /** The state a phase starts from: nobody has arrived and all its tickets carry one value. */
  ghost predicate PhaseStart(s: State)
  {
    && WellFormed(s)
    && (forall t :: 0 <= t < |s.threads| ==> s.threads[t] == NotArrived)
    && forall r: nat, i: nat {:trigger Column(s.expected, s.tickets, r)[i]} ::
         r < Rounds(s.expected) && i < EndNode(s.expected, r) ==>
           Column(s.expected, s.tickets, r)[i] == s.prior
  }

  lemma PhaseStartClaims(s: State, round: nat)
    requires PhaseStart(s) && round < Rounds(s.expected)
    ensures Claimed(s, round) == 0 && Entered(s, round + 1) == 0
  {
    PhasesDistinct(s.prior);
    var c := Column(s.expected, s.tickets, round);
    forall i | 0 <= i < |c| ensures c[i] == s.prior {
      assert c[i] == Column(s.expected, s.tickets, round)[i];
    }
    SumZero(Level(s.prior), c);
    SumZero(IsFull(s.prior), c);
  }

  lemma PhaseStartInv(s: State)
    requires PhaseStart(s)
    ensures Inv(s)
  {
    PhasesDistinct(s.prior);
    SumZero(HasArrived(), s.threads);
    SumZero(IsChampion(), s.threads);
    forall r: nat | r <= Rounds(s.expected) ensures Entered(s, r) == 0 {
      if r > 0 {
        PhaseStartClaims(s, r - 1);
      }
    }
    forall r: nat | r < Rounds(s.expected) ensures Balanced(s, r) {
      PhaseStartClaims(s, r);
      SumZero(AtRound(r), s.threads);
    }
  }

  // ----- Preservation -----

  lemma ColumnUpdate(expected: nat, tickets: seq<seq<Phase>>, node: nat, round: nat, p: Phase)
    requires Allocated(expected, tickets) && round < Rounds(expected) && node < EndNode(expected, round)
    ensures Allocated(expected, SetTicket(tickets, node, round, p))
    ensures Column(expected, SetTicket(tickets, node, round, p), round) == Column(expected, tickets, round)[node := p]
    ensures forall r: nat :: r < Rounds(expected) && r != round ==>
              Column(expected, SetTicket(tickets, node, round, p), r) == Column(expected, tickets, r)
  {
    var tickets' := SetTicket(tickets, node, round, p);
    forall r: nat | r < Rounds(expected) && r != round
      ensures Column(expected, tickets', r) == Column(expected, tickets, r)
    {
      assert EndNode(expected, r) <= |tickets|;
    }
  }

  /** Updating one thread moves every count by that thread's share. */
  lemma ThreadUpdate(threads: seq<Thread>, t: nat, next: Thread)
    requires t < |threads|
    ensures forall r: nat :: Sum(AtRound(r), threads[t := next]) + AtRound(r)(threads[t])
                             == Sum(AtRound(r), threads) + AtRound(r)(next)
    ensures Sum(HasArrived(), threads[t := next]) + HasArrived()(threads[t])
            == Sum(HasArrived(), threads) + HasArrived()(next)
    ensures Sum(IsChampion(), threads[t := next]) + IsChampion()(threads[t])
            == Sum(IsChampion(), threads) + IsChampion()(next)
  {
    forall r: nat
      ensures Sum(AtRound(r), threads[t := next]) + AtRound(r)(threads[t])
              == Sum(AtRound(r), threads) + AtRound(r)(next)
    {
      SumUpdate(AtRound(r), threads, t, next);
    }
    SumUpdate(HasArrived(), threads, t, next);
    SumUpdate(IsChampion(), threads, t, next);
  }

  /** Where a thread goes from the top of a round, and that its node index is in bounds there. */
  lemma EnterInRange(expected: nat, round: nat, node: nat)
    requires 1 <= expected && round <= Rounds(expected) && node < EndNode(expected, round)
    ensures InRange(expected, Enter(expected, round, node))
    ensures round < Rounds(expected) ==> Enter(expected, round, node) == First(round, node)
    ensures round == Rounds(expected) ==> Enter(expected, round, node) == Done(true)
  {
    WidthAndRounds(expected, round);
  }

  lemma ArriveKeepsInv(s: State, t: nat, hash: nat)
    requires Inv(s) && t < |s.threads| && s.threads[t].NotArrived?
    ensures Inv(Step(s, t, hash))
  {
    var s' := Step(s, t, hash);
    EnterInRange(s.expected, 0, hash % ((s.expected + 1) / 2));
    ThreadUpdate(s.threads, t, s'.threads[t]);
    forall r: nat | r < Rounds(s.expected) ensures Balanced(s', r) {
      assert Balanced(s, r);
    }
  }

  /** A thread that stays in its round without claiming changes no count. */
  lemma StayKeepsInv(s: State, t: nat, next: Thread)
    requires Inv(s) && t < |s.threads| && Running(s.threads[t])
    requires Running(next) && next.round == s.threads[t].round && InRange(s.expected, next)
    requires next.Second? ==> s.tickets[next.node][next.round] != s.prior
    ensures Inv(s.(threads := s.threads[t := next]))
  {
    var s' := s.(threads := s.threads[t := next]);
    ThreadUpdate(s.threads, t, next);
    forall r: nat | r < Rounds(s.expected) ensures Balanced(s', r) {
      assert Balanced(s, r);
    }
  }

  /** The two ways a compare-exchange succeeds: an untouched double ticket becomes half, and an
      untouched single or a half ticket becomes full. */
  predicate ClaimMoves(prior: Phase, seen: Phase, p: Phase, single: bool)
  {
    if single then seen == prior && p == FullStep(prior)
    else (seen == prior && p == HalfStep(prior)) || (seen == HalfStep(prior) && p == FullStep(prior))
  }

  /** A claim adds one to the claims of its column and, when it fills the ticket, one to the
      full tickets. */
  lemma ClaimOnColumn(prior: Phase, c: seq<Phase>, odd: bool, node: nat, p: Phase)
    requires node < |c|
    requires ClaimMoves(prior, c[node], p, odd && node == |c| - 1)
    ensures ClaimsOn(prior, c[node := p], odd) == ClaimsOn(prior, c, odd) + 1
    ensures Sum(IsFull(prior), c[node := p]) == Sum(IsFull(prior), c) + IsFull(prior)(p)
  {
    PhasesDistinct(prior);
    SumUpdate(Level(prior), c, node, p);
    SumUpdate(IsFull(prior), c, node, p);
  }

  ghost predicate ValidClaim(s: State, t: nat, p: Phase)
    requires WellFormed(s) && t < |s.threads| && Running(s.threads[t])
  {
    var r, n := s.threads[t].round, s.threads[t].node;
    ClaimMoves(s.prior, s.tickets[n][r], p, Single(s.expected, r, n))
  }

  lemma ClaimKeepsTickets(s: State, t: nat, p: Phase, next: Thread)
    requires Inv(s) && t < |s.threads| && Running(s.threads[t]) && ValidClaim(s, t, p)
    ensures var s' := Claim(s, t, p, next);
            Allocated(s'.expected, s'.tickets) && TicketsInPhase(s')
  {
    var r, n := s.threads[t].round, s.threads[t].node;
    var s' := Claim(s, t, p, next);
    ColumnUpdate(s.expected, s.tickets, n, r, p);
    forall r': nat, i: nat {:trigger Column(s'.expected, s'.tickets, r')[i]} |
      r' < Rounds(s.expected) && i < EndNode(s.expected, r')
      ensures TicketInPhase(s.prior, Column(s'.expected, s'.tickets, r')[i], Single(s.expected, r', i))
    {
      assert TicketInPhase(s.prior, Column(s.expected, s.tickets, r')[i], Single(s.expected, r', i));
    }
  }

  lemma ClaimCounts(s: State, t: nat, p: Phase, next: Thread)
    requires Inv(s) && t < |s.threads| && Running(s.threads[t]) && ValidClaim(s, t, p)
    ensures var s' := Claim(s, t, p, next);
            var r := s.threads[t].round;
            && Allocated(s'.expected, s'.tickets)
            && Claimed(s', r) == Claimed(s, r) + 1
            && Sum(IsFull(s.prior), Column(s.expected, s'.tickets, r))
               == Sum(IsFull(s.prior), Column(s.expected, s.tickets, r)) + IsFull(s.prior)(p)
            && forall r': nat :: r' < Rounds(s.expected) && r' != r ==>
                 Column(s.expected, s'.tickets, r') == Column(s.expected, s.tickets, r')
  {
    var r, n := s.threads[t].round, s.threads[t].node;
    ColumnUpdate(s.expected, s.tickets, n, r, p);
    ClaimOnColumn(s.prior, Column(s.expected, s.tickets, r), Width(s.expected, r) % 2 == 1, n, p);
  }

  /** Where a thread goes after the claim that turns its ticket into `p`. */
  ghost function AfterClaim(s: State, t: nat, p: Phase): Thread
    requires WellFormed(s) && t < |s.threads| && Running(s.threads[t])
  {
    if p == FullStep(s.prior) then Enter(s.expected, s.threads[t].round + 1, s.threads[t].node / 2) else Done(false)
  }

  lemma AfterClaimInRange(s: State, t: nat, p: Phase)
    requires WellFormed(s) && t < |s.threads| && Running(s.threads[t])
    ensures var r, next := s.threads[t].round, AfterClaim(s, t, p);
            && InRange(s.expected, next) && (next.First? || next.Done?)
            && (next.First? ==> next.round == r + 1 && p == FullStep(s.prior))
            && (next == Done(true) <==> r + 1 == Rounds(s.expected) && p == FullStep(s.prior))
            && (p == FullStep(s.prior) && r + 1 < Rounds(s.expected) ==> next.First?)
  {
    var r, n := s.threads[t].round, s.threads[t].node;
    assert EndNode(s.expected, r + 1) == (EndNode(s.expected, r) + 1) / 2;
    EnterInRange(s.expected, r + 1, n / 2);
  }

  lemma ClaimKeepsWellFormed(s: State, t: nat, p: Phase)
    requires Inv(s) && t < |s.threads| && Running(s.threads[t]) && ValidClaim(s, t, p)
    ensures var s' := Claim(s, t, p, AfterClaim(s, t, p));
            WellFormed(s') && SecondAttemptsJustified(s')
  {
    PhasesDistinct(s.prior);
    AfterClaimInRange(s, t, p);
    ClaimKeepsTickets(s, t, p, AfterClaim(s, t, p));
  }

  lemma ClaimMovesEntered(s: State, t: nat, p: Phase, round: nat)
    requires Inv(s) && t < |s.threads| && Running(s.threads[t]) && ValidClaim(s, t, p)
    requires round <= Rounds(s.expected)
    ensures var s' := Claim(s, t, p, AfterClaim(s, t, p));
            && Allocated(s'.expected, s'.tickets)
            && Entered(s', round) == Entered(s, round)
                 + if round == s.threads[t].round + 1 then IsFull(s.prior)(p) else 0
  {
    var next := AfterClaim(s, t, p);
    ClaimCounts(s, t, p, next);
    if round == 0 {
      AfterClaimInRange(s, t, p);
      SumUpdate(HasArrived(), s.threads, t, next);
    }
  }

  lemma ClaimKeepsBalance(s: State, t: nat, p: Phase, round: nat)
    requires Inv(s) && t < |s.threads| && Running(s.threads[t]) && ValidClaim(s, t, p)
    requires round < Rounds(s.expected)
    ensures var s' := Claim(s, t, p, AfterClaim(s, t, p));
            Allocated(s'.expected, s'.tickets) && Balanced(s', round)
  {
    var next := AfterClaim(s, t, p);
    PhasesDistinct(s.prior);
    AfterClaimInRange(s, t, p);
    ClaimCounts(s, t, p, next);
    ClaimMovesEntered(s, t, p, round);
    SumUpdate(AtRound(round), s.threads, t, next);
    assert Balanced(s, round);
  }

  lemma ClaimKeepsInv(s: State, t: nat, p: Phase)
    requires Inv(s) && t < |s.threads| && Running(s.threads[t]) && ValidClaim(s, t, p)
    ensures Inv(Claim(s, t, p, AfterClaim(s, t, p)))
  {
    var next := AfterClaim(s, t, p);
    var s' := Claim(s, t, p, next);
    PhasesDistinct(s.prior);
    AfterClaimInRange(s, t, p);
    ClaimKeepsTickets(s, t, p, next);
    ClaimKeepsWellFormed(s, t, p);
    forall r: nat | r < Rounds(s.expected) ensures Balanced(s', r) {
      ClaimKeepsBalance(s, t, p, r);
    }
    ClaimMovesEntered(s, t, p, Rounds(s.expected));
    SumUpdate(IsChampion(), s.threads, t, next);
  }

  /** Every step keeps the invariant, so no index of a later step is out of bounds either. */
  lemma StepKeepsInv(s: State, t: nat, hash: nat)
    requires Inv(s) && t < |s.threads| && !s.threads[t].Done?
    ensures Inv(Step(s, t, hash))
  {
    PhasesDistinct(s.prior);
    if s.threads[t].NotArrived? {
      ArriveKeepsInv(s, t, hash);
    } else {
      var r, n := s.threads[t].round, s.threads[t].node;
      var seen := s.tickets[n][r];
      var s' := Step(s, t, hash);
      if s'.threads[t].Second? {
        StayKeepsInv(s, t, Second(r, n));
      } else if s' == Miss(s, t) {
        StayKeepsInv(s, t, First(r, NextNode(s.expected, r, n)));
      } else if seen == s.prior && !Single(s.expected, r, n) {
        ClaimKeepsInv(s, t, HalfStep(s.prior));
      } else {
        ClaimKeepsInv(s, t, FullStep(s.prior));
      }
    }
  }

  // ----- What the counts say -----

  ghost predicate IsFullColumn(prior: Phase, c: seq<Phase>)
  {
    forall i :: 0 <= i < |c| ==> c[i] == FullStep(prior)
  }

  lemma FullTicketsBound(prior: Phase, c: seq<Phase>)
    ensures Sum(IsFull(prior), c) <= |c|
    ensures Sum(IsFull(prior), c) == |c| <==> IsFullColumn(prior, c)
  {
    SumBound(IsFull(prior), c, 1);
    assert IsFullColumn(prior, c) <==> forall i :: 0 <= i < |c| ==> IsFull(prior)(c[i]) == 1;
  }

  /** The claims on a column of in-phase tickets are at most two a node, one on a single last
      node, and that many exactly when every ticket is full. */
  lemma ColumnClaimsBound(prior: Phase, c: seq<Phase>, odd: bool)
    requires |c| > 0
    requires forall i :: 0 <= i < |c| ==> TicketInPhase(prior, c[i], odd && i == |c| - 1)
    ensures ClaimsOn(prior, c, odd) <= 2 * |c| - if odd then 1 else 0
    ensures ClaimsOn(prior, c, odd) == 2 * |c| - (if odd then 1 else 0) <==> IsFullColumn(prior, c)
  {
    PhasesDistinct(prior);
    var last := |c| - 1;
    SumBound(Level(prior), c, 2);
    assert IsFullColumn(prior, c) <==> forall i :: 0 <= i < |c| ==> Level(prior)(c[i]) == 2;
    if odd && c[last] != FullStep(prior) {
      SumUpdate(Level(prior), c, last, FullStep(prior));
      SumBound(Level(prior), c[last := FullStep(prior)], 2);
    }
  }

  /** A round's tickets: `Width` claims in all, made exactly when every ticket is full. */
  lemma ClaimsBound(s: State, round: nat)
    requires Inv(s) && round < Rounds(s.expected)
    ensures Claimed(s, round) <= Width(s.expected, round)
    ensures Entered(s, round + 1) <= EndNode(s.expected, round)
    ensures var full := IsFullColumn(s.prior, Column(s.expected, s.tickets, round));
            && (Claimed(s, round) == Width(s.expected, round) <==> full)
            && (Entered(s, round + 1) == EndNode(s.expected, round) <==> full)
  {
    ColumnInPhase(s, round);
    ColumnBound(s.prior, Column(s.expected, s.tickets, round), Width(s.expected, round));
  }

  ghost predicate ColumnOk(prior: Phase, c: seq<Phase>, width: nat)
  {
    && width > 0 && |c| == (width + 1) / 2
    && forall i :: 0 <= i < |c| ==> TicketInPhase(prior, c[i], width % 2 == 1 && i == |c| - 1)
  }

  lemma ColumnBound(prior: Phase, c: seq<Phase>, width: nat)
    requires ColumnOk(prior, c, width)
    ensures ClaimsOn(prior, c, width % 2 == 1) <= width && Sum(IsFull(prior), c) <= |c|
    ensures ClaimsOn(prior, c, width % 2 == 1) == width <==> IsFullColumn(prior, c)
    ensures Sum(IsFull(prior), c) == |c| <==> IsFullColumn(prior, c)
  {
    ColumnClaimsBound(prior, c, width % 2 == 1);
    FullTicketsBound(prior, c);
  }

  lemma ColumnInPhase(s: State, round: nat)
    requires Inv(s) && round < Rounds(s.expected)
    ensures ColumnOk(s.prior, Column(s.expected, s.tickets, round), Width(s.expected, round))
    ensures |Column(s.expected, s.tickets, round)| == EndNode(s.expected, round)
  {
    WidthAndRounds(s.expected, round);
    var c, width := Column(s.expected, s.tickets, round), Width(s.expected, round);
    forall i | 0 <= i < |c| ensures TicketInPhase(s.prior, c[i], width % 2 == 1 && i == |c| - 1) {
      assert TicketInPhase(s.prior, Column(s.expected, s.tickets, round)[i], Single(s.expected, round, i));
    }
  }

  lemma EnteredBound(s: State, round: nat)
    requires Inv(s) && round <= Rounds(s.expected)
    ensures Entered(s, round) <= Width(s.expected, round)
  {
    if round == 0 {
      SumBound(HasArrived(), s.threads, 1);
    } else {
      ClaimsBound(s, round - 1);
    }
  }

  /** The unclaimed tickets of a round always number at least the threads searching it. */
  lemma FreeTicketForEverySearcher(s: State, round: nat)
    requires Inv(s) && round < Rounds(s.expected)
    ensures Searching(s, round) <= Width(s.expected, round) - Claimed(s, round)
  {
    assert Balanced(s, round);
    EnteredBound(s, round);
  }

  /** At most one arrival of a phase returns true. */
  lemma AtMostOneReturnsTrue(s: State, t: nat, u: nat)
    requires Inv(s) && t < |s.threads| && u < |s.threads|
    requires s.threads[t] == Done(true) && s.threads[u] == Done(true)
    ensures t == u
  {
    EnteredBound(s, Rounds(s.expected));
    WidthAndRounds(s.expected, Rounds(s.expected));
    if t != u {
      SumTwoMembers(IsChampion(), s.threads, if t < u then t else u, if t < u then u else t);
    }
  }

  /** If a round is entered by as many threads as it is wide, so was every round before it. */
  lemma {:induction false} SaturatedBackwards(s: State, round: nat)
    requires Inv(s) && round <= Rounds(s.expected)
    requires Entered(s, round) == Width(s.expected, round)
    ensures Entered(s, 0) == s.expected
    ensures forall r: nat :: r < round ==> Claimed(s, r) == Width(s.expected, r) && Searching(s, r) == 0
  {
    if round > 0 {
      var r := round - 1;
      ClaimsBound(s, r);
      assert Balanced(s, r);
      EnteredBound(s, r);
      SaturatedBackwards(s, r);
    }
  }

  /** With everybody arrived and nobody searching, every round is saturated. */
  lemma {:induction false} SaturatedForwards(s: State, round: nat)
    requires Inv(s) && round <= Rounds(s.expected)
    requires forall t :: 0 <= t < |s.threads| ==> s.threads[t].Done?
    ensures Entered(s, round) == Width(s.expected, round)
  {
    if round == 0 {
      SumBound(HasArrived(), s.threads, 1);
    } else {
      SaturatedForwards(s, round - 1);
      assert Balanced(s, round - 1);
      SumZero(AtRound(round - 1), s.threads);
      ClaimsBound(s, round - 1);
    }
  }

  /** All the tickets the phase uses carry the next phase's value. */
  ghost predicate AllFull(s: State)
    requires Allocated(s.expected, s.tickets)
  {
    forall r: nat :: r < Rounds(s.expected) ==> IsFullColumn(s.prior, Column(s.expected, s.tickets, r))
  }

  /** The tickets a phase uses, as numbers. */
  ghost predicate TicketsAre(expected: nat, tickets: seq<seq<Phase>>, number: int)
    requires Allocated(expected, tickets)
  {
    forall r: nat, i: nat :: r < Rounds(expected) && i < EndNode(expected, r) ==> tickets[i][r] as int == number
  }

  lemma FullInNumbers(s: State)
    requires Allocated(s.expected, s.tickets) && AllFull(s)
    ensures TicketsAre(s.expected, s.tickets, (s.prior as int + 2) % 256)
  {
    forall r: nat, i: nat | r < Rounds(s.expected) && i < EndNode(s.expected, r)
      ensures s.tickets[i][r] as int == (s.prior as int + 2) % 256
    {
      assert IsFullColumn(s.prior, Column(s.expected, s.tickets, r));
      assert Column(s.expected, s.tickets, r)[i] == s.tickets[i][r];
    }
  }

  lemma ChampionSaturates(s: State, t: nat)
    requires Inv(s) && t < |s.threads| && s.threads[t] == Done(true)
    ensures Sum(HasArrived(), s.threads) == |s.threads|
    ensures forall r: nat :: r < Rounds(s.expected) ==>
              Claimed(s, r) == Width(s.expected, r) && Searching(s, r) == 0
  {
    SumMember(IsChampion(), s.threads, t);
    EnteredBound(s, Rounds(s.expected));
    WidthAndRounds(s.expected, Rounds(s.expected));
    SaturatedBackwards(s, Rounds(s.expected));
  }

  lemma ChampionIsLast(s: State, t: nat, u: nat)
    requires Inv(s) && t < |s.threads| && s.threads[t] == Done(true) && u < |s.threads| && u != t
    ensures s.threads[u] == Done(false)
  {
    ChampionSaturates(s, t);
    SumBound(HasArrived(), s.threads, 1);
    assert HasArrived()(s.threads[u]) == 1;
    if Running(s.threads[u]) {
      assert Searching(s, s.threads[u].round) == 0;
      SumMember(AtRound(s.threads[u].round), s.threads, u);
    } else if s.threads[u] == Done(true) {
      AtMostOneReturnsTrue(s, t, u);
    }
  }

  /** When one arrival has returned true, all the others have arrived and returned false, and
      every ticket of the phase is at old phase + 2. */
  lemma TrueMeansEverybodyArrived(s: State, t: nat)
    requires Inv(s) && t < |s.threads| && s.threads[t] == Done(true)
    ensures forall u :: 0 <= u < |s.threads| && u != t ==> s.threads[u] == Done(false)
    ensures AllFull(s) && TicketsAre(s.expected, s.tickets, (s.prior as int + 2) % 256)
  {
    forall u | 0 <= u < |s.threads| && u != t ensures s.threads[u] == Done(false) {
      ChampionIsLast(s, t, u);
    }
    ChampionSaturates(s, t);
    forall r: nat | r < Rounds(s.expected)
      ensures IsFullColumn(s.prior, Column(s.expected, s.tickets, r))
    {
      ClaimsBound(s, r);
      assert Claimed(s, r) == Width(s.expected, r);
    }
    FullInNumbers(s);
  }

  /** Once all arrivals have returned, exactly one has returned true. */
  lemma ExactlyOneReturnsTrue(s: State)
    requires Inv(s) && forall t :: 0 <= t < |s.threads| ==> s.threads[t].Done?
    ensures exists t :: 0 <= t < |s.threads| && s.threads[t] == Done(true)
              && forall u :: 0 <= u < |s.threads| && u != t ==> s.threads[u] == Done(false)
  {
    SaturatedForwards(s, Rounds(s.expected));
    WidthAndRounds(s.expected, Rounds(s.expected));
    SumZero(IsChampion(), s.threads);
    var t :| 0 <= t < |s.threads| && IsChampion()(s.threads[t]) != 0;
    TrueMeansEverybodyArrived(s, t);
  }

  // ----- One step in numbers -----

  /** What a compare-exchange does to the ticket it is about and to its thread: a ticket of a node of
      two goes from old phase to old phase + 1 and its thread returns false, or from there to old
      phase + 2 and its thread goes up a round, to half the node; a ticket of a node of one goes to old
      phase + 2 at once. The thread that goes up returns true if it is alone in that round. A thread
      passes a node only if its ticket is at old phase + 2. No other ticket and no other thread changes. */
  lemma StepInNumbers(s: State, t: nat, hash: nat)
    requires Inv(s) && t < |s.threads| && Running(s.threads[t])
    ensures var r, n, s' := s.threads[t].round, s.threads[t].node, Step(s, t, hash);
            var old0, half, full := s.prior as int, (s.prior as int + 1) % 256, (s.prior as int + 2) % 256;
            var alone := n + 1 == (Width(s.expected, r) + 1) / 2 && Width(s.expected, r) % 2 == 1;
            var was, next := s.tickets[n][r] as int, s'.threads[t];
            && s'.threads == s.threads[t := next] && s'.prior == s.prior && s'.expected == s.expected
            && (was == old0 || was == half || was == full) && (alone ==> was != half)
            && (if s'.tickets == s.tickets then
                  || (was == full && next == First(r, (n + 1) % ((Width(s.expected, r) + 1) / 2)))
                  || (was == half && s.threads[t].First? && next == Second(r, n))
                else
                  var now := s'.tickets[n][r];
                  && s'.tickets == s.tickets[n := s.tickets[n][r := now]]
                  && if was == old0 && !alone then now as int == half && next == Done(false)
                     else now as int == full && was != full
                          && next == if (Width(s.expected, r) + 1) / 2 <= 1 then Done(true) else First(r + 1, n / 2))
  {
    var r, n := s.threads[t].round, s.threads[t].node;
    assert Column(s.expected, s.tickets, r)[n] == s.tickets[n][r];
    assert TicketInPhase(s.prior, s.tickets[n][r], Single(s.expected, r, n));
    NextNodeWraps(s.expected, r, n);
    assert Width(s.expected, r + 1) == (Width(s.expected, r) + 1) / 2;
  }

  lemma NextNodeWraps(expected: nat, round: nat, node: nat)
    requires node < EndNode(expected, round)
    ensures NextNode(expected, round, node) == (node + 1) % EndNode(expected, round)
  {
  }

  // ----- Runs over any number of phases -----

  /** The constructor: `(expected + 1) >> 1` nodes of zero tickets. */
  function Constructed(expected: nat): State
  {
    State(expected, 0, seq((expected + 1) / 2, _ => seq(ROUNDS, _ => 0)), seq(expected, _ => NotArrived))
  }

  /** The barrier moves on when some arrival has returned true; threads may have dropped out. */
  function NextPhase(s: State, expected: nat): State
  {
    State(expected, FullStep(s.prior), s.tickets, seq(expected, _ => NotArrived))
  }

  ghost predicate Next(s: State, s': State)
  {
    || (WellFormed(s) && exists t: nat, hash: nat :: t < |s.threads| && !s.threads[t].Done? && s' == Step(s, t, hash))
    || (Done(true) in s.threads && 1 <= s'.expected <= s.expected && s' == NextPhase(s, s'.expected))
  }

  ghost predicate IsRun(expected: nat, run: seq<State>)
  {
    && |run| > 0 && run[0] == Constructed(expected)
    && forall i :: 0 <= i < |run| - 1 ==> Next(run[i], run[i + 1])
  }

  lemma ConstructedInv(expected: nat)
    requires 1 <= expected <= MAX_EXPECTED
    ensures Inv(Constructed(expected))
  {
    var s := Constructed(expected);
    AllocationSuffices(expected, expected, s.tickets);
    PhaseStartInv(s);
  }

  lemma {:induction false} RoundsMonotone(small: nat, large: nat)
    requires small <= large
    ensures Rounds(small) <= Rounds(large)
    decreases large
  {
    if small > 1 {
      RoundsMonotone((small + 1) / 2, (large + 1) / 2);
    }
  }

  /** The next phase, with the same or a smaller `expected`, starts from a uniform state. */
  lemma NextPhaseStarts(s: State, t: nat, expected: nat)
    requires Inv(s) && t < |s.threads| && s.threads[t] == Done(true) && 1 <= expected <= s.expected
    ensures PhaseStart(NextPhase(s, expected))
    ensures NextPhase(s, expected).prior as int == (s.prior as int + 2) % 256
    ensures TicketsAre(expected, NextPhase(s, expected).tickets, (s.prior as int + 2) % 256)
  {
    TrueMeansEverybodyArrived(s, t);
    RoundsMonotone(expected, s.expected);
    var s' := NextPhase(s, expected);
    forall r: nat | r < Rounds(expected) ensures EndNode(expected, r) <= EndNode(s.expected, r) {
      WidthMonotone(expected, s.expected, r + 1);
    }
    forall r: nat, i: nat {:trigger Column(expected, s'.tickets, r)[i]} |
      r < Rounds(expected) && i < EndNode(expected, r)
      ensures Column(expected, s'.tickets, r)[i] == s'.prior
    {
      assert IsFullColumn(s.prior, Column(s.expected, s.tickets, r));
      assert Column(s.expected, s.tickets, r)[i] == FullStep(s.prior);
      assert Column(expected, s'.tickets, r)[i] == s.tickets[i][r] == Column(s.expected, s.tickets, r)[i];
    }
  }

  /** Every state of every run, over any number of phases and with any interleaving of the
      arrivals, satisfies the counting invariant. */
  lemma {:induction false} RunKeepsInv(expected: nat, run: seq<State>, i: nat)
    requires 1 <= expected <= MAX_EXPECTED && IsRun(expected, run) && i < |run|
    ensures Inv(run[i])
  {
    if i == 0 {
      ConstructedInv(expected);
    } else {
      RunKeepsInv(expected, run, i - 1);
      var s, s' := run[i - 1], run[i];
      assert Next(s, s');
      if Done(true) in s.threads && 1 <= s'.expected <= s.expected && s' == NextPhase(s, s'.expected) {
        var t :| 0 <= t < |s.threads| && s.threads[t] == Done(true);
        NextPhaseStarts(s, t, s'.expected);
        PhaseStartInv(s');
      } else {
        var t: nat, hash: nat :| t < |s.threads| && !s.threads[t].Done? && s' == Step(s, t, hash);
        StepKeepsInv(s, t, hash);
      }
    }
  }
}
