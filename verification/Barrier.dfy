/** The combining-tree barrier of libcxx/src/barrier.cpp: `expected` threads claim tickets
    round by round until one is left. One step of the state machine is one compare-exchange of
    `__arrive` with the thread-local work that follows it; every interleaving is a run. */
module Barrier {
  import opened Arithmetic

  /** `__barrier_phase_t` is an unsigned byte, so phases wrap. */
  newtype Phase = p: int | 0 <= p < 256
  const ROUNDS := 64                            // tickets of one node
  const MAX_EXPECTED := 0x7fff_ffff_ffff_ffff   // the largest ptrdiff_t

  /** Adding one to a byte. */
  function Successor(p: Phase): Phase { if p == 255 then 0 else p + 1 }

  function HalfStep(prior: Phase): Phase { Successor(prior) }
  function FullStep(prior: Phase): Phase { Successor(Successor(prior)) }

  /** All the protocol asks of the wrapping phases. */
  lemma PhasesDistinct(prior: Phase)
    ensures prior != HalfStep(prior) && HalfStep(prior) != FullStep(prior) && prior != FullStep(prior)
  {
  }

  /** `__current_expected` of a thread in the given round. */
  function Width(expected: nat, round: nat): nat
  {
    if round == 0 then expected else (Width(expected, round - 1) + 1) / 2
  }

  /** `__end_node` of that round: how many nodes its threads search. */
  function EndNode(expected: nat, round: nat): nat { Width(expected, round + 1) }

  /** The round a lone survivor reaches: the first one that is at most one wide. */
  function Rounds(expected: nat): nat
  {
    if expected <= 1 then 0 else 1 + Rounds((expected + 1) / 2)
  }

  /** Where a thread of one phase stands: not in `__arrive` yet, about to attempt its first or
      its second compare-exchange on a node, or returned. */
  datatype Thread =
    | NotArrived
    | First(round: nat, node: nat)
    | Second(round: nat, node: nat)
    | Done(last: bool)

  datatype State = State(
    expected: nat,
    prior: Phase,   // __old_phase
    tickets: seq<seq<Phase>>,   // __state_[node].__tickets[round].__phase
    threads: seq<Thread>)

  /** The last node of an odd round takes one thread; every other node takes two. */
  predicate Single(expected: nat, round: nat, node: nat)
  {
    node + 1 == EndNode(expected, round) && Width(expected, round) % 2 == 1
  }

  /** Top of a round: the survivor returns true, any other thread searches from `node`. */
  function Enter(expected: nat, round: nat, node: nat): Thread
  {
    if Width(expected, round) <= 1 then Done(true) else First(round, node)
  }

  /** `++__current` with the wrap-around that follows it. */
  function NextNode(expected: nat, round: nat, node: nat): nat
  {
    if node + 1 == EndNode(expected, round) then 0 else node + 1
  }

  // ----- Well-formed states and the step relation -----

  ghost predicate InRange(expected: nat, t: Thread)
  {
    match t
    case NotArrived => true
    case Done(_) => true
    case First(r, n) => r < Rounds(expected) && n < EndNode(expected, r)
    case Second(r, n) => r < Rounds(expected) && n < EndNode(expected, r) && !Single(expected, r, n)
  }

  /** The ticket array covers every node and round a phase of this size can reach. */
  ghost predicate Allocated(expected: nat, tickets: seq<seq<Phase>>)
  {
    && 1 <= expected
    && Rounds(expected) <= ROUNDS
    && (forall r: nat :: r < Rounds(expected) ==> EndNode(expected, r) <= |tickets|)
    && forall i :: 0 <= i < |tickets| ==> |tickets[i]| == ROUNDS
  }

  ghost predicate WellFormed(s: State)
  {
    && Allocated(s.expected, s.tickets)
    && |s.threads| == s.expected
    && forall t :: 0 <= t < |s.threads| ==> InRange(s.expected, s.threads[t])
  }

  predicate Running(t: Thread) { t.First? || t.Second? }

  function SetTicket(tickets: seq<seq<Phase>>, node: nat, round: nat, p: Phase): (r: seq<seq<Phase>>)
    requires node < |tickets| && round < |tickets[node]|
  {
    tickets[node := tickets[node][round := p]]
  }

  /** The next step of thread `t`; `hash` is the hash of its thread id, used on arrival only. */
  ghost function Step(s: State, t: nat, hash: nat): (s': State)
    requires WellFormed(s) && t < |s.threads| && !s.threads[t].Done?
  {
    match s.threads[t]
    case NotArrived =>
      s.(threads := s.threads[t := Enter(s.expected, 0, hash % ((s.expected + 1) / 2))])
    case First(r, n) =>
      var seen := s.tickets[n][r];
      if Single(s.expected, r, n) then
        if seen == s.prior then Claim(s, t, FullStep(s.prior), Enter(s.expected, r + 1, n / 2))
        else Miss(s, t)
      else if seen == s.prior then Claim(s, t, HalfStep(s.prior), Done(false))
      else if seen == HalfStep(s.prior) then s.(threads := s.threads[t := Second(r, n)])
      else Miss(s, t)
    case Second(r, n) =>
      if s.tickets[n][r] == HalfStep(s.prior) then
        Claim(s, t, FullStep(s.prior), Enter(s.expected, r + 1, n / 2))
      else Miss(s, t)
  }

  /** A compare-exchange that succeeds: the ticket takes `p` and the thread moves to `next`. */
  ghost function Claim(s: State, t: nat, p: Phase, next: Thread): State
    requires WellFormed(s) && t < |s.threads| && Running(s.threads[t])
  {
    s.(tickets := SetTicket(s.tickets, s.threads[t].node, s.threads[t].round, p),
       threads := s.threads[t := next])
  }

  /** A compare-exchange that fails for good: the thread tries the next node. */
  ghost function Miss(s: State, t: nat): State
    requires WellFormed(s) && t < |s.threads| && Running(s.threads[t])
  {
    var r := s.threads[t].round;
    s.(threads := s.threads[t := First(r, NextNode(s.expected, r, s.threads[t].node))])
  }

  // ----- Widths -----

  lemma {:induction false} WidthShift(expected: nat, round: nat)
    ensures Width(expected, round + 1) == Width((expected + 1) / 2, round)
  {
    if round > 0 {
      WidthShift(expected, round - 1);
    }
  }

  /** A round is wider than one exactly when it is before the survivor's round. */
  lemma {:induction false} WidthAndRounds(expected: nat, round: nat)
    requires 1 <= expected
    ensures 1 <= Width(expected, round)
    ensures round < Rounds(expected) <==> Width(expected, round) > 1
    decreases round
  {
    if round > 0 {
      WidthShift(expected, round - 1);
      WidthAndRounds((expected + 1) / 2, round - 1);
      if expected == 1 {
        assert Width(1, round - 1) == 1 by { WidthOne(round - 1); }
      }
    }
  }

  lemma {:induction false} WidthOne(round: nat)
    ensures Width(1, round) == 1
  {
    if round > 0 {
      WidthOne(round - 1);
    }
  }

  lemma {:induction false} WidthDecreases(expected: nat, i: nat, j: nat)
    requires i <= j && 1 <= expected
    ensures Width(expected, j) <= Width(expected, i)
    decreases j
  {
    if i < j {
      WidthDecreases(expected, i, j - 1);
      WidthAndRounds(expected, j - 1);
    }
  }

  lemma {:induction false} WidthMonotone(small: nat, large: nat, round: nat)
    requires small <= large
    ensures Width(small, round) <= Width(large, round)
  {
    if round > 0 {
      WidthMonotone(small, large, round - 1);
    }
  }

  lemma {:induction false} RoundsLogarithmic(expected: nat, k: nat)
    requires expected <= Pow2(k)
    ensures Rounds(expected) <= k
    decreases k
  {
    if expected > 1 {
      RoundsLogarithmic((expected + 1) / 2, k - 1);
    }
  }

  lemma PowSixtyThree()
    ensures Pow2(63) == 0x8000_0000_0000_0000
  {
    assert Pow2(3) == 8;
    PowAdd(3, 3);
    assert Pow2(6) == 64;
    PowAdd(6, 6);
    assert Pow2(12) == 0x1000;
    PowAdd(12, 12);
    assert Pow2(24) == 0x100_0000;
    PowAdd(24, 24);
    assert Pow2(48) == 0x1_0000_0000_0000;
    PowAdd(48, 12);
    PowAdd(60, 3);
  }

  /** `(expected + 1) >> 1` nodes of 64 tickets are enough for any phase of at most `expected`
      threads: no round and no node index of such a phase is out of bounds. */
  lemma AllocationSuffices(expected: nat, phase: nat, tickets: seq<seq<Phase>>)
    requires 1 <= phase <= expected <= MAX_EXPECTED
    requires |tickets| == (expected + 1) / 2
    requires forall i :: 0 <= i < |tickets| ==> |tickets[i]| == ROUNDS
    ensures Allocated(phase, tickets)
  {
    PowSixtyThree();
    RoundsLogarithmic(phase, 63);
    forall r: nat | r < Rounds(phase) ensures EndNode(phase, r) <= |tickets| {
      WidthDecreases(phase, 1, r + 1);
      assert Width(phase, 1) == (Width(phase, 0) + 1) / 2;
    }
  }
}
