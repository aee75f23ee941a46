/** Progress of the RPC protocol: nothing is cut off, a session takes a bounded number of steps of the
    side that owns the buffer, and a server that is due to open its port can. */
module RpcProgress {
  import opened Rpc
  import opened RpcSafety
  import opened RpcDelivery

  // ----- Sessions end before the next one begins -----

  predicate Over(m: Memory) { m.accesses == 2 * |m.ops| && m.got == m.sent && |m.got| == |m.ops| }

  predicate Extends(m: Memory, m': Memory)
  {
    m'.ops == m.ops && m'.mask == m.mask && m'.accesses >= m.accesses && m.sent <= m'.sent && m.got <= m'.got
  }

  predicate Fresh(m: Memory) { m.accesses == 0 && m.sent == [] && m.got == [] && ValidOps(m.ops) }

  predicate Opens(m: Memory, x: Side, t: Thread) { t.LoadedInbox? && !Unavailable(x, t.inbox, m.Outbox(x)) }

  lemma PortExtends(m: Memory, x: Side, p: Port, c: Choice)
    ensures Extends(m, PortStep(m, x, p, c).0)
  {
  }

  lemma ThreadExtends(m: Memory, x: Side, t: Thread, locked: bool, c: Choice)
    requires !(x.Client? && Opens(m, x, t))
    ensures Extends(m, ThreadStep(m, x, t, locked, c).0)
  {
    if t.Holding? {
      PortExtends(m, x, t.port, c);
    }
  }

  lemma StepExtendsOrOpens(s: State, x: Side, i: nat, c: Choice)
    requires Inv(s) && i < |s.Of(x).threads| && ValidChoice(s.mem, c)
    ensures var m, m' := s.mem, Step(s, x, i, c).mem;
            if x.Client? && Opens(m, x, s.Of(x).threads[i]) then Over(m) && m.Owner().Client? && Fresh(m') else Extends(m, m')
  {
    var t := s.Of(x).threads[i];
    if x.Client? && Opens(s.mem, x, t) {
      assert Holder(s.Of(x)) == Some(t);
      assert SidedInv(s.mem, x, Some(t), Holder(s.Of(x.Other())));
      OpenKeepsInv(s.mem, x, t.inbox, Holder(s.Of(x.Other())), c);
    } else {
      ThreadExtends(s.mem, x, t, s.Of(x).locked, c);
    }
  }

  /** No session is cut off: from one state to the next the record of what was sent and received
      grows, or it starts anew after a session of which everything sent has been received. */
  lemma NoSessionIsCutOff(run: seq<State>, n: nat)
    requires IsRun(run) && n + 1 < |run|
    ensures var m, m' := run[n].mem, run[n + 1].mem;
            if m'.ops == m.ops && m'.accesses >= m.accesses then Extends(m, m') else Over(m) && Fresh(m')
  {
    RunKeepsInv(run, n);
    assert Next(run[n], run[n + 1]);
    var x: Side, i: nat, c: Choice :|
      i < |run[n].Of(x).threads| && ValidChoice(run[n].mem, c) && run[n + 1] == Step(run[n], x, i, c);
    StepExtendsOrOpens(run[n], x, i, c);
  }

  // ----- A session is finite -----

  /** The session is through and the client owns the buffer: a client may open the next one. */
  predicate Through(m: Memory) { m.accesses == 2 * |m.ops| && m.Owner().Client? }

  /** More than the steps between two accesses or handovers. */
  function Stretch(m: Memory): nat { |m.packet| + 5 }

  /** How far the owner is from its next access or handover, a port yet to be opened included. */
  function OwnerRank(m: Memory, x: Side, h: Option<Thread>): nat
  {
    if IsEngaged(x, h) then StageRank(m, x, h.value.port) else |m.packet| + 4
  }

  /** Two stretches an access: up to its handover, and up to the access. */
  function Budget(accesses: nat, stretch: nat): nat { accesses * (2 * stretch) }

  /** Bounds the steps the owning side can still take in this session. */
  function Left(m: Memory, hc: Option<Thread>, hs: Option<Thread>): nat
    requires InSession(m)
  {
    if Through(m) then 0
    else
      Budget(2 * |m.ops| - m.accesses, Stretch(m))
      + (if m.Owner() == Turn(m.ops, m.accesses) then 0 else Stretch(m))
      + OwnerRank(m, m.Owner(), if m.Owner().Client? then hc else hs)
  }

  function SidedLeft(m: Memory, x: Side, h: Option<Thread>, other: Option<Thread>): nat
    requires InSession(m)
  {
    Left(m, ClientOf(x, h, other), ServerOf(x, h, other))
  }

  lemma RankBelowStretch(m: Memory, x: Side, h: Option<Thread>)
    ensures OwnerRank(m, x, h) < Stretch(m)
  {
  }

  lemma OneAccessFewer(n: nat, stretch: nat)
    requires n > 0
    ensures Budget(n - 1, stretch) == Budget(n, stretch) - 2 * stretch
  {
  }

  lemma LeftBound(m: Memory, hc: Option<Thread>, hs: Option<Thread>)
    requires InSession(m)
    ensures Left(m, hc, hs) <= (2 * |m.ops| - m.accesses + 1) * (2 * (|m.packet| + 5))
  {
    RankBelowStretch(m, m.Owner(), if m.Owner().Client? then hc else hs);
    OneAccessFewer(2 * |m.ops| - m.accesses + 1, Stretch(m));
  }

  /** An access uses up two stretches, whatever it leaves behind. */
  lemma AccessLowersLeft(m: Memory, m': Memory, hc: Option<Thread>, hs: Option<Thread>, hc': Option<Thread>, hs': Option<Thread>)
    requires InSession(m) && InSession(m') && !Through(m)
    requires m'.ops == m.ops && |m'.packet| == |m.packet| && m'.accesses == m.accesses + 1
    ensures Left(m', hc', hs') < Left(m, hc, hs)
  {
    RankBelowStretch(m', m'.Owner(), if m'.Owner().Client? then hc' else hs');
    OneAccessFewer(2 * |m.ops| - m.accesses, Stretch(m));
  }

  /** Every step of an engaged port of the owner uses up some of what is left. */
  lemma OwnerStepLowersLeft(m: Memory, x: Side, p: Port, other: Option<Thread>, c: Choice)
    requires SidedInv(m, x, Some(Holding(p)), other) && Engaged(x, p) && m.Owner() == x && !Through(m)
    ensures var (m', t') := PortStep(m, x, p, c);
            InSession(m') && SidedLeft(m', x, Some(t'), other) < SidedLeft(m, x, Some(Holding(p)), other)
  {
    var (m', t') := PortStep(m, x, p, c);
    PortStepKeepsInv(m, x, p, other, c);
    OwnerMakesProgress(m, x, p, other, c);
    PacketSize(m, x, p, c);
    var h, h' := Some(Holding(p)), Some(t');
    if m'.accesses == m.accesses + 1 {
      AccessLowersLeft(m, m', ClientOf(x, h, other), ServerOf(x, h, other), ClientOf(x, h', other), ServerOf(x, h', other));
    } else {
      RankBelowStretch(m', m'.Owner(), if m'.Owner() == x then h' else other);
    }
  }

  lemma PacketSize(m: Memory, x: Side, p: Port, c: Choice)
    ensures var m' := PortStep(m, x, p, c).0; |m'.packet| == |m.packet| && m'.ops == m.ops
  {
  }

  /** A step of the owning side's open port. */
  predicate OwnerActs(s: State, x: Side, i: nat)
    requires i < |s.Of(x).threads|
  {
    x == s.mem.Owner() && s.Of(x).threads[i].Holding? && Engaged(x, s.Of(x).threads[i].port)
  }

  ghost function LeftOf(s: State): nat
    requires Inv(s)
  {
    Left(s.mem, Holder(s.client), Holder(s.server))
  }

  /** What a thread without an engaged port does leaves the memory of the session alone, and the owner
      no further from its next access. */
  lemma OtherStepKeepsLeft(m: Memory, x: Side, h: Option<Thread>, t: Thread, other: Option<Thread>, locked: bool, c: Choice)
    requires SidedInv(m, x, h, other) && !Through(m) && ValidChoice(m, c)
    requires !(t.Holding? && Engaged(x, t.port) && x == m.Owner())
    requires if HoldsLock(t) then h == Some(t) && locked else h.Some? <==> locked
    ensures var (m', t', locked') := ThreadStep(m, x, t, locked, c);
            var h' := if HoldsLock(t') then Some(t') else if HoldsLock(t) then None else h;
            m' == m && SidedLeft(m, x, h', other) <= SidedLeft(m, x, h, other)
  {
    if t.Holding? && Engaged(x, t.port) {
      NonOwnerChangesNothing(m, x, t.port, other, c);
    } else if Opens(m, x, t) {
      OpenKeepsInv(m, x, t.inbox, other, c);
    }
  }

  lemma StepLowersLeft(s: State, x: Side, i: nat, c: Choice)
    requires Inv(s) && i < |s.Of(x).threads| && ValidChoice(s.mem, c) && !Through(s.mem)
    ensures Inv(Step(s, x, i, c)) && LeftOf(Step(s, x, i, c)) <= LeftOf(s)
    ensures OwnerActs(s, x, i) ==> LeftOf(Step(s, x, i, c)) < LeftOf(s)
  {
    var p, t := s.Of(x), s.Of(x).threads[i];
    var (m', t', locked') := ThreadStep(s.mem, x, t, p.locked, c);
    var other := Holder(s.Of(x.Other()));
    assert SidedInv(s.mem, x, Holder(p), other);
    StepKeepsInv(s, x, i, c);
    HolderAfterStep(s, x, i, c);
    if OwnerActs(s, x, i) {
      EngagedStep(s.mem, x, t.port, c);
      OwnerStepLowersLeft(s.mem, x, t.port, other, c);
    } else {
      OtherStepKeepsLeft(s.mem, x, Holder(p), t, other, p.locked, c);
    }
  }

  /** Who holds the lock of side x after a step of one of its threads. */
  lemma HolderAfterStep(s: State, x: Side, i: nat, c: Choice)
    requires Inv(s) && i < |s.Of(x).threads| && ValidChoice(s.mem, c)
    ensures var p, t, s' := s.Of(x), s.Of(x).threads[i], Step(s, x, i, c);
            var t' := ThreadStep(s.mem, x, t, p.locked, c).1;
            && LockExclusive(s'.Of(x)) && s'.Of(x.Other()) == s.Of(x.Other())
            && Holder(s'.Of(x)) == if HoldsLock(t') then Some(t') else if HoldsLock(t) then None else Holder(p)
  {
    var p, t := s.Of(x), s.Of(x).threads[i];
    var (m', t', locked') := ThreadStep(s.mem, x, t, p.locked, c);
    if HoldsLock(t) {
      assert SidedInv(s.mem, x, Some(t), Holder(s.Of(x.Other())));
      HolderStepKeepsInv(s.mem, x, t, Holder(s.Of(x.Other())), c);
    }
    LockKept(p, i, t', locked');
  }

  ghost predicate IsOwnerStep(s: State, s': State)
  {
    exists i: nat, c: Choice ::
      i < |s.Of(s.mem.Owner()).threads| && ValidChoice(s.mem, c) && OwnerActs(s, s.mem.Owner(), i)
      && s' == Step(s, s.mem.Owner(), i, c)
  }

  lemma NextLowersLeft(s: State, s': State)
    requires Inv(s) && Next(s, s') && !Through(s.mem)
    ensures Inv(s') && LeftOf(s') + (if IsOwnerStep(s, s') then 1 else 0) <= LeftOf(s)
  {
    if IsOwnerStep(s, s') {
      var i: nat, c: Choice :|
        i < |s.Of(s.mem.Owner()).threads| && ValidChoice(s.mem, c) && OwnerActs(s, s.mem.Owner(), i)
        && s' == Step(s, s.mem.Owner(), i, c);
      StepLowersLeft(s, s.mem.Owner(), i, c);
    } else {
      var x: Side, i: nat, c: Choice :| i < |s.Of(x).threads| && ValidChoice(s.mem, c) && s' == Step(s, x, i, c);
      StepLowersLeft(s, x, i, c);
    }
  }

  /** The steps of the owning side's ports between two states of a run. */
  ghost function OwnerSteps(run: seq<State>, from: nat, end: nat): nat
    requires from <= end < |run|
    decreases end
  {
    if from == end then 0 else OwnerSteps(run, from, end - 1) + if IsOwnerStep(run[end - 1], run[end]) then 1 else 0
  }

  ghost function LeftAt(s: State): nat { if Inv(s) then LeftOf(s) else 0 }

  lemma RunLowersLeft(run: seq<State>, k: nat)
    requires IsRun(run) && k + 1 < |run| && !Through(run[k].mem)
    ensures LeftAt(run[k + 1]) + (if IsOwnerStep(run[k], run[k + 1]) then 1 else 0) <= LeftAt(run[k])
  {
    RunKeepsInv(run, k);
    assert Next(run[k], run[k + 1]);
    NextLowersLeft(run[k], run[k + 1]);
  }

  lemma {:induction false} OwnerStepsUseUpLeft(run: seq<State>, from: nat, end: nat)
    requires IsRun(run) && from <= end < |run| && forall k :: from <= k < end ==> !Through(run[k].mem)
    ensures OwnerSteps(run, from, end) + LeftAt(run[end]) <= LeftAt(run[from])
    decreases end
  {
    if from < end {
      OwnerStepsUseUpLeft(run, from, end - 1);
      RunLowersLeft(run, end - 1);
    }
  }

  lemma LeftAtBound(run: seq<State>, k: nat)
    requires IsRun(run) && k < |run|
    ensures run[k].mem.accesses <= 2 * |run[k].mem.ops|
    ensures LeftAt(run[k]) <= (2 * |run[k].mem.ops| - run[k].mem.accesses + 1) * (2 * (|run[k].mem.packet| + 5))
  {
    RunKeepsInv(run, k);
    LeftBound(run[k].mem, Holder(run[k].client), Holder(run[k].server));
  }

  /** Until a session is through, the ports that own the buffer take no more than this many steps,
      whatever the schedule and whatever the other threads do. Together with `NeverDeadlocked`: the
      session is through as soon as the owner has been given that many. */
  lemma SessionIsFinite(run: seq<State>, from: nat, end: nat)
    requires IsRun(run) && from <= end < |run| && forall k :: from <= k < end ==> !Through(run[k].mem)
    ensures var m := run[from].mem;
            m.accesses <= 2 * |m.ops| && OwnerSteps(run, from, end) <= (2 * |m.ops| - m.accesses + 1) * (2 * (|m.packet| + 5))
  {
    OwnerStepsUseUpLeft(run, from, end);
    LeftAtBound(run, from);
  }

  // ----- The server that is due can open its port -----

  /** A first packet waits for a server that has no port open. */
  ghost predicate ServerDue(s: State)
    requires Inv(s)
  {
    s.mem.accesses == 1 && s.mem.Owner().Server? && !IsEngaged(Server, Holder(s.server))
  }

  predicate Opened(p: Process, i: nat) { i < |p.threads| && p.threads[i].Holding? && Engaged(Server, p.threads[i].port) }

  /** Whoever has the server's lock then opens the port or gives the lock back in its next two steps. */
  lemma LockIsGivenBack(s: State, i: nat, c: Choice)
    requires Inv(s) && ServerDue(s) && i < |s.server.threads| && HoldsLock(s.server.threads[i])
    ensures var s1 := Step(s, Server, i, c);
            || Opened(s1.server, i) || !s1.server.locked
            || (var s2 := Step(s1, Server, i, c); Opened(s2.server, i) || !s2.server.locked)
  {
    assert s.Of(Server) == s.server;
    assert Holder(s.server) == Some(s.server.threads[i]);
  }

  /** And while nobody has it, an idle server thread opens the port in five steps. */
  lemma IdleServerOpens(s: State, i: nat, c: Choice)
    requires Inv(s) && ServerDue(s) && i < |s.server.threads| && s.server.threads[i].Idle? && !s.server.locked
    ensures var s1 := Step(s, Server, i, c);
            var s2 := Step(s1, Server, i, c);
            var s3 := Step(s2, Server, i, c);
            var s4 := Step(s3, Server, i, c);
            Opened(Step(s4, Server, i, c).server, i)
  {
    assert s.Of(Server) == s.server;
  }

  // ----- A client can begin a session -----

  predicate Begun(s: State, i: nat, c: Choice)
  {
    && i < |s.client.threads| && s.client.threads[i] == Holding(Port(s.mem.clientOut, false, true, c.ops, 0, Ready))
    && s.mem.ops == c.ops && s.mem.mask == c.mask && Fresh(s.mem)
  }

  /** When the last session is through and nobody has the client's lock, an idle client thread opens a
      port in three steps, with the conversation and the mask it chose. */
  lemma IdleClientOpens(s: State, i: nat, c: Choice)
    requires Inv(s) && Through(s.mem) && ValidChoice(s.mem, c)
    requires i < |s.client.threads| && s.client.threads[i].Idle? && !s.client.locked
    ensures var s1 := Step(s, Client, i, c);
            var s2 := Step(s1, Client, i, c);
            Begun(Step(s2, Client, i, c), i, c)
  {
    assert s.Of(Client) == s.client;
  }

  /** And whoever has the client's lock then opens the port or gives the lock back in its next two steps. */
  lemma ClientLockIsGivenBack(s: State, i: nat, c: Choice)
    requires Inv(s) && Through(s.mem) && ValidChoice(s.mem, c)
    requires i < |s.client.threads| && HoldsLock(s.client.threads[i])
    ensures var s1 := Step(s, Client, i, c);
            || Begun(s1, i, c) || !s1.client.locked
            || (var s2 := Step(s1, Client, i, c); Begun(s2, i, c) || !s2.client.locked)
  {
    assert s.Of(Client) == s.client;
    assert Holder(s.client) == Some(s.client.threads[i]);
  }
}
