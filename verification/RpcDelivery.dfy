/** The promises of the RPC port, for every reachable state of every run. */
module RpcDelivery {
  import opened Rpc
  import opened RpcSafety

  predicate InCallback(t: Thread) { t.Holding? && t.port.stage.Access? }

  /** At no time are two threads, of one side or of both, inside a callback on the packet. */
  lemma PacketAccessIsExclusive(run: seq<State>, n: nat, x: Side, i: nat, y: Side, j: nat)
    requires IsRun(run) && n < |run|
    requires i < |run[n].Of(x).threads| && j < |run[n].Of(y).threads|
    requires InCallback(run[n].Of(x).threads[i]) && InCallback(run[n].Of(y).threads[j])
    ensures x == y && i == j
  {
    var s := run[n];
    RunKeepsInv(run, n);
    var other := Holder(s.Of(x.Other()));
    assert SidedInv(s.mem, x, Some(s.Of(x).threads[i]), other);
    if x != y {
      assert other == Some(s.Of(y).threads[j]);
      AccessIsMyTurn(s.mem, x, s.Of(x).threads[i].port, other);
    }
  }

  /** Each side has at most one open port on the index. */
  lemma OnePortPerSide(run: seq<State>, n: nat, x: Side, i: nat, j: nat)
    requires IsRun(run) && n < |run| && i < |run[n].Of(x).threads| && j < |run[n].Of(x).threads|
    requires run[n].Of(x).threads[i].Holding? && run[n].Of(x).threads[j].Holding?
    ensures i == j
  {
    RunKeepsInv(run, n);
  }

  /** Received packets are the sent ones, in order, each once and unmodified; at most one is
      under way. */
  lemma DeliveredInOrder(run: seq<State>, n: nat)
    requires IsRun(run) && n < |run|
    ensures var m := run[n].mem;
            && |m.got| <= |m.sent| <= |m.got| + 1 && |m.sent| <= |m.ops|
            && m.got == m.sent[..|m.got|]
  {
    RunKeepsInv(run, n);
  }

  /** With no port open, either the whole session has gone through and the client owns the
      buffer, whatever its last operation was; or the server has not been woken yet for a
      session that is a single send. */
  lemma BothClosed(run: seq<State>, n: nat)
    requires IsRun(run) && n < |run|
    requires forall x: Side, i: nat :: i < |run[n].Of(x).threads| ==> !run[n].Of(x).threads[i].Holding?
    ensures var m := run[n].mem;
            if m.Owner().Client? then m.accesses == 2 * |m.ops| && m.got == m.sent && |m.got| == |m.ops|
            else |m.ops| == 1 && m.accesses == 1
  {
    var s := run[n];
    RunKeepsInv(run, n);
    forall x: Side ensures !IsEngaged(x, Holder(s.Of(x))) {
      if Holder(s.Of(x)).Some? {
        var i :| 0 <= i < |s.Of(x).threads| && HoldsLock(s.Of(x).threads[i]);
        assert Holder(s.Of(x)) == Some(s.Of(x).threads[i]);
      }
    }
    assert s.Of(Client) == s.client && s.Of(Server) == s.server;
    assert HandoverOk(s.mem, Holder(s.client), Holder(s.server));
  }

  /** The server's close gives the buffer back in the step in which it is its own. */
  lemma ServerCloseReturnsBuffer(s: State, i: nat, c: Choice)
    requires Inv(s) && i < |s.server.threads| && s.server.threads[i].Holding?
    requires var p := s.server.threads[i].port; p.stage == Ready && p.done == |p.ops| && p.owns
    ensures s.mem.Owner() == Server && Step(s, Server, i, c).mem.Owner() == Client
    ensures Step(s, Server, i, c).mem.accesses == 2 * |s.mem.ops|
  {
    assert s.Of(Server) == s.server;
    assert Holder(s.server) == Some(s.server.threads[i]);
    assert SidedInv(s.mem, Server, Holder(s.server), Holder(s.client));
    HandoverKeepsInv(s.mem, Server, s.server.threads[i].port, Holder(s.client), c);
  }

  // ----- No deadlock -----

  /** How far the owner is from completing its access or handing the buffer over. */
  function StageRank(m: Memory, x: Side, p: Port): nat
  {
    match p.stage
    case Ready => |m.packet| + 4
    case Loading => |m.packet| + 3
    case Waiting(inbox) => |m.packet| + if Unavailable(x, inbox, p.out) then 2 else 1
    case Access(lane, _) => if lane <= |m.packet| then |m.packet| - lane else 0
    case Unlocking => 0
  }

  /** Every step of the side that owns the buffer gets somewhere: it completes an access, makes
      an overdue handover, or comes nearer to one of these. It never waits for the other side. */
  lemma OwnerMakesProgress(m: Memory, x: Side, p: Port, other: Option<Thread>, c: Choice)
    requires SidedInv(m, x, Some(Holding(p)), other) && Engaged(x, p) && m.Owner() == x
    ensures var (m', t') := PortStep(m, x, p, c);
            || m'.accesses == m.accesses + 1
            || (m'.accesses == m.accesses && m.Owner() != Turn(m.ops, m.accesses) && m'.Owner() == Turn(m.ops, m.accesses))
            || (m'.accesses == m.accesses && m'.Owner() == m.Owner()
                && t'.Holding? && Engaged(x, t'.port) && StageRank(m', x, t'.port) < StageRank(m, x, p))
  {
    if HandsOver(x, p) {
      HandoverKeepsInv(m, x, p, other, c);
    } else {
      assert PortOk(m, x, p);
      OwnerComesNearer(m, x, p, c);
    }
  }

  /** The owner's steps between two handovers. */
  lemma OwnerComesNearer(m: Memory, x: Side, p: Port, c: Choice)
    requires InSession(m) && PortOk(m, x, p) && Engaged(x, p) && m.Owner() == x && !HandsOver(x, p)
    ensures var (m', t') := PortStep(m, x, p, c);
            || m'.accesses == m.accesses + 1
            || (m'.accesses == m.accesses && m'.Owner() == m.Owner()
                && t'.Holding? && Engaged(x, t'.port) && StageRank(m', x, t'.port) < StageRank(m, x, p))
  {
    assert !Unavailable(x, m.Inbox(x), p.out);
  }

  /** A step of the side that does not own the buffer leaves all shared memory alone. */
  lemma NonOwnerChangesNothing(m: Memory, x: Side, p: Port, other: Option<Thread>, c: Choice)
    requires SidedInv(m, x, Some(Holding(p)), other) && Engaged(x, p) && m.Owner() != x
    ensures PortStep(m, x, p, c).0 == m
  {
    if HandsOver(x, p) {
      HandoverKeepsInv(m, x, p, other, c);
    }
  }

  /** No reachable state is deadlocked: while a session is unfinished, the side that owns the
      buffer has an engaged port (which then makes progress by itself), or it is a server that
      has not opened its port yet and whose check of the mailboxes succeeds. */
  lemma NeverDeadlocked(run: seq<State>, n: nat)
    requires IsRun(run) && n < |run| && run[n].mem.accesses < 2 * |run[n].mem.ops|
    ensures var s, x := run[n], run[n].mem.Owner();
            || (exists i: nat :: i < |s.Of(x).threads| && s.Of(x).threads[i].Holding? && Engaged(x, s.Of(x).threads[i].port))
            || (x.Server? && s.mem.accesses == 1 && !Unavailable(Server, s.mem.Inbox(Server), s.mem.Outbox(Server)))
  {
    var s := run[n];
    var x := s.mem.Owner();
    RunKeepsInv(run, n);
    assert s.Of(Client) == s.client && s.Of(Server) == s.server;
    if IsEngaged(x, Holder(s.Of(x))) {
      var i :| 0 <= i < |s.Of(x).threads| && HoldsLock(s.Of(x).threads[i]);
      assert Holder(s.Of(x)) == Some(s.Of(x).threads[i]);
    } else {
      assert s.mem.Owner() == Turn(s.mem.ops, s.mem.accesses);
      AccessFacts(s.mem.ops, s.mem.accesses);
      assert AbsentOk(s.mem, x);
    }
  }
}
