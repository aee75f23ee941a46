/** What every interleaving of the RPC protocol keeps: exclusive access to the packet, in-order
    delivery, and return of the buffer to the client. */
module RpcSafety {
  import opened Rpc

  // ----- The session as a sequence of accesses -----

  /** Operation k is accessed twice: number 2k by its sender, number 2k + 1 by its receiver. */
  function Sender(ops: seq<bool>, k: nat): Side
    requires k < |ops|
  {
    if ops[k] then Client else Server
  }

  function Receiver(ops: seq<bool>, k: nat): Side
    requires k < |ops|
  {
    Sender(ops, k).Other()
  }

  /** Who makes access number g; after the last one the buffer belongs to the client. */
  function Turn(ops: seq<bool>, g: nat): Side
    requires g <= 2 * |ops|
  {
    if g == 2 * |ops| then Client else if g % 2 == 0 then Sender(ops, g / 2) else Receiver(ops, g / 2)
  }

  /** How many operations a side has completed after g accesses. */
  function Completed(ops: seq<bool>, x: Side, g: nat): nat
    requires g <= 2 * |ops|
  {
    g / 2 + if g % 2 == 1 && Sender(ops, g / 2) == x then 1 else 0
  }

  /** The side received the operation just before operation k. */
  predicate JustReceived(ops: seq<bool>, x: Side, k: nat)
    requires k <= |ops|
  {
    k > 0 && Receiver(ops, k - 1) == x
  }

  // ----- What holds of the memory and of the two lock holders -----

  predicate InSession(m: Memory)
  {
    && m.accesses <= 2 * |m.ops| && |m.mask| == |m.packet|
    && (|m.ops| > 0 ==> m.ops[0])
  }

  /** The port still has something to do to the shared memory. */
  predicate Engaged(x: Side, p: Port)
  {
    if x.Client? then p.done < |p.ops| else p.stage != Unlocking && (p.done < |p.ops| || p.owns)
  }

  predicate IsEngaged(x: Side, h: Option<Thread>)
  {
    h.Some? && h.value.Holding? && Engaged(x, h.value.port)
  }

  /** The local flags of an engaged port agree with its place in the session and with the
      shared words. A port that has received and not moved on still has the buffer. */
  predicate PortOk(m: Memory, x: Side, p: Port)
    requires InSession(m)
  {
    && p.ops == m.ops && p.out == m.Outbox(x)
    && p.done == Completed(m.ops, x, m.accesses) <= |m.ops|
    && (p.owns ==> m.Owner() == x)
    && (p.done == |m.ops| ==> p.stage == Ready)
    && match p.stage
       case Ready =>
         && p.receive == JustReceived(m.ops, x, p.done) && p.owns == (p.done == 0 || p.receive)
         && (p.receive ==> m.accesses == 2 * p.done)
       case Loading => true
       case Waiting(inbox) => !Unavailable(x, inbox, p.out) ==> m.Owner() == x
       case Access(lane, seen) => m.Owner() == x && |seen| == lane <= |m.packet|
       case Unlocking => false
  }

  /** A side without an engaged port has either finished the session or, on the server, not
      been woken yet. */
  predicate AbsentOk(m: Memory, x: Side)
    requires InSession(m)
  {
    if x.Client? then Completed(m.ops, x, m.accesses) == |m.ops|
    else (m.accesses <= 1 && 0 < |m.ops|) || (Completed(m.ops, x, m.accesses) == |m.ops| && m.Owner().Client?)
  }

  /** A lock holder that is not engaged: it is about to open a port, and an inbox value under
      which it would is accurate; or it is on its way out. */
  predicate HolderOk(m: Memory, x: Side, t: Thread)
  {
    match t
    case LoadedInbox(inbox) => !Unavailable(x, inbox, m.Outbox(x)) ==> m.Owner() == x
    case Holding(p) => p.done == |p.ops| && (p.stage == Ready || p.stage == Unlocking)
    case _ => true
  }

  predicate SideOk(m: Memory, x: Side, h: Option<Thread>)
    requires InSession(m)
  {
    if IsEngaged(x, h) then PortOk(m, x, h.value.port)
    else AbsentOk(m, x) && (h.Some? ==> HolderOk(m, x, h.value))
  }

  /** If it is not the owner's turn, the owner has just received and still has to hand over. */
  predicate HandoverOk(m: Memory, hc: Option<Thread>, hs: Option<Thread>)
    requires InSession(m)
  {
    m.Owner() != Turn(m.ops, m.accesses) ==>
      var h := if m.Owner().Client? then hc else hs;
      IsEngaged(m.Owner(), h) && h.value.port.stage == Ready && h.value.port.receive
  }

  /** How far a lock holder has read. */
  function ReadSoFar(h: Option<Thread>): seq<Buffer>
  {
    if h.Some? && h.value.Holding? && h.value.port.stage.Access? then h.value.port.stage.seen else []
  }

  /** Everything received is what was sent; a packet sent but not yet received is intact where
      it has not been read. */
  ghost predicate DataOk(m: Memory, hc: Option<Thread>, hs: Option<Thread>)
    requires InSession(m)
  {
    && |m.sent| == (m.accesses + 1) / 2 && |m.got| == m.accesses / 2
    && m.got == m.sent[..|m.got|]
    && (m.accesses % 2 == 1 ==>
          var p := m.sent[m.accesses / 2];
          var read := ReadSoFar(if Receiver(m.ops, m.accesses / 2).Client? then hc else hs);
          && |p| == |m.packet| && |read| <= |p| && read == p[..|read|]
          && p[|read|..] == m.packet[|read|..])
  }

  ghost predicate CoreInv(m: Memory, hc: Option<Thread>, hs: Option<Thread>)
  {
    && InSession(m)
    && SideOk(m, Client, hc) && SideOk(m, Server, hs)
    && HandoverOk(m, hc, hs) && DataOk(m, hc, hs)
  }

  // ----- The locks -----

  predicate HoldsLock(t: Thread) { t.Locked? || t.LoadedInbox? || t.Releasing? || t.Holding? }

  /** The lock bit is set exactly when some thread holds the lock, and at most one does. */
  ghost predicate LockExclusive(p: Process)
  {
    && (p.locked <==> exists i :: 0 <= i < |p.threads| && HoldsLock(p.threads[i]))
    && forall i, j :: 0 <= i < |p.threads| && 0 <= j < |p.threads| && HoldsLock(p.threads[i]) && HoldsLock(p.threads[j])
         ==> i == j
  }

  ghost function Holder(p: Process): (h: Option<Thread>)
    requires LockExclusive(p)
    ensures h.Some? <==> p.locked
    ensures forall i :: 0 <= i < |p.threads| && HoldsLock(p.threads[i]) ==> h == Some(p.threads[i])
  {
    if p.locked then
      var i :| 0 <= i < |p.threads| && HoldsLock(p.threads[i]);
      Some(p.threads[i])
    else None
  }

  ghost predicate Inv(s: State)
  {
    && LockExclusive(s.client) && LockExclusive(s.server)
    && CoreInv(s.mem, Holder(s.client), Holder(s.server))
  }

  lemma InitialInv(s: State)
    requires Initial(s)
    ensures Inv(s)
  {
  }

  // ----- Preservation, one side at a time -----

  /** One access moves only the side whose turn it is. */
  lemma AccessFacts(ops: seq<bool>, g: nat)
    requires g < 2 * |ops|
    ensures var x := Turn(ops, g);
            && (Sends(x, ops[g / 2]) <==> g % 2 == 0)
            && Completed(ops, x, g) == g / 2 && Completed(ops, x, g + 1) == g / 2 + 1
            && Completed(ops, x.Other(), g + 1) == Completed(ops, x.Other(), g)
            && Completed(ops, x.Other(), g) == g / 2 + g % 2
  {
  }

  function ClientOf(x: Side, h: Option<Thread>, other: Option<Thread>): Option<Thread>
  {
    if x.Client? then h else other
  }

  function ServerOf(x: Side, h: Option<Thread>, other: Option<Thread>): Option<Thread>
  {
    if x.Client? then other else h
  }

  /** The invariant with the holder of side `x` first and the other side's second. */
  ghost predicate SidedInv(m: Memory, x: Side, h: Option<Thread>, other: Option<Thread>)
  {
    CoreInv(m, ClientOf(x, h, other), ServerOf(x, h, other))
  }

  /** Taking, giving back or closing without an engaged port touches nothing. */
  lemma QuietKeepsInv(m: Memory, x: Side, h: Option<Thread>, h': Option<Thread>, other: Option<Thread>)
    requires SidedInv(m, x, h, other) && !IsEngaged(x, h) && !IsEngaged(x, h')
    requires h'.Some? ==> HolderOk(m, x, h'.value)
    requires ReadSoFar(h') == []
    ensures SidedInv(m, x, h', other)
  {
    assert ReadSoFar(h) == [];
  }

  /** A holder that sees the buffer available finds the previous session over (client) or a
      first send waiting (server). */
  lemma OpenKeepsInv(m: Memory, x: Side, inbox: bool, other: Option<Thread>, c: Choice)
    requires SidedInv(m, x, Some(LoadedInbox(inbox)), other) && ValidChoice(m, c)
    requires !Unavailable(x, inbox, m.Outbox(x))
    ensures if x.Client? then m.accesses == 2 * |m.ops| && !IsEngaged(Server, other) else m.accesses == 1
    ensures var (m', t') := OpenPort(m, x, c); SidedInv(m', x, Some(t'), other)
  {
  }

  /** The other side's part survives as long as this side owned the buffer if its word changed. */
  lemma OtherSideKept(m: Memory, m': Memory, x: Side, other: Option<Thread>)
    requires InSession(m) && InSession(m') && SideOk(m, x.Other(), other)
    requires m'.ops == m.ops && |m'.packet| == |m.packet| && m'.Inbox(x) == m.Inbox(x)
    requires m'.Outbox(x) != m.Outbox(x) ==>
               m.Owner() == x && (x.Client? ==> Completed(m.ops, Server, m'.accesses) < |m.ops|)
    requires m'.accesses == m.accesses
             || (m.Owner() == x && m'.accesses == m.accesses + 1 && Turn(m.ops, m.accesses) == x)
    ensures SideOk(m', x.Other(), other)
  {
    if m'.accesses != m.accesses {
      AccessFacts(m.ops, m.accesses);
    }
  }

  /** The data part depends only on what was sent, received and read. */
  lemma DataKept(m: Memory, m': Memory, x: Side, h: Option<Thread>, h': Option<Thread>, other: Option<Thread>)
    requires InSession(m) && InSession(m')
    requires DataOk(m, ClientOf(x, h, other), ServerOf(x, h, other))
    requires m'.ops == m.ops && m'.accesses == m.accesses && m'.packet == m.packet
    requires m'.sent == m.sent && m'.got == m.got && ReadSoFar(h') == ReadSoFar(h)
    ensures DataOk(m', ClientOf(x, h', other), ServerOf(x, h', other))
  {
  }

  /** The port hands the buffer over: before its next receive, or when the server closes. */
  predicate HandsOver(x: Side, p: Port)
  {
    p.stage == Ready
    && if p.done >= |p.ops| then p.owns && x.Server? else !Sends(x, p.ops[p.done]) && p.receive
  }

  /** A handover is due when it is made, and reaches the side whose turn it is. */
  lemma HandoverKeepsInv(m: Memory, x: Side, p: Port, other: Option<Thread>, c: Choice)
    requires SidedInv(m, x, Some(Holding(p)), other) && Engaged(x, p) && HandsOver(x, p)
    ensures m.Owner() == x == Turn(m.ops, m.accesses).Other()
    ensures var (m', t') := PortStep(m, x, p, c); SidedInv(m', x, Some(t'), other)
  {
    var (m', t') := PortStep(m, x, p, c);
    assert m.accesses == 2 * p.done;
    assert m'.Owner() == Turn(m.ops, m.accesses) == x.Other();
    OtherSideKept(m, m', x, other);
    DataKept(m, m', x, Some(Holding(p)), Some(t'), other);
    assert HandoverOk(m', ClientOf(x, Some(t'), other), ServerOf(x, Some(t'), other));
  }

  /** Starting an operation that hands nothing over: it is this side's turn, or the other's. */
  lemma BeginKeepsInv(m: Memory, x: Side, p: Port, other: Option<Thread>, c: Choice)
    requires SidedInv(m, x, Some(Holding(p)), other) && Engaged(x, p)
    requires p.stage == Ready && !HandsOver(x, p)
    ensures var (m', t') := PortStep(m, x, p, c); m' == m && SidedInv(m', x, Some(t'), other)
  {
    var (m', t') := PortStep(m, x, p, c);
    DataKept(m, m, x, Some(Holding(p)), Some(t'), other);
    if p.receive {
      assert Sends(x, m.ops[p.done]);
      assert Turn(m.ops, m.accesses) == x;
    }
    assert SideOk(m, x, Some(t'));
    assert HandoverOk(m, ClientOf(x, Some(t'), other), ServerOf(x, Some(t'), other));
  }

  /** While a port is inside an operation no handover can be overdue from its side. */
  lemma InOperationOk(m: Memory, x: Side, p: Port, p': Port, other: Option<Thread>)
    requires SidedInv(m, x, Some(Holding(p)), other) && Engaged(x, p) && p.stage != Ready
    requires p'.stage != Ready && Engaged(x, p') && PortOk(m, x, p')
    requires ReadSoFar(Some(Holding(p'))) == ReadSoFar(Some(Holding(p)))
    ensures SidedInv(m, x, Some(Holding(p')), other)
  {
    assert m.Owner() == x ==> Turn(m.ops, m.accesses) == x;
    DataKept(m, m, x, Some(Holding(p)), Some(Holding(p')), other);
  }

  /** Loading the inbox, and seeing the buffer available. */
  lemma WaitKeepsInv(m: Memory, x: Side, p: Port, other: Option<Thread>, c: Choice)
    requires SidedInv(m, x, Some(Holding(p)), other) && Engaged(x, p)
    requires p.stage == Loading || p.stage.Waiting?
    ensures var (m', t') := PortStep(m, x, p, c); m' == m && SidedInv(m', x, Some(t'), other)
  {
    var (m', t') := PortStep(m, x, p, c);
    assert PortOk(m, x, p);
    assert PortOk(m, x, t'.port);
    InOperationOk(m, x, p, t'.port, other);
  }

  /** A port inside a callback has its turn: the packet is its own. */
  lemma AccessIsMyTurn(m: Memory, x: Side, p: Port, other: Option<Thread>)
    requires SidedInv(m, x, Some(Holding(p)), other) && Engaged(x, p) && p.stage.Access?
    ensures m.Owner() == x == Turn(m.ops, m.accesses) && m.accesses < 2 * |m.ops|
    ensures p.done == m.accesses / 2 < |m.ops|
    ensures Sends(x, m.ops[p.done]) <==> m.accesses % 2 == 0
    ensures !(IsEngaged(x.Other(), other) && other.value.port.stage.Access?)
  {
    AccessFacts(m.ops, m.accesses);
  }

  lemma LaneStepKeepsInv(m: Memory, x: Side, p: Port, other: Option<Thread>, c: Choice)
    requires SidedInv(m, x, Some(Holding(p)), other) && Engaged(x, p)
    requires p.stage.Access? && p.stage.lane < |m.packet|
    ensures var (m', t') := PortStep(m, x, p, c); SidedInv(m', x, Some(t'), other)
  {
    AccessIsMyTurn(m, x, p, other);
    var (m', t') := PortStep(m, x, p, c);
    OtherSideKept(m, m', x, other);
    LaneStepKeepsPort(m, x, p, c);
    assert HandoverOk(m', ClientOf(x, Some(t'), other), ServerOf(x, Some(t'), other));
    LaneStepKeepsData(m, x, p, other, c);
  }

  lemma LaneStepKeepsPort(m: Memory, x: Side, p: Port, c: Choice)
    requires InSession(m) && Engaged(x, p) && PortOk(m, x, p)
    requires p.stage.Access? && p.stage.lane < |m.packet|
    ensures var (m', t') := PortStep(m, x, p, c);
            && InSession(m') && t'.Holding? && Engaged(x, t'.port) && PortOk(m', x, t'.port)
            && m'.accesses == m.accesses && m'.ops == m.ops && m'.sent == m.sent && m'.got == m.got
  {
  }

  /** Reading lane by lane, or writing over what has been received. */
  lemma LaneStepKeepsData(m: Memory, x: Side, p: Port, other: Option<Thread>, c: Choice)
    requires SidedInv(m, x, Some(Holding(p)), other) && Engaged(x, p)
    requires p.stage.Access? && p.stage.lane < |m.packet|
    ensures var (m', t') := PortStep(m, x, p, c);
            InSession(m') && DataOk(m', ClientOf(x, Some(t'), other), ServerOf(x, Some(t'), other))
  {
    AccessIsMyTurn(m, x, p, other);
    var (m', t') := PortStep(m, x, p, c);
    if m.accesses % 2 == 1 {
      var sent, lane := m.sent[m.accesses / 2], p.stage.lane;
      assert ReadSoFar(Some(Holding(p))) == p.stage.seen;
      assert m.packet[lane..][0] == sent[lane..][0];
      assert t'.port.stage.seen == sent[..lane + 1];
      assert m'.packet[lane + 1..] == m.packet[lane..][1..] == sent[lane..][1..] == sent[lane + 1..];
    }
  }

  /** The packet a send leaves behind is the one to be received next. */
  lemma SendAddsPacket(m: Memory, m': Memory, x: Side, h: Option<Thread>, h': Option<Thread>, other: Option<Thread>)
    requires InSession(m) && InSession(m') && m'.ops == m.ops && m.accesses % 2 == 0
    requires DataOk(m, ClientOf(x, h, other), ServerOf(x, h, other))
    requires m'.accesses == m.accesses + 1 && m'.packet == m.packet && m'.got == m.got && m'.sent == m.sent + [m.packet]
    requires ReadSoFar(h') == [] && ReadSoFar(other) == []
    ensures DataOk(m', ClientOf(x, h', other), ServerOf(x, h', other))
  {
    assert m'.sent[..|m'.got|] == m.sent[..|m.got|];
  }

  /** A side that does not own the buffer is not inside a callback. */
  lemma OutsideCallback(m: Memory, x: Side, h: Option<Thread>)
    requires InSession(m) && SideOk(m, x, h) && m.Owner() != x
    ensures ReadSoFar(h) == []
  {
  }

  /** The end of a send completes its access and passes the buffer on. */
  lemma LastSendLaneKeepsInv(m: Memory, x: Side, p: Port, other: Option<Thread>, c: Choice)
    requires SidedInv(m, x, Some(Holding(p)), other) && Engaged(x, p)
    requires p.stage.Access? && p.stage.lane == |m.packet| && m.accesses % 2 == 0
    ensures var (m', t') := PortStep(m, x, p, c); SidedInv(m', x, Some(t'), other)
  {
    AccessIsMyTurn(m, x, p, other);
    var (m', t') := PortStep(m, x, p, c);
    SentSideOk(m, x, p, c);
    OtherSideKept(m, m', x, other);
    OutsideCallback(m, x.Other(), other);
    SendAddsPacket(m, m', x, Some(Holding(p)), Some(t'), other);
  }

  lemma SentSideOk(m: Memory, x: Side, p: Port, c: Choice)
    requires InSession(m) && Engaged(x, p) && PortOk(m, x, p) && m.accesses % 2 == 0
    requires p.stage.Access? && p.stage.lane == |m.packet| && x == Turn(m.ops, m.accesses) && m.accesses < 2 * |m.ops|
    ensures var (m', t') := PortStep(m, x, p, c);
            && InSession(m') && SideOk(m', x, Some(t')) && m'.Owner() == x.Other() == Turn(m.ops, m'.accesses)
            && m'.ops == m.ops && m'.accesses == m.accesses + 1 && m'.packet == m.packet
            && m'.got == m.got && m'.sent == m.sent + [m.packet] && ReadSoFar(Some(t')) == []
  {
    AccessFacts(m.ops, m.accesses);
  }

  /** The end of a receive completes its access; the receiver keeps the buffer. */
  lemma LastRecvLaneKeepsInv(m: Memory, x: Side, p: Port, other: Option<Thread>, c: Choice)
    requires SidedInv(m, x, Some(Holding(p)), other) && Engaged(x, p)
    requires p.stage.Access? && p.stage.lane == |m.packet| && m.accesses % 2 == 1
    ensures var (m', t') := PortStep(m, x, p, c); SidedInv(m', x, Some(t'), other)
  {
    AccessIsMyTurn(m, x, p, other);
    AccessFacts(m.ops, m.accesses);
    var (m', t') := PortStep(m, x, p, c);
    OtherSideKept(m, m', x, other);
    assert p.stage.seen == m.sent[m.accesses / 2];
    assert m'.got == m'.sent[..|m'.got|];
    if IsEngaged(x, Some(t')) {
      assert PortOk(m', x, t'.port);
    } else {
      assert x.Client? && p.done + 1 == |m.ops|;
    }
    assert SideOk(m', x, Some(t'));
    assert HandoverOk(m', ClientOf(x, Some(t'), other), ServerOf(x, Some(t'), other));
  }

  /** Every step of an engaged port keeps the invariant. */
  lemma PortStepKeepsInv(m: Memory, x: Side, p: Port, other: Option<Thread>, c: Choice)
    requires SidedInv(m, x, Some(Holding(p)), other) && Engaged(x, p)
    ensures var (m', t') := PortStep(m, x, p, c); SidedInv(m', x, Some(t'), other)
  {
    if HandsOver(x, p) {
      HandoverKeepsInv(m, x, p, other, c);
    } else if p.stage == Ready {
      BeginKeepsInv(m, x, p, other, c);
    } else if !p.stage.Access? {
      WaitKeepsInv(m, x, p, other, c);
    } else if p.stage.lane < |m.packet| {
      LaneStepKeepsInv(m, x, p, other, c);
    } else if m.accesses % 2 == 0 {
      LastSendLaneKeepsInv(m, x, p, other, c);
    } else {
      LastRecvLaneKeepsInv(m, x, p, other, c);
    }
  }

  /** Every step of a lock holder keeps the invariant. */
  lemma HolderStepKeepsInv(m: Memory, x: Side, t: Thread, other: Option<Thread>, c: Choice)
    requires SidedInv(m, x, Some(t), other) && HoldsLock(t) && ValidChoice(m, c)
    ensures var (m', t', locked') := ThreadStep(m, x, t, true, c);
            && locked' == HoldsLock(t')
            && SidedInv(m', x, if locked' then Some(t') else None, other)
  {
    var (m', t', locked') := ThreadStep(m, x, t, true, c);
    var h' := if locked' then Some(t') else None;
    if t.LoadedInbox? && !Unavailable(x, t.inbox, m.Outbox(x)) {
      OpenKeepsInv(m, x, t.inbox, other, c);
    } else if !IsEngaged(x, Some(t)) {
      QuietKeepsInv(m, x, Some(t), h', other);
    } else {
      EngagedStep(m, x, t.port, c);
      PortStepKeepsInv(m, x, t.port, other, c);
    }
  }

  /** An engaged port is not on its way out, so its step is one of the port alone. */
  lemma EngagedStep(m: Memory, x: Side, p: Port, c: Choice)
    requires InSession(m) && Engaged(x, p) && PortOk(m, x, p)
    ensures var (m', t') := PortStep(m, x, p, c);
            ThreadStep(m, x, Holding(p), true, c) == (m', t', true) && t'.Holding?
  {
  }

  // ----- Preservation by every thread of either side -----

  /** A step keeps the lock exclusive and moves the holder accordingly. */
  lemma LockKept(p: Process, i: nat, t': Thread, locked': bool)
    requires LockExclusive(p) && i < |p.threads|
    requires if HoldsLock(p.threads[i]) then locked' == HoldsLock(t')
             else if HoldsLock(t') then !p.locked && locked' else locked' == p.locked
    ensures var p' := Process(locked', p.threads[i := t']);
            && LockExclusive(p')
            && Holder(p') == if HoldsLock(t') then Some(t')
                             else if HoldsLock(p.threads[i]) then None else Holder(p)
  {
    var p' := Process(locked', p.threads[i := t']);
    if HoldsLock(t') {
      assert HoldsLock(p'.threads[i]);
    } else if p.locked && !HoldsLock(p.threads[i]) {
      var j :| 0 <= j < |p.threads| && HoldsLock(p.threads[j]);
      assert HoldsLock(p'.threads[j]);
    }
  }

  lemma StepKeepsInv(s: State, x: Side, i: nat, c: Choice)
    requires Inv(s) && i < |s.Of(x).threads| && ValidChoice(s.mem, c)
    ensures Inv(Step(s, x, i, c))
  {
    var p, t := s.Of(x), s.Of(x).threads[i];
    var (m', t', locked') := ThreadStep(s.mem, x, t, p.locked, c);
    var other := Holder(s.Of(x.Other()));
    assert SidedInv(s.mem, x, Holder(p), other);
    if HoldsLock(t) {
      HolderStepKeepsInv(s.mem, x, t, other, c);
    } else if HoldsLock(t') {
      QuietKeepsInv(s.mem, x, None, Some(t'), other);
    }
    LockKept(p, i, t', locked');
    assert SidedInv(m', x, Holder(Process(locked', p.threads[i := t'])), other);
  }

  /** Every state of every interleaving, for any number of threads and sessions. */
  lemma {:induction false} RunKeepsInv(run: seq<State>, i: nat)
    requires IsRun(run) && i < |run|
    ensures Inv(run[i])
  {
    if i == 0 {
      InitialInv(run[0]);
    } else {
      RunKeepsInv(run, i - 1);
      assert Next(run[i - 1], run[i - 1 + 1]);
      var x: Side, j: nat, c: Choice :|
        j < |run[i - 1].Of(x).threads| && ValidChoice(run[i - 1].mem, c) && run[i] == Step(run[i - 1], x, j, c);
      StepKeepsInv(run[i - 1], x, j, c);
    }
  }
}
