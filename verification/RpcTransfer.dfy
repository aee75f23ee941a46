/** `send_n` and `recv_n` over the port itself: in every interleaving the strings arrive. */
module RpcTransfer {
  import opened Rpc
  import opened RpcSafety
  import opened RpcDelivery
  import opened RpcProgress
  import opened RpcStream

  /** The sends a `send_n` makes: operations `from` to `from + count - 1` of its side. */
  predicate InSend(t: Thread, x: Side, from: nat, count: nat)
  {
    && t.Holding? && t.port.stage.Access? && t.port.done < |t.port.ops|
    && Sends(x, t.port.ops[t.port.done]) && from <= t.port.done < from + count
  }

  /** In this step a thread in such a send served its lane: it ran the callback of `send_n` on it. */
  ghost predicate ServesAsSendN(s: State, s': State, from: nat, count: nat, src: seq<Bytes>)
  {
    forall x: Side, i: nat ::
      i < |s.Of(x).threads| && i < |s'.Of(x).threads| && s'.Of(x).threads[i] != s.Of(x).threads[i]
      && InSend(s.Of(x).threads[i], x, from, count)
      ==> LaneServed(s.mem, s'.mem, s.Of(x).threads[i].port, from, src)
  }

  ghost predicate LaneServed(m: Memory, m': Memory, p: Port, from: nat, src: seq<Bytes>)
    requires p.stage.Access? && from <= p.done
  {
    var l := p.stage.lane;
    l < |m.packet| == |m'.packet| && l < |m.mask| && m.mask[l] && l < |src| && |src[l]| < LIMIT ==>
      m'.packet[l] == SendLane(m.packet[l], src[l], p.done - from)
  }

  /** The masked lanes below n carry their part of packet k. */
  ghost predicate LanesCarry(p: Packet, mask: seq<bool>, src: seq<Bytes>, k: nat, n: nat)
  {
    |p| == |mask| == |src| && n <= |mask| && forall l :: 0 <= l < n && mask[l] ==> Carries(p[l], src[l], k)
  }

  ghost predicate SentCarries(m: Memory, from: nat, count: nat, src: seq<Bytes>)
  {
    forall k :: from <= k < |m.sent| && k < from + count ==> LanesCarry(m.sent[k], m.mask, src, k - from, |m.mask|)
  }

  ghost predicate MemoryCarries(m: Memory, from: nat, count: nat, src: seq<Bytes>)
  {
    |m.packet| == |m.mask| == |src| && SentCarries(m, from, count, src)
  }

  ghost predicate CallbackCarries(m: Memory, t: Thread, x: Side, from: nat, count: nat, src: seq<Bytes>)
  {
    InSend(t, x, from, count) ==> LanesCarry(m.packet, m.mask, src, t.port.done - from, t.port.stage.lane)
  }

  /** What the packets sent so far, and the one in the making, hold. */
  ghost predicate CarriedSoFar(s: State, from: nat, count: nat, src: seq<Bytes>)
  {
    && MemoryCarries(s.mem, from, count, src)
    && forall x: Side, i: nat :: i < |s.Of(x).threads| ==> CallbackCarries(s.mem, s.Of(x).threads[i], x, from, count, src)
  }

  /** A port in a callback: whose turn it is, how far it has come, and that nobody else is in one. */
  lemma InCallbackFacts(s: State, x: Side, i: nat)
    requires Inv(s) && i < |s.Of(x).threads| && InCallback(s.Of(x).threads[i])
    ensures var m, p := s.mem, s.Of(x).threads[i].port;
            && p.ops == m.ops && p.done == m.accesses / 2 < |m.ops| && p.stage.lane <= |m.packet| == |m.mask|
            && (Sends(x, m.ops[p.done]) ==> p.done == |m.sent|)
    ensures forall y: Side, j: nat :: j < |s.Of(y).threads| && InCallback(s.Of(y).threads[j]) ==> y == x && j == i
  {
    var t := s.Of(x).threads[i];
    var other := Holder(s.Of(x.Other()));
    assert Holder(s.Of(x)) == Some(t);
    assert SidedInv(s.mem, x, Some(t), other);
    forall y: Side, j: nat | j < |s.Of(y).threads| && InCallback(s.Of(y).threads[j]) ensures y == x && j == i {
      if y != x {
        assert other == Some(s.Of(y).threads[j]);
        AccessIsMyTurn(s.mem, x, t.port, other);
      }
    }
    AccessIsMyTurn(s.mem, x, t.port, other);
  }

  /** One lane of a callback of `send_n`. */
  lemma LaneCarries(m: Memory, m': Memory, p: Port, from: nat, src: seq<Bytes>)
    requires p.stage.Access? && from <= p.done && p.stage.lane < |m.packet|
    requires LaneServed(m, m', p, from, src) && (forall l :: 0 <= l < |src| ==> |src[l]| < LIMIT)
    requires m'.mask == m.mask && |m'.packet| == |m.packet|
    requires forall l :: 0 <= l < p.stage.lane ==> m'.packet[l] == m.packet[l]
    requires LanesCarry(m.packet, m.mask, src, p.done - from, p.stage.lane)
    ensures LanesCarry(m'.packet, m.mask, src, p.done - from, p.stage.lane + 1)
  {
    var lane, k := p.stage.lane, p.done - from;
    forall l | 0 <= l < lane + 1 && m.mask[l] ensures Carries(m'.packet[l], src[l], k) {
      assert l < lane ==> Carries(m.packet[l], src[l], k);
    }
  }

  /** A step of a thread outside callbacks leaves the packet and the record of sends alone. */
  lemma OutsideStep(m: Memory, x: Side, t: Thread, locked: bool, c: Choice)
    requires !InCallback(t) && !(x.Client? && Opens(m, x, t))
    ensures var (m', t', _) := ThreadStep(m, x, t, locked, c);
            && m'.packet == m.packet && m'.mask == m.mask && m'.sent == m.sent
            && (InCallback(t') ==> t'.port.stage.lane == 0)
  {
  }

  /** A step inside a callback serves one lane, or ends the callback. */
  lemma InsideStep(m: Memory, x: Side, p: Port, locked: bool, c: Choice)
    requires p.stage.Access? && |m.mask| == |m.packet| && p.stage.lane <= |m.packet|
    ensures var (m', t', _) := ThreadStep(m, x, Holding(p), locked, c);
            && m'.mask == m.mask && |m'.packet| == |m.packet|
            && if p.stage.lane < |m.packet| then
                 && m'.sent == m.sent && t'.Holding? && t' != Holding(p)
                 && (forall l :: 0 <= l < p.stage.lane ==> m'.packet[l] == m.packet[l])
                 && t'.port.ops == p.ops && t'.port.done == p.done && t'.port.stage.Access?
                 && t'.port.stage.lane == p.stage.lane + 1
               else
                 && m'.packet == m.packet && !InCallback(t')
                 && m'.sent == m.sent + if p.done < |p.ops| && Sends(x, p.ops[p.done]) then [m.packet] else []
  {
  }

  /** The end of a callback: its packet joins the record if it was a send. */
  lemma EndCarries(m: Memory, x: Side, p: Port, m': Memory, from: nat, count: nat, src: seq<Bytes>)
    requires p.stage.Access? && p.done < |p.ops| && p.stage.lane == |m.packet| == |m.mask| == |src|
    requires SentCarries(m, from, count, src) && CallbackCarries(m, Holding(p), x, from, count, src)
    requires m'.mask == m.mask && m'.sent == m.sent + if Sends(x, p.ops[p.done]) then [m.packet] else []
    requires Sends(x, p.ops[p.done]) ==> p.done == |m.sent|
    ensures SentCarries(m', from, count, src)
  {
  }

  /** What a step inside a callback makes of the packet, the record and its own thread. */
  lemma CallbackStepCarries(m: Memory, x: Side, p: Port, locked: bool, c: Choice, from: nat, count: nat, src: seq<Bytes>)
    requires p.stage.Access? && p.done < |p.ops| && p.stage.lane <= |m.packet|
    requires Sends(x, p.ops[p.done]) ==> p.done == |m.sent|
    requires MemoryCarries(m, from, count, src) && CallbackCarries(m, Holding(p), x, from, count, src)
    requires InSend(Holding(p), x, from, count) && p.stage.lane < |m.packet| ==>
               LaneServed(m, ThreadStep(m, x, Holding(p), locked, c).0, p, from, src)
    requires forall l :: 0 <= l < |src| ==> |src[l]| < LIMIT
    ensures var (m', t', _) := ThreadStep(m, x, Holding(p), locked, c);
            m'.mask == m.mask && MemoryCarries(m', from, count, src) && CallbackCarries(m', t', x, from, count, src)
  {
    InsideStep(m, x, p, locked, c);
    var m' := ThreadStep(m, x, Holding(p), locked, c).0;
    if p.stage.lane == |m.packet| {
      EndCarries(m, x, p, m', from, count, src);
    } else if InSend(Holding(p), x, from, count) {
      LaneCarries(m, m', p, from, src);
    }
  }

  /** What any step makes of them. */
  lemma MoverCarries(s: State, x: Side, i: nat, c: Choice, from: nat, count: nat, src: seq<Bytes>)
    requires Inv(s) && i < |s.Of(x).threads| && ValidChoice(s.mem, c)
    requires !(x.Client? && Opens(s.mem, x, s.Of(x).threads[i]))
    requires CarriedSoFar(s, from, count, src) && ServesAsSendN(s, Step(s, x, i, c), from, count, src)
    requires forall l :: 0 <= l < |src| ==> |src[l]| < LIMIT
    ensures var t, s' := s.Of(x).threads[i], Step(s, x, i, c);
            && MemoryCarries(s'.mem, from, count, src) && CallbackCarries(s'.mem, s'.Of(x).threads[i], x, from, count, src)
            && s'.mem.mask == s.mem.mask && (InCallback(t) || s'.mem.packet == s.mem.packet)
  {
    var t, s' := s.Of(x).threads[i], Step(s, x, i, c);
    assert CallbackCarries(s.mem, t, x, from, count, src);
    if InCallback(t) {
      InCallbackFacts(s, x, i);
      if InSend(t, x, from, count) && t.port.stage.lane < |s.mem.packet| {
        InsideStep(s.mem, x, t.port, s.Of(x).locked, c);
        assert LaneServed(s.mem, s'.mem, t.port, from, src);
      }
      CallbackStepCarries(s.mem, x, t.port, s.Of(x).locked, c, from, count, src);
    } else {
      OutsideStep(s.mem, x, t, s.Of(x).locked, c);
    }
  }

  lemma StepKeepsCarried(s: State, x: Side, i: nat, c: Choice, from: nat, count: nat, src: seq<Bytes>)
    requires Inv(s) && i < |s.Of(x).threads| && ValidChoice(s.mem, c)
    requires !(x.Client? && Opens(s.mem, x, s.Of(x).threads[i]))
    requires CarriedSoFar(s, from, count, src) && ServesAsSendN(s, Step(s, x, i, c), from, count, src)
    requires forall l :: 0 <= l < |src| ==> |src[l]| < LIMIT
    ensures CarriedSoFar(Step(s, x, i, c), from, count, src)
  {
    var s' := Step(s, x, i, c);
    MoverCarries(s, x, i, c, from, count, src);
    forall y: Side, j: nat | j < |s'.Of(y).threads| ensures CallbackCarries(s'.mem, s'.Of(y).threads[j], y, from, count, src) {
      if y != x || j != i {
        assert s'.Of(y).threads[j] == s.Of(y).threads[j];
        assert CallbackCarries(s.mem, s.Of(y).threads[j], y, from, count, src);
        if InCallback(s.Of(x).threads[i]) {
          InCallbackFacts(s, x, i);
        }
      }
    }
  }

  // ----- Whole runs -----

  /** From one state to another of a run no new session begins, and every callback of these sends is
      that of `send_n`. */
  ghost predicate RunsSendN(run: seq<State>, start: nat, end: nat, from: nat, count: nat, src: seq<Bytes>)
    requires start <= end < |run|
  {
    forall k :: start <= k < end ==> SendStep(run, k, from, count, src)
  }

  ghost predicate SendStep(run: seq<State>, k: nat, from: nat, count: nat, src: seq<Bytes>)
    requires k + 1 < |run|
  {
    && run[k + 1].mem.ops == run[k].mem.ops && run[k + 1].mem.accesses >= run[k].mem.accesses
    && ServesAsSendN(run[k], run[k + 1], from, count, src)
  }

  /** None of these sends has begun. */
  ghost predicate NotBegun(s: State, from: nat, count: nat)
  {
    |s.mem.sent| <= from
    && forall x: Side, i: nat :: i < |s.Of(x).threads| ==> !InSend(s.Of(x).threads[i], x, from, count)
  }

  lemma NextKeepsCarried(run: seq<State>, k: nat, from: nat, count: nat, src: seq<Bytes>)
    requires IsRun(run) && k + 1 < |run| && SendStep(run, k, from, count, src)
    requires CarriedSoFar(run[k], from, count, src) && forall l :: 0 <= l < |src| ==> |src[l]| < LIMIT
    ensures CarriedSoFar(run[k + 1], from, count, src) && run[k + 1].mem.mask == run[k].mem.mask
  {
    var s, s' := run[k], run[k + 1];
    RunKeepsInv(run, k);
    assert Next(s, s');
    var x: Side, i: nat, c: Choice :| i < |s.Of(x).threads| && ValidChoice(s.mem, c) && s' == Step(s, x, i, c);
    StepExtendsOrOpens(s, x, i, c);
    StepKeepsCarried(s, x, i, c, from, count, src);
  }

  lemma NothingCarriedYet(run: seq<State>, k: nat, from: nat, count: nat, src: seq<Bytes>)
    requires IsRun(run) && k < |run| && NotBegun(run[k], from, count) && |run[k].mem.mask| == |src|
    ensures CarriedSoFar(run[k], from, count, src)
  {
    RunKeepsInv(run, k);
  }

  lemma {:induction false} RunKeepsCarried(run: seq<State>, start: nat, end: nat, from: nat, count: nat, src: seq<Bytes>)
    requires IsRun(run) && start <= end < |run| && RunsSendN(run, start, end, from, count, src)
    requires CarriedSoFar(run[start], from, count, src) && forall l :: 0 <= l < |src| ==> |src[l]| < LIMIT
    ensures CarriedSoFar(run[end], from, count, src) && run[end].mem.mask == run[start].mem.mask
    decreases end - start
  {
    if start < end {
      NextKeepsCarried(run, start, from, count, src);
      RunKeepsCarried(run, start + 1, end, from, count, src);
    }
  }

  /** Whatever the interleaving: when one side's `send_n` has been received, packet by packet, the other
      side's `recv_n` gives every lane of the mask the bytes that were sent in it. */
  method ReceiveOverPort(ghost run: seq<State>, ghost start: nat, ghost end: nat, ghost from: nat, ghost src: seq<Bytes>,
                         mask: seq<bool>, got: seq<Packet>)
    returns (dst: seq<Bytes>, received: nat)
    requires IsRun(run) && start <= end < |run| && mask == run[start].mem.mask && |mask| == |src|
    requires forall l :: 0 <= l < |src| ==> |src[l]| < LIMIT
    requires |got| == PacketCount(MaxSize(mask, src)) && RunsSendN(run, start, end, from, |got|, src)
    requires NotBegun(run[start], from, |got|)
    requires from + |got| <= |run[end].mem.got| && got == run[end].mem.got[from..from + |got|]
    ensures |dst| == |src| && forall l :: 0 <= l < |src| ==> dst[l] == if mask[l] then src[l] else []
    ensures received == |got|
  {
    DeliveredInOrder(run, end);
    NothingCarriedYet(run, start, from, |got|, src);
    RunKeepsCarried(run, start, end, from, |got|, src);
    forall k | 0 <= k < |got| ensures LanesCarry(got[k], mask, src, k, |mask|) {
      assert got[k] == run[end].mem.sent[from + k];
    }
    dst, received := ReceiveAll(mask, got, src);
  }
}
