/** What the callbacks of an RPC port put into a packet, in runs that record who moves and what is
    chosen: a packet sent is what was chosen for its lanes, and a packet received is found as sent. */
module RpcCallbacks {
  import opened Rpc
  import opened RpcSafety
  import opened RpcDelivery
  import opened RpcProgress
  import opened RpcStream
  import opened RpcTransfer

  /** Who moves, and what the scheduler and the callbacks choose. */
  datatype Label = Label(side: Side, thread: nat, choice: Choice)

  predicate CanTake(s: State, a: Label) { a.thread < |s.Of(a.side).threads| && ValidChoice(s.mem, a.choice) }

  predicate Takes(run: seq<State>, labels: seq<Label>, k: nat)
    requires k + 1 < |run| && k < |labels|
  {
    CanTake(run[k], labels[k]) && run[k + 1] == Step(run[k], labels[k].side, labels[k].thread, labels[k].choice)
  }

  ghost predicate IsRecorded(run: seq<State>, labels: seq<Label>)
  {
    && |run| == |labels| + 1 && Initial(run[0])
    && forall k :: 0 <= k < |labels| ==> Takes(run, labels, k)
  }

  lemma RecordedIsRun(run: seq<State>, labels: seq<Label>)
    requires IsRecorded(run, labels)
    ensures IsRun(run)
  {
    forall k | 0 <= k < |run| - 1 ensures Next(run[k], run[k + 1]) {
      assert Takes(run, labels, k);
    }
  }

  // ----- One callback, from its beginning -----

  /** The thread is inside the callback of operation `done`, before this lane. */
  predicate InCallbackAt(s: State, x: Side, i: nat, done: nat, lane: nat)
  {
    && i < |s.Of(x).threads| && InCallback(s.Of(x).threads[i])
    && s.Of(x).threads[i].port.done == done && s.Of(x).threads[i].port.stage.lane == lane
  }

  /** Lane l was served in step k: by a choice if it is in the mask, and otherwise not touched. */
  predicate ServedIn(run: seq<State>, labels: seq<Label>, begun: nat, k: nat, x: Side, i: nat, done: nat, l: nat, cell: Buffer)
  {
    && begun <= k < |labels| && k < |run| && begun < |run| && labels[k].side == x && labels[k].thread == i
    && InCallbackAt(run[k], x, i, done, l)
    && l < |run[begun].mem.mask| && l < |run[begun].mem.packet|
    && cell == if run[begun].mem.mask[l] then labels[k].choice.value else run[begun].mem.packet[l]
  }

  ghost predicate Served(run: seq<State>, labels: seq<Label>, begun: nat, end: nat, x: Side, i: nat, done: nat, l: nat, cell: Buffer)
  {
    exists k: nat :: k < end && ServedIn(run, labels, begun, k, x, i, done, l, cell)
  }

  ghost predicate LanesServed(run: seq<State>, labels: seq<Label>, begun: nat, end: nat, x: Side, i: nat, done: nat,
                              p: Packet, lanes: nat)
  {
    lanes <= |p| && forall l :: 0 <= l < lanes ==> Served(run, labels, begun, end, x, i, done, l, p[l])
  }

  /** The callback began in state `begun`; the lanes before `lane` have been served since, the others
      hold what they held, and the thread has seen what was there. */
  ghost predicate Progressed(run: seq<State>, labels: seq<Label>, begun: nat, end: nat, x: Side, i: nat, done: nat, lane: nat)
  {
    && begun <= end < |run| == |labels| + 1
    && InCallbackAt(run[begun], x, i, done, 0) && InCallbackAt(run[end], x, i, done, lane)
    && PacketProgressed(run, labels, begun, end, x, i, done, lane)
    && run[end].Of(x).threads[i].port.stage.seen == run[begun].mem.packet[..lane]
  }

  ghost predicate PacketProgressed(run: seq<State>, labels: seq<Label>, begun: nat, end: nat, x: Side, i: nat, done: nat, lane: nat)
    requires begun <= end < |run| == |labels| + 1
  {
    var was, now := run[begun].mem, run[end].mem;
    && now.mask == was.mask && |now.packet| == |was.packet| == |was.mask| && lane <= |now.packet|
    && LanesServed(run, labels, begun, end, x, i, done, now.packet, lane)
    && forall l :: lane <= l < |now.packet| ==> now.packet[l] == was.packet[l]
  }

  lemma ServedLater(run: seq<State>, labels: seq<Label>, begun: nat, end: nat, x: Side, i: nat, done: nat, l: nat, cell: Buffer)
    requires Served(run, labels, begun, end, x, i, done, l, cell)
    ensures Served(run, labels, begun, end + 1, x, i, done, l, cell)
  {
    var k: nat :| k < end && ServedIn(run, labels, begun, k, x, i, done, l, cell);
    assert k < end + 1 && ServedIn(run, labels, begun, k, x, i, done, l, cell);
  }

  /** The next lane. */
  lemma ServeNextLane(run: seq<State>, labels: seq<Label>, begun: nat, end: nat, x: Side, i: nat, done: nat, lane: nat)
    requires IsRecorded(run, labels) && end < |labels| && Progressed(run, labels, begun, end, x, i, done, lane)
    requires labels[end].side == x && labels[end].thread == i && lane < |run[end].mem.packet|
    ensures Progressed(run, labels, begun, end + 1, x, i, done, lane + 1)
  {
    assert Takes(run, labels, end);
    var m, p, c := run[end].mem, run[end].Of(x).threads[i].port, labels[end].choice;
    var cell := if m.mask[lane] then c.value else m.packet[lane];
    assert run[end + 1].mem.packet == m.packet[lane := cell];
    assert ServedIn(run, labels, begun, end, x, i, done, lane, cell);
    assert Served(run, labels, begun, end + 1, x, i, done, lane, cell);
    var p' := run[end + 1].mem.packet;
    forall l | 0 <= l < lane + 1 ensures Served(run, labels, begun, end + 1, x, i, done, l, p'[l]) {
      if l < lane {
        ServedLater(run, labels, begun, end, x, i, done, l, m.packet[l]);
      }
    }
  }

  /** A step of anybody else. */
  lemma OthersStandBack(run: seq<State>, labels: seq<Label>, begun: nat, end: nat, x: Side, i: nat, done: nat, lane: nat)
    requires IsRecorded(run, labels) && end < |labels| && Progressed(run, labels, begun, end, x, i, done, lane)
    requires labels[end].side != x || labels[end].thread != i
    ensures Progressed(run, labels, begun, end + 1, x, i, done, lane)
  {
    var s, s', a := run[end], run[end + 1], labels[end];
    RecordedIsRun(run, labels);
    RunKeepsInv(run, end);
    assert Takes(run, labels, end);
    InCallbackFacts(s, x, i);
    StandingBack(s, a.side, a.thread, a.choice, x, i);
    var p := s.mem.packet;
    forall l | 0 <= l < lane ensures Served(run, labels, begun, end + 1, x, i, done, l, p[l]) {
      ServedLater(run, labels, begun, end, x, i, done, l, p[l]);
    }
  }

  /** While a thread is in a callback no other thread changes its port, the packet or the mask. */
  lemma StandingBack(s: State, y: Side, j: nat, c: Choice, x: Side, i: nat)
    requires Inv(s) && j < |s.Of(y).threads| && ValidChoice(s.mem, c) && (y != x || j != i)
    requires i < |s.Of(x).threads| && InCallback(s.Of(x).threads[i])
    ensures var s' := Step(s, y, j, c);
            && i < |s'.Of(x).threads| && s'.Of(x).threads[i] == s.Of(x).threads[i]
            && s'.mem.packet == s.mem.packet && s'.mem.mask == s.mem.mask
  {
    var t := s.Of(y).threads[j];
    InCallbackFacts(s, x, i);
    if y.Client? && Opens(s.mem, y, t) {
      StepExtendsOrOpens(s, y, j, c);
    }
    OutsideStep(s.mem, y, t, s.Of(y).locked, c);
  }

  lemma SeenFits(s: State, x: Side, i: nat)
    requires Inv(s) && i < |s.Of(x).threads| && InCallback(s.Of(x).threads[i])
    ensures |s.Of(x).threads[i].port.stage.seen| == s.Of(x).threads[i].port.stage.lane
  {
    assert Holder(s.Of(x)) == Some(s.Of(x).threads[i]);
    assert SidedInv(s.mem, x, Holder(s.Of(x)), Holder(s.Of(x.Other())));
  }

  /** A thread past the first lane was in the callback already, one lane back if the step was its own. */
  lemma BeforeInCallback(m: Memory, x: Side, t: Thread, locked: bool, c: Choice)
    requires var t' := ThreadStep(m, x, t, locked, c).1; InCallback(t') && t'.port.stage.lane > 0
    ensures var t' := ThreadStep(m, x, t, locked, c).1;
            && InCallback(t) && t.port.done == t'.port.done && t.port.stage.lane + 1 == t'.port.stage.lane
            && t.port.stage.lane < |m.packet|
  {
  }

  /** Every callback under way has served exactly the lanes before its own, by the choices recorded. */
  lemma {:induction false} CallbackHistory(run: seq<State>, labels: seq<Label>, end: nat, x: Side, i: nat, done: nat, lane: nat)
    returns (begun: nat)
    requires IsRecorded(run, labels) && end < |run| && InCallbackAt(run[end], x, i, done, lane)
    ensures Progressed(run, labels, begun, end, x, i, done, lane)
    decreases end
  {
    if lane == 0 {
      begun := end;
      JustBegun(run, labels, end, x, i, done);
    } else {
      var own := OneStepBack(run, labels, end, x, i, done, lane);
      if own {
        begun := CallbackHistory(run, labels, end - 1, x, i, done, lane - 1);
        ServeNextLane(run, labels, begun, end - 1, x, i, done, lane - 1);
      } else {
        begun := CallbackHistory(run, labels, end - 1, x, i, done, lane);
        OthersStandBack(run, labels, begun, end - 1, x, i, done, lane);
      }
    }
  }

  lemma JustBegun(run: seq<State>, labels: seq<Label>, end: nat, x: Side, i: nat, done: nat)
    requires IsRecorded(run, labels) && end < |run| && InCallbackAt(run[end], x, i, done, 0)
    ensures Progressed(run, labels, end, end, x, i, done, 0)
  {
    RecordedIsRun(run, labels);
    RunKeepsInv(run, end);
    InCallbackFacts(run[end], x, i);
    SeenFits(run[end], x, i);
  }

  /** Where the thread was one step before, and whether that step was its own. */
  lemma OneStepBack(run: seq<State>, labels: seq<Label>, end: nat, x: Side, i: nat, done: nat, lane: nat) returns (own: bool)
    requires IsRecorded(run, labels) && end < |run| && lane > 0 && InCallbackAt(run[end], x, i, done, lane)
    ensures end > 0 && own == (labels[end - 1].side == x && labels[end - 1].thread == i)
    ensures InCallbackAt(run[end - 1], x, i, done, if own then lane - 1 else lane)
    ensures own ==> lane - 1 < |run[end - 1].mem.packet|
  {
    if end == 0 {
      assert false;
    }
    assert Takes(run, labels, end - 1);
    var s, a := run[end - 1], labels[end - 1];
    own := a.side == x && a.thread == i;
    if own {
      BeforeInCallback(s.mem, x, s.Of(x).threads[i], s.Of(x).locked, a.choice);
    } else {
      OnlyMoverChanges(s, a.side, a.thread, a.choice);
    }
  }

  // ----- What is sent and what is received -----

  /** The callback of operation `done` by this thread, from its beginning to the end of step k. */
  ghost predicate Callback(run: seq<State>, labels: seq<Label>, begun: nat, k: nat, done: nat)
  {
    && begun <= k < |labels| && |run| == |labels| + 1
    && InCallbackAt(run[begun], labels[k].side, labels[k].thread, done, 0)
    && InCallbackAt(run[k], labels[k].side, labels[k].thread, done, |run[k].mem.packet|)
  }

  /** The packet a send adds to the record holds, in each lane of the mask, what was chosen in the step
      that served the lane, and in every other lane what it held when the callback began. */
  lemma SentIsWhatWasChosen(run: seq<State>, labels: seq<Label>, k: nat) returns (begun: nat)
    requires IsRecorded(run, labels) && k < |labels| && |run[k + 1].mem.sent| > |run[k].mem.sent|
    ensures var done := |run[k].mem.sent|;
            && Callback(run, labels, begun, k, done)
            && |run[k + 1].mem.sent| == done + 1 && run[k + 1].mem.sent[..done] == run[k].mem.sent
            && var p := run[k + 1].mem.sent[done];
               |p| == |run[begun].mem.mask|
               && LanesServed(run, labels, begun, k, labels[k].side, labels[k].thread, done, p, |p|)
  {
    var s, a := run[k], labels[k];
    RecordedIsRun(run, labels);
    RunKeepsInv(run, k);
    assert Takes(run, labels, k);
    EndsCallback(s, a.side, a.thread, a.choice);
    var t := s.Of(a.side).threads[a.thread];
    begun := CallbackHistory(run, labels, k, a.side, a.thread, t.port.done, t.port.stage.lane);
  }

  /** What a receive adds to the record is the packet as it was when the callback began. */
  lemma ReceivedIsWhatWasThere(run: seq<State>, labels: seq<Label>, k: nat) returns (begun: nat)
    requires IsRecorded(run, labels) && k < |labels| && |run[k + 1].mem.got| > |run[k].mem.got|
    ensures var done := |run[k].mem.got|;
            && Callback(run, labels, begun, k, done)
            && run[k + 1].mem.got == run[k].mem.got + [run[begun].mem.packet]
            && var p := run[k + 1].mem.packet;
               |p| == |run[begun].mem.mask|
               && LanesServed(run, labels, begun, k, labels[k].side, labels[k].thread, done, p, |p|)
  {
    var s, a := run[k], labels[k];
    RecordedIsRun(run, labels);
    RunKeepsInv(run, k);
    assert Takes(run, labels, k);
    EndsCallback(s, a.side, a.thread, a.choice);
    var t := s.Of(a.side).threads[a.thread];
    begun := CallbackHistory(run, labels, k, a.side, a.thread, t.port.done, t.port.stage.lane);
    assert run[begun].mem.packet[..t.port.stage.lane] == run[begun].mem.packet;
  }

  /** The record grows only when a callback has served all its lanes. */
  lemma EndsCallback(s: State, x: Side, i: nat, c: Choice)
    requires Inv(s) && i < |s.Of(x).threads| && ValidChoice(s.mem, c)
    requires var m, m' := s.mem, Step(s, x, i, c).mem; |m'.sent| > |m.sent| || |m'.got| > |m.got|
    ensures var m, t, m' := s.mem, s.Of(x).threads[i], Step(s, x, i, c).mem;
            && InCallback(t) && t.port.stage.lane == |m.packet| == |m.mask| && m'.packet == m.packet
            && m'.sent == m.sent + (if |m'.sent| > |m.sent| then [m.packet] else [])
            && m'.got == m.got + (if |m'.got| > |m.got| then [t.port.stage.seen] else [])
            && t.port.done == if |m'.sent| > |m.sent| then |m.sent| else |m.got|
  {
    var t := s.Of(x).threads[i];
    if InCallback(t) {
      InCallbackFacts(s, x, i);
      assert Holder(s.Of(x)) == Some(t);
      assert SidedInv(s.mem, x, Some(t), Holder(s.Of(x.Other())));
      AccessIsMyTurn(s.mem, x, t.port, Holder(s.Of(x.Other())));
    } else {
      RecordKept(s.mem, x, t, s.Of(x).locked, c);
    }
  }

  lemma RecordKept(m: Memory, x: Side, t: Thread, locked: bool, c: Choice)
    requires !InCallback(t)
    ensures var m' := ThreadStep(m, x, t, locked, c).0; |m'.sent| <= |m.sent| && |m'.got| <= |m.got|
  {
  }

  // ----- Runs in which the callbacks are those of `send_n` exist -----

  /** What the callback of `send_n` leaves in the lane a thread is at. */
  function SendNValue(m: Memory, p: Port, from: nat, src: seq<Bytes>, otherwise: Buffer): Buffer
  {
    if p.stage.Access? && from <= p.done && p.stage.lane < |m.packet| && p.stage.lane < |src| && |src[p.stage.lane]| < LIMIT
    then SendLane(m.packet[p.stage.lane], src[p.stage.lane], p.done - from)
    else otherwise
  }

  lemma LaneIsServed(m: Memory, x: Side, p: Port, locked: bool, c: Choice, from: nat, count: nat, src: seq<Bytes>)
    requires InSend(Holding(p), x, from, count) && c.value == SendNValue(m, p, from, src, c.value)
    ensures LaneServed(m, ThreadStep(m, x, Holding(p), locked, c).0, p, from, src)
  {
  }

  /** Whatever thread moves next, it can move as `send_n` does: there is a choice for its callback, and
      any choice will do outside the callbacks of these sends. */
  lemma SendNCanGoOn(s: State, x: Side, i: nat, from: nat, count: nat, src: seq<Bytes>, any: Choice) returns (c: Choice)
    requires i < |s.Of(x).threads| && ValidChoice(s.mem, any)
    ensures ValidChoice(s.mem, c) && Next(s, Step(s, x, i, c)) && ServesAsSendN(s, Step(s, x, i, c), from, count, src)
    ensures !InSend(s.Of(x).threads[i], x, from, count) ==> c == any
  {
    var t := s.Of(x).threads[i];
    c := if InSend(t, x, from, count) then any.(value := SendNValue(s.mem, t.port, from, src, any.value)) else any;
    var s' := Step(s, x, i, c);
    OnlyMoverChanges(s, x, i, c);
    forall y: Side, j: nat |
      j < |s.Of(y).threads| && j < |s'.Of(y).threads| && s'.Of(y).threads[j] != s.Of(y).threads[j]
      && InSend(s.Of(y).threads[j], y, from, count)
      ensures LaneServed(s.mem, s'.mem, s.Of(y).threads[j].port, from, src)
    {
      LaneIsServed(s.mem, x, t.port, s.Of(x).locked, c, from, count, src);
    }
  }

  lemma OnlyMoverChanges(s: State, x: Side, i: nat, c: Choice)
    requires i < |s.Of(x).threads|
    ensures forall y: Side :: |Step(s, x, i, c).Of(y).threads| == |s.Of(y).threads|
    ensures forall y: Side, j: nat :: j < |s.Of(y).threads| && (y != x || j != i) ==>
              Step(s, x, i, c).Of(y).threads[j] == s.Of(y).threads[j]
  {
  }
}
