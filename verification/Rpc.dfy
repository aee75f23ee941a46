/** The shared-memory RPC protocol of libc/shared/rpc.h on one port index: the two outbox words,
    the lock bits, the packet, and any number of client and server threads. One step of the
    state machine is one atomic load, store or lock operation, or one lane of a callback. */
module Rpc {

  newtype Byte = b: int | 0 <= b < 256
  const BUFFER := 64                 // sizeof(Buffer::data)

  /** One lane's packet buffer. */
  type Buffer = b: seq<Byte> | |b| == BUFFER witness seq(BUFFER, _ => 0)

  datatype Side = Client | Server
  {
    function Other(): Side { if Client? then Server else Client }
  }

  datatype Option<T> = None | Some(value: T)

  /** Where a port is inside `send`, `recv` or `close`. */
  datatype Stage =
    | Ready                              // between two operations
    | Loading                            // about to set its local `in`
    | Waiting(inbox: bool)               // wait_for_ownership, with the last value of `in`
    | Access(lane: nat, seen: seq<Buffer>)   // invoke_rpc, before this lane; what it found so far
    | Unlocking                          // close, before the lock bit is cleared

  /** `Port`, with the operations its owner will perform: true where the client sends. */
  datatype Port = Port(out: bool, receive: bool, owns: bool, ops: seq<bool>, done: nat, stage: Stage)

  /** Where a thread is inside `open` or `try_open`, or the port it holds. */
  datatype Thread =
    | Idle
    | Peeked(inbox: bool)     // try_open has loaded the inbox, without the lock
    | Trying                  // try_open is about to take the lock
    | Locked                  // holds the lock, before loading the inbox
    | LoadedInbox(inbox: bool)
    | Releasing               // the buffer was unavailable, before giving the lock back
    | Holding(port: Port)

  /** The memory both sides see: the two outbox words, the header and packet, and what has gone
      over the port in the current session. `accesses` counts completed callbacks, two per
      operation. */
  datatype Memory = Memory(
    clientOut: bool,
    serverOut: bool,
    ops: seq<bool>,
    mask: seq<bool>,
    packet: seq<Buffer>,
    accesses: nat,
    sent: seq<seq<Buffer>>,   // the packet at the end of every send
    got: seq<seq<Buffer>>)    // what every recv found in it
  {
    function Outbox(x: Side): bool { if x.Client? then clientOut else serverOut }

    /** A process reads the other one's outbox as its inbox. */
    function Inbox(x: Side): bool { if x.Client? then serverOut else clientOut }

    function Store(x: Side, out: bool): Memory
    {
      if x.Client? then this.(clientOut := out) else this.(serverOut := out)
    }

    /** The client owns the buffer when the two words match. */
    function Owner(): Side { if clientOut == serverOut then Client else Server }
  }

  /** One process at this index: its lock bit and its threads. */
  datatype Process = Process(locked: bool, threads: seq<Thread>)

  datatype State = State(mem: Memory, client: Process, server: Process)
  {
    function Of(x: Side): Process { if x.Client? then client else server }
  }

  /** What a scheduler and the callbacks choose. */
  datatype Choice = Choice(ops: seq<bool>, mask: seq<bool>, value: Buffer)

  /** `buffer_unavailable`, inverted on the server. */
  predicate Unavailable(x: Side, inbox: bool, out: bool)
  {
    var cond := inbox != out;
    if x.Server? then !cond else cond
  }

  predicate Sends(x: Side, clientSends: bool) { if x.Client? then clientSends else !clientSends }

  // ----- Steps -----

  predicate ValidOps(ops: seq<bool>) { |ops| > 0 && ops[0] }

  /** What a client may choose when it opens a port: a mask for the lanes there are, and a
      conversation that starts with its own send. */
  predicate ValidChoice(m: Memory, c: Choice) { ValidOps(c.ops) && |c.mask| == |m.packet| }

  /** A fresh port: the client writes the header first, the server serves the client's header. */
  function OpenPort(m: Memory, x: Side, c: Choice): (Memory, Thread)
  {
    var m' := if x.Client? then m.(ops := c.ops, mask := c.mask, accesses := 0, sent := [], got := []) else m;
    (m', Holding(Port(m.Outbox(x), false, true, m'.ops, 0, Ready)))
  }

  /** One step of `send`, `recv` or `close` on a held port. */
  function PortStep(m: Memory, x: Side, p: Port, c: Choice): (Memory, Thread)
  {
    match p.stage
    case Ready =>
      if p.done >= |p.ops| then
        if p.owns && x.Server? then (m.Store(x, !p.out), Holding(p.(out := !p.out, stage := Unlocking)))
        else (m, Holding(p.(stage := Unlocking)))
      else if !Sends(x, p.ops[p.done]) && p.receive then
        (m.Store(x, !p.out), Holding(p.(out := !p.out, owns := false, stage := Loading)))
      else (m, Holding(p.(stage := Loading)))
    case Loading =>
      (m, Holding(p.(stage := Waiting(if p.owns then p.out != x.Server? else m.Inbox(x)))))
    case Waiting(inbox) =>
      if Unavailable(x, inbox, p.out) then (m, Holding(p.(stage := Waiting(m.Inbox(x)))))
      else (m, Holding(p.(stage := Access(0, []))))
    case Access(lane, seen) =>
      if lane < |m.mask| && lane < |m.packet| then
        var cell := m.packet[lane];
        (m.(packet := m.packet[lane := if m.mask[lane] then c.value else cell]),
         Holding(p.(stage := Access(lane + 1, seen + [cell]))))
      else if p.done < |p.ops| && Sends(x, p.ops[p.done]) then
        (m.(accesses := m.accesses + 1, sent := m.sent + [m.packet]).Store(x, !p.out),
         Holding(p.(out := !p.out, receive := false, owns := false, done := p.done + 1, stage := Ready)))
      else
        (m.(accesses := m.accesses + 1, got := m.got + [seen]),
         Holding(p.(receive := true, owns := true, done := p.done + 1, stage := Ready)))
    case Unlocking => (m, Idle)   // with the lock bit cleared
  }

  /** One step of a thread of side `x`, given the lock bit it sees; the bit it leaves behind is
      the last component. */
  function ThreadStep(m: Memory, x: Side, t: Thread, locked: bool, c: Choice): (Memory, Thread, bool)
  {
    match t
    case Idle =>
      if x.Server? then (m, Peeked(m.Inbox(x)), locked) else TryLock(m, locked)
    case Peeked(inbox) => (m, if Unavailable(x, inbox, m.Outbox(x)) then Idle else Trying, locked)
    case Trying => TryLock(m, locked)
    case Locked => (m, LoadedInbox(m.Inbox(x)), locked)
    case LoadedInbox(inbox) =>
      if Unavailable(x, inbox, m.Outbox(x)) then (m, Releasing, locked)
      else var (m', t') := OpenPort(m, x, c); (m', t', locked)
    case Releasing => (m, Idle, false)
    case Holding(p) =>
      var (m', t') := PortStep(m, x, p, c);
      (m', t', locked && !p.stage.Unlocking?)
  }

  /** `try_lock`: fetch_or of the bit; the lock is taken if it was clear. */
  function TryLock(m: Memory, locked: bool): (Memory, Thread, bool)
  {
    (m, if locked then Idle else Locked, true)
  }

  /** One step of thread `i` of side `x`. */
  function Step(s: State, x: Side, i: nat, c: Choice): State
    requires i < |s.Of(x).threads|
  {
    var p := s.Of(x);
    var (m', t', locked') := ThreadStep(s.mem, x, p.threads[i], p.locked, c);
    var p' := Process(locked', p.threads[i := t']);
    if x.Client? then State(m', p', s.server) else State(m', s.client, p')
  }

  /** The memory is zeroed, no lock is taken. */
  ghost predicate Initial(s: State)
  {
    && !s.mem.clientOut && !s.mem.serverOut && !s.client.locked && !s.server.locked
    && (forall i :: 0 <= i < |s.client.threads| ==> s.client.threads[i] == Idle)
    && (forall i :: 0 <= i < |s.server.threads| ==> s.server.threads[i] == Idle)
    && s.mem.ops == [] && |s.mem.mask| == |s.mem.packet|
    && s.mem.accesses == 0 && s.mem.sent == [] && s.mem.got == []
  }

  ghost predicate Next(s: State, s': State)
  {
    exists x: Side, i: nat, c: Choice ::
      i < |s.Of(x).threads| && ValidChoice(s.mem, c) && s' == Step(s, x, i, c)
  }

  ghost predicate IsRun(run: seq<State>)
  {
    |run| > 0 && Initial(run[0]) && forall i :: 0 <= i < |run| - 1 ==> Next(run[i], run[i + 1])
  }
}
