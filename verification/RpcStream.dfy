/** `send_n` and `recv_n`: byte strings of any size per lane, cut into packets. The first packet
    carries the size and 56 bytes, every later one 64 bytes; the largest lane sets the number. */
module RpcStream {
  import opened Rpc

  const WORD := 8
  const FIRST := 56                                    // sizeof(Buffer::data) - sizeof(uint64_t)
  const LIMIT := 0x1_0000_0000_0000_0000               // sizes are uint64_t
  type Bytes = seq<Byte>
  type Packet = seq<Buffer>                            // one buffer a lane

  // ----- Words and copies -----

  /** A machine word in memory, least significant byte first. */
  function WordBytes(n: nat, k: nat): (b: Bytes)
    ensures |b| == k
  {
    if k == 0 then [] else [(n % 256) as Byte] + WordBytes(n / 256, k - 1)
  }

  function WordOf(b: Bytes): nat
  {
    if b == [] then 0 else b[0] as nat + 256 * WordOf(b[1..])
  }

  function Power256(k: nat): nat { if k == 0 then 1 else 256 * Power256(k - 1) }

  lemma {:induction false} WordRoundTrip(n: nat, k: nat)
    requires n < Power256(k)
    ensures WordOf(WordBytes(n, k)) == n
  {
    if k > 0 {
      assert WordBytes(n, k)[1..] == WordBytes(n / 256, k - 1);
      WordRoundTrip(n / 256, k - 1);
    }
  }

  /** `memcpy` of `src` to offset `at` of `dst`. */
  function Memcpy(dst: Bytes, at: nat, src: Bytes): (r: Bytes)
    requires at + |src| <= |dst|
    ensures |r| == |dst| && r[at..at + |src|] == src
    ensures r[..at] == dst[..at] && r[at + |src|..] == dst[at + |src|..]
  {
    dst[..at] + src + dst[at + |src|..]
  }

  // ----- How a byte string is laid out over packets -----

  function Min(a: nat, b: nat): nat { if a < b then a else b }

  /** The part of a string of `size` bytes that packet k carries. */
  function ChunkStart(k: nat): nat { if k == 0 then 0 else FIRST + BUFFER * (k - 1) }

  function ChunkEnd(size: nat, k: nat): nat { Min(size, FIRST + BUFFER * k) }

  /** Packets needed for a string: one, and one more for every 64 bytes begun after the first 56. */
  function PacketCount(size: nat): nat
  {
    if size <= FIRST then 1 else 1 + (size - FIRST + BUFFER - 1) / BUFFER
  }

  /** In numbers: the first packet is full after the size and 56 bytes, each later one after 64, and the
      last one is needed. */
  lemma LayoutInNumbers(size: nat, k: nat)
    ensures WORD == 8 && WORD + FIRST == 64
    ensures var n := PacketCount(size);
            n >= 1 && size <= 56 + 64 * (n - 1) && (n > 1 ==> 56 + 64 * (n - 2) < size)
    ensures ChunkStart(0) == 0 && ChunkStart(k + 1) == 56 + 64 * k
    ensures ChunkEnd(size, k) == Min(size, ChunkStart(k + 1))
  {
  }

  predicate ValidPacket(p: Packet, lanes: nat) { |p| == lanes }

  predicate ValidPackets(packets: seq<Packet>, lanes: nat)
  {
    forall k :: 0 <= k < |packets| ==> ValidPacket(packets[k], lanes)
  }

  /** Packet k carries its part of the string in this lane. */
  predicate Carries(b: Buffer, s: Bytes, k: nat)
  {
    if k == 0 then b[..WORD] == WordBytes(|s|, WORD) && b[WORD..WORD + Min(|s|, FIRST)] == s[..Min(|s|, FIRST)]
    else ChunkStart(k) < |s| ==>
           b[..ChunkEnd(|s|, k) - ChunkStart(k)] == s[ChunkStart(k)..ChunkEnd(|s|, k)]
  }

  /** The largest size among the first `n` lanes, counting those of the mask. */
  function MaxUpTo(mask: seq<bool>, src: seq<Bytes>, n: nat): nat
    requires |mask| == |src| && n <= |src|
  {
    if n == 0 then 0 else
      var rest := MaxUpTo(mask, src, n - 1);
      if mask[n - 1] && |src[n - 1]| > rest then |src[n - 1]| else rest
  }

  function MaxSize(mask: seq<bool>, src: seq<Bytes>): nat
    requires |mask| == |src|
  {
    MaxUpTo(mask, src, |src|)
  }

  lemma {:induction false} MaxIsUpperBound(mask: seq<bool>, src: seq<Bytes>, n: nat, l: nat)
    requires |mask| == |src| && l < n <= |src| && mask[l]
    ensures |src[l]| <= MaxUpTo(mask, src, n)
  {
    if l < n - 1 {
      MaxIsUpperBound(mask, src, n - 1, l);
    }
  }

  lemma {:induction false} MaxIsAttained(mask: seq<bool>, src: seq<Bytes>, n: nat)
    requires |mask| == |src| && n <= |src| && MaxUpTo(mask, src, n) > 0
    ensures exists l :: 0 <= l < n && mask[l] && |src[l]| == MaxUpTo(mask, src, n)
  {
    if mask[n - 1] && |src[n - 1]| == MaxUpTo(mask, src, n) {
    } else {
      MaxIsAttained(mask, src, n - 1);
    }
  }

  /** The packets are a transmission of the strings of the masked lanes. */
  ghost predicate Transmits(packets: seq<Packet>, mask: seq<bool>, src: seq<Bytes>)
    requires |mask| == |src|
  {
    && |packets| == PacketCount(MaxSize(mask, src))
    && ValidPackets(packets, |src|)
    && forall k, l :: 0 <= k < |packets| && 0 <= l < |src| && mask[l] ==> Carries(packets[k][l], src[l], k)
  }

  // ----- send_n -----

  /** One lane of the callback of packet k, on whatever its buffer holds. The length left is computed
      unsigned and wraps when nothing is left, in which case nothing is copied. */
  function SendLane(b: Buffer, s: Bytes, k: nat): (r: Buffer)
    requires |s| < LIMIT
    ensures Carries(r, s, k)
  {
    if k == 0 then
      var len := if |s| > FIRST then FIRST else |s|;
      var sized := Memcpy(b, 0, WordBytes(|s|, WORD));
      var r := Memcpy(sized, WORD, s[..len]);
      assert r[..WORD] == WordBytes(|s|, WORD);
      r
    else
      var idx := ChunkStart(k);
      var left := (|s| - idx) % LIMIT;
      var len := if left > BUFFER then BUFFER else left;
      if idx < |s| then Memcpy(b, 0, s[idx..idx + len]) else b
  }

  /** The first callback of `send_n`, over all lanes. */
  method FillFirst(mask: seq<bool>, src: seq<Bytes>, before: Packet) returns (packet: Packet, numSends: nat)
    requires |mask| == |src| && ValidPacket(before, |src|)
    requires forall l :: 0 <= l < |src| ==> |src[l]| < LIMIT
    ensures ValidPacket(packet, |src|) && numSends == MaxSize(mask, src)
    ensures forall l :: 0 <= l < |src| ==> packet[l] == if mask[l] then SendLane(before[l], src[l], 0) else before[l]
  {
    packet := before;
    numSends := 0;
    for i := 0 to |src|
      invariant ValidPacket(packet, |src|) && numSends == MaxUpTo(mask, src, i)
      invariant forall l :: 0 <= l < i ==> packet[l] == if mask[l] then SendLane(before[l], src[l], 0) else before[l]
      invariant forall l :: i <= l < |src| ==> packet[l] == before[l]
    {
      if mask[i] {
        var size := |src[i]|;
        numSends := if size > numSends then size else numSends;
        packet := packet[i := SendLane(packet[i], src[i], 0)];
      }
    }
  }

  /** The callback of a later packet. */
  method FillNext(mask: seq<bool>, src: seq<Bytes>, before: Packet, k: nat) returns (packet: Packet)
    requires |mask| == |src| && ValidPacket(before, |src|) && k > 0
    requires forall l :: 0 <= l < |src| ==> |src[l]| < LIMIT
    ensures ValidPacket(packet, |src|)
    ensures forall l :: 0 <= l < |src| ==> packet[l] == if mask[l] then SendLane(before[l], src[l], k) else before[l]
  {
    packet := before;
    for i := 0 to |src|
      invariant ValidPacket(packet, |src|)
      invariant forall l :: 0 <= l < i ==> packet[l] == if mask[l] then SendLane(before[l], src[l], k) else before[l]
      invariant forall l :: i <= l < |src| ==> packet[l] == before[l]
    {
      if mask[i] {
        packet := packet[i := SendLane(packet[i], src[i], k)];
      }
    }
  }

  /** Packet k of the transmission, with the other lanes as they were before it. */
  ghost predicate PacketOf(p: Packet, mask: seq<bool>, src: seq<Bytes>, before: Packet, k: nat)
    requires |mask| == |src| && ValidPacket(before, |src|)
  {
    && ValidPacket(p, |src|)
    && forall l :: 0 <= l < |src| ==> if mask[l] then Carries(p[l], src[l], k) else p[l] == before[l]
  }

  ghost predicate PacketsOf(packets: seq<Packet>, mask: seq<bool>, src: seq<Bytes>, before: Packet)
    requires |mask| == |src| && ValidPacket(before, |src|)
  {
    forall k :: 0 <= k < |packets| ==> PacketOf(packets[k], mask, src, before, k)
  }

  lemma OneMorePacket(packets: seq<Packet>, mask: seq<bool>, src: seq<Bytes>, before: Packet, p: Packet)
    requires |mask| == |src| && ValidPacket(before, |src|) && PacketsOf(packets, mask, src, before)
    requires PacketOf(p, mask, src, before, |packets|)
    ensures PacketsOf(packets + [p], mask, src, before)
  {
    forall k | 0 <= k < |packets + [p]| ensures PacketOf((packets + [p])[k], mask, src, before, k) {
      assert k < |packets| ==> PacketOf(packets[k], mask, src, before, k);
    }
  }

  lemma PacketsTransmit(packets: seq<Packet>, mask: seq<bool>, src: seq<Bytes>, before: Packet)
    requires |mask| == |src| && ValidPacket(before, |src|) && PacketsOf(packets, mask, src, before)
    requires |packets| == PacketCount(MaxSize(mask, src))
    ensures Transmits(packets, mask, src)
    ensures forall k, l :: 0 <= k < |packets| && 0 <= l < |src| && !mask[l] ==> packets[k][l] == before[l]
  {
    forall k | 0 <= k < |packets| ensures PacketOf(packets[k], mask, src, before, k) {
    }
  }

  lemma FilledIsPacketOf(mask: seq<bool>, src: seq<Bytes>, last: Packet, p: Packet, before: Packet, k: nat)
    requires |mask| == |src| && ValidPacket(before, |src|) && ValidPacket(last, |src|) && ValidPacket(p, |src|)
    requires forall l :: 0 <= l < |src| ==> |src[l]| < LIMIT
    requires forall l :: 0 <= l < |src| ==> p[l] == if mask[l] then SendLane(last[l], src[l], k) else last[l]
    requires forall l :: 0 <= l < |src| && !mask[l] ==> last[l] == before[l]
    ensures PacketOf(p, mask, src, before, k)
  {
  }

  /** `send_n`: the packets at the end of each of its sends, starting from whatever the packet
      memory held. */
  method SendN(mask: seq<bool>, src: seq<Bytes>, before: Packet) returns (packets: seq<Packet>)
    requires |mask| == |src| && ValidPacket(before, |src|)
    requires forall l :: 0 <= l < |src| ==> |src[l]| < LIMIT
    ensures Transmits(packets, mask, src)
    ensures forall k, l :: 0 <= k < |packets| && 0 <= l < |src| && !mask[l] ==> packets[k][l] == before[l]
  {
    var packet, numSends := FillFirst(mask, src, before);
    FilledIsPacketOf(mask, src, before, packet, before, 0);
    OneMorePacket([], mask, src, before, packet);
    packets := [packet];
    assert packets == [] + [packet];
    var idx := FIRST;
    while idx < numSends
      invariant |packets| >= 1 && idx == FIRST + BUFFER * (|packets| - 1)
      invariant |packets| == 1 || idx - BUFFER < numSends
      invariant packets[|packets| - 1] == packet
      invariant PacketsOf(packets, mask, src, before)
      decreases numSends - idx
    {
      ghost var last := packet;
      packet := FillNext(mask, src, packet, |packets|);
      FilledIsPacketOf(mask, src, last, packet, before, |packets|);
      OneMorePacket(packets, mask, src, before, packet);
      packets := packets + [packet];
      idx := idx + BUFFER;
    }
    CountOfLoop(numSends, |packets|);
    PacketsTransmit(packets, mask, src, before);
  }

  /** A loop that starts at 56 and steps by 64 while below `size` makes `PacketCount` packets. */
  lemma CountOfLoop(size: nat, n: nat)
    requires n >= 1 && FIRST + BUFFER * (n - 1) >= size
    requires n == 1 || FIRST + BUFFER * (n - 2) < size
    ensures n == PacketCount(size)
  {
  }

  // ----- recv_n -----

  /** What a lane's string is, read back from packets: `n` packets into it. */
  function ReadLane(packets: seq<Packet>, lanes: nat, l: nat, size: nat, n: nat): (r: Bytes)
    requires 1 <= n <= |packets| && ValidPackets(packets, lanes) && l < lanes
    ensures |r| == Min(size, FIRST + BUFFER * (n - 1))
  {
    if n == 1 then packets[0][l][WORD..WORD + Min(size, FIRST)]
    else
      var done := ReadLane(packets, lanes, l, size, n - 1);
      if ChunkStart(n - 1) < size then done + packets[n - 1][l][..ChunkEnd(size, n - 1) - ChunkStart(n - 1)] else done
  }

  /** The sizes the first packet announces. */
  function SizeIn(p: Packet, l: nat): nat
    requires l < |p|
  {
    WordOf(p[l][..WORD])
  }

  /** One lane of the first callback of `recv_n`: a buffer of the announced size, filled as far
      as the packet goes. */
  function FirstPart(b: Buffer, size: nat): (d: Bytes)
    ensures |d| == size && d[..Min(size, FIRST)] == b[WORD..WORD + Min(size, FIRST)]
  {
    var len := if size > FIRST then FIRST else size;
    Memcpy(seq(size, _ => 0), 0, b[WORD..WORD + len])
  }

  /** One lane of a later callback. The length is computed unsigned and wraps when nothing is
      left, in which case nothing is copied. */
  function NextPart(d: Bytes, b: Buffer, k: nat): (d': Bytes)
    requires |d| < LIMIT && k > 0
    ensures |d'| == |d|
  {
    var idx := ChunkStart(k);
    var left := (|d| - idx) % LIMIT;
    var len := if left > BUFFER then BUFFER else left;
    if idx < |d| then Memcpy(d, idx, b[..len]) else d
  }

  /** A later callback extends what has been read by one packet. */
  lemma NextPartReads(packets: seq<Packet>, lanes: nat, l: nat, d: Bytes, k: nat)
    requires 1 <= k < |packets| && ValidPackets(packets, lanes) && l < lanes && |d| < LIMIT
    requires d[..Min(|d|, ChunkStart(k))] == ReadLane(packets, lanes, l, |d|, k)
    ensures var d' := NextPart(d, packets[k][l], k);
            d'[..Min(|d|, ChunkStart(k + 1))] == ReadLane(packets, lanes, l, |d|, k + 1)
  {
    var b, d' := packets[k][l], NextPart(d, packets[k][l], k);
    var from, upTo, done := ChunkStart(k), ChunkEnd(|d|, k), ReadLane(packets, lanes, l, |d|, k);
    assert ReadLane(packets, lanes, l, |d|, k + 1) == if from < |d| then done + b[..upTo - from] else done by {
      assert done == ReadLane(packets, lanes, l, |d|, k + 1 - 1);
    }
    if from < |d| {
      assert d'[..from] == d[..from] && d'[from..upTo] == b[..upTo - from];
      assert d'[..upTo] == d'[..from] + d'[from..upTo];
    }
  }

  lemma MaxDecided(mask: seq<bool>, a: seq<Bytes>, b: seq<Bytes>, n: nat)
    requires |mask| == |a| == |b| && n <= |a| && forall l :: 0 <= l < n && mask[l] ==> |a[l]| == |b[l]|
    ensures MaxUpTo(mask, a, n) == MaxUpTo(mask, b, n)
  {
  }

  /** The sizes of the masked lanes decide their maximum. */
  lemma SizesDecideMax(mask: seq<bool>, a: seq<Bytes>, b: seq<Bytes>)
    requires |mask| == |a| == |b| && forall l :: 0 <= l < |a| && mask[l] ==> |a[l]| == |b[l]|
    ensures MaxSize(mask, a) == MaxSize(mask, b)
  {
    MaxDecided(mask, a, b, |a|);
  }

  lemma PacketCountMonotone(a: nat, b: nat)
    requires a <= b
    ensures PacketCount(a) <= PacketCount(b)
  {
  }

  /** The first callback of `recv_n`. */
  method UseFirst(mask: seq<bool>, packet: Packet, lanes: nat) returns (dst: seq<Bytes>, numRecvs: nat)
    requires |mask| == lanes && ValidPacket(packet, lanes)
    ensures |dst| == lanes && numRecvs == MaxSize(mask, dst)
    ensures forall l :: 0 <= l < lanes ==> dst[l] == if mask[l] then FirstPart(packet[l], SizeIn(packet, l)) else []
  {
    dst := seq(lanes, _ => []);
    numRecvs := 0;
    for i := 0 to lanes
      invariant |dst| == lanes && numRecvs == MaxUpTo(mask, dst, i)
      invariant forall l :: 0 <= l < i && mask[l] ==> dst[l] == FirstPart(packet[l], SizeIn(packet, l))
      invariant forall l :: 0 <= l < lanes && (l >= i || !mask[l]) ==> dst[l] == []
    {
      ghost var before := dst;
      if mask[i] {
        var size := SizeIn(packet, i);
        numRecvs := if size > numRecvs then size else numRecvs;
        dst := dst[i := FirstPart(packet[i], size)];
      }
      MaxDecided(mask, before, dst, i);
    }
  }

  /** The callback of a later packet on the receiving side. */
  method UseNext(mask: seq<bool>, packet: Packet, k: nat, before: seq<Bytes>) returns (dst: seq<Bytes>)
    requires |mask| == |before| && ValidPacket(packet, |before|) && k > 0
    requires forall l :: 0 <= l < |before| ==> |before[l]| < LIMIT
    ensures |dst| == |before|
    ensures forall l :: 0 <= l < |dst| ==> dst[l] == if mask[l] then NextPart(before[l], packet[l], k) else before[l]
  {
    dst := before;
    for i := 0 to |before|
      invariant |dst| == |before|
      invariant forall l :: 0 <= l < i && mask[l] ==> dst[l] == NextPart(before[l], packet[l], k)
      invariant forall l :: 0 <= l < |dst| && (l >= i || !mask[l]) ==> dst[l] == before[l]
    {
      if mask[i] {
        dst := dst[i := NextPart(dst[i], packet[i], k)];
      }
    }
  }

  /** The lanes hold what the first `n` packets carry; the first packet gave their sizes. */
  ghost predicate ReadUpTo(mask: seq<bool>, packets: seq<Packet>, dst: seq<Bytes>, n: nat)
    requires |mask| == |dst| && 1 <= n <= |packets| && ValidPackets(packets, |dst|) && ValidPacket(packets[0], |dst|)
  {
    forall l :: 0 <= l < |dst| && mask[l] ==>
      && |dst[l]| == SizeIn(packets[0], l)
      && dst[l][..Min(|dst[l]|, ChunkStart(n))] == ReadLane(packets, |dst|, l, |dst[l]|, n)
  }

  /** The stream holds every packet that the announced sizes call for. */
  ghost predicate LongEnough(mask: seq<bool>, packets: seq<Packet>, lanes: nat)
  {
    && |mask| == lanes && |packets| > 0 && ValidPackets(packets, lanes) && ValidPacket(packets[0], lanes)
    && forall l :: 0 <= l < lanes && mask[l] ==>
         SizeIn(packets[0], l) < LIMIT && PacketCount(SizeIn(packets[0], l)) <= |packets|
  }

  /** While the largest lane is incomplete there is another packet. */
  lemma AnotherPacket(mask: seq<bool>, packets: seq<Packet>, dst: seq<Bytes>, n: nat)
    requires LongEnough(mask, packets, |dst|) && 1 <= n <= |packets| && ReadUpTo(mask, packets, dst, n)
    requires FIRST + BUFFER * (n - 1) < MaxSize(mask, dst)
    ensures n < |packets|
  {
    CountSoFar(MaxSize(mask, dst), n);
    MaxIsAttained(mask, dst, |dst|);
    var l :| 0 <= l < |dst| && mask[l] && |dst[l]| == MaxSize(mask, dst);
    assert PacketCount(SizeIn(packets[0], l)) <= |packets|;
  }

  predicate OthersEmpty(mask: seq<bool>, dst: seq<Bytes>)
    requires |mask| == |dst|
  {
    forall l :: 0 <= l < |dst| && !mask[l] ==> dst[l] == []
  }

  lemma SizesFit(mask: seq<bool>, packets: seq<Packet>, dst: seq<Bytes>, n: nat)
    requires LongEnough(mask, packets, |dst|) && 1 <= n <= |packets| && ReadUpTo(mask, packets, dst, n)
    requires OthersEmpty(mask, dst)
    ensures forall l :: 0 <= l < |dst| ==> |dst[l]| < LIMIT
  {
  }

  lemma ReadOneMore(mask: seq<bool>, packets: seq<Packet>, before: seq<Bytes>, dst: seq<Bytes>, n: nat)
    requires |dst| == |before| && LongEnough(mask, packets, |dst|) && 1 <= n < |packets|
    requires forall l :: 0 <= l < |dst| ==> |before[l]| < LIMIT
    requires ReadUpTo(mask, packets, before, n)
    requires forall l :: 0 <= l < |dst| ==>
               |packets[n]| == |dst| && |packets[n][l]| == BUFFER
               && dst[l] == if mask[l] then NextPart(before[l], packets[n][l], n) else before[l]
    ensures ReadUpTo(mask, packets, dst, n + 1) && MaxSize(mask, dst) == MaxSize(mask, before)
  {
    forall l | 0 <= l < |dst| && mask[l]
      ensures |dst[l]| == SizeIn(packets[0], l)
      ensures dst[l][..Min(|dst[l]|, ChunkStart(n + 1))] == ReadLane(packets, |dst|, l, |dst[l]|, n + 1)
    {
      NextPartReads(packets, |dst|, l, before[l], n);
    }
    SizesDecideMax(mask, before, dst);
  }

  /** When the largest lane is complete, every lane is. */
  lemma ReadComplete(mask: seq<bool>, packets: seq<Packet>, dst: seq<Bytes>, n: nat, l: nat)
    requires LongEnough(mask, packets, |dst|) && 1 <= n <= |packets| && ReadUpTo(mask, packets, dst, n)
    requires FIRST + BUFFER * (n - 1) >= MaxSize(mask, dst) && l < |dst| && mask[l]
    ensures |dst[l]| == SizeIn(packets[0], l) && dst[l] == ReadLane(packets, |dst|, l, |dst[l]|, n)
  {
    MaxIsUpperBound(mask, dst, |dst|, l);
    assert |dst[l]| <= ChunkStart(n);
    assert dst[l][..|dst[l]|] == dst[l];
  }

  /** What `recv_n` has to deliver: each active lane read to its announced size, and as many
      packets used as the largest lane needs. */
  ghost predicate Received(mask: seq<bool>, packets: seq<Packet>, dst: seq<Bytes>, used: nat)
    requires LongEnough(mask, packets, |dst|)
  {
    && 1 <= used <= |packets| && used == PacketCount(MaxSize(mask, dst)) && OthersEmpty(mask, dst)
    && forall l :: 0 <= l < |dst| && mask[l] ==>
         |dst[l]| == SizeIn(packets[0], l) && dst[l] == ReadLane(packets, |dst|, l, |dst[l]|, used)
  }

  lemma AllComplete(mask: seq<bool>, packets: seq<Packet>, dst: seq<Bytes>, n: nat)
    requires LongEnough(mask, packets, |dst|) && 1 <= n <= |packets| && ReadUpTo(mask, packets, dst, n)
    requires FIRST + BUFFER * (n - 1) >= MaxSize(mask, dst) && OthersEmpty(mask, dst)
    requires n == 1 || FIRST + BUFFER * (n - 2) < MaxSize(mask, dst)
    ensures Received(mask, packets, dst, n)
  {
    CountOfLoop(MaxSize(mask, dst), n);
    forall l | 0 <= l < |dst| && mask[l]
      ensures |dst[l]| == SizeIn(packets[0], l) && dst[l] == ReadLane(packets, |dst|, l, |dst[l]|, n)
    {
      ReadComplete(mask, packets, dst, n, l);
    }
  }

  /** The first receive of `recv_n`. */
  method ReceiveFirst(mask: seq<bool>, packets: seq<Packet>, lanes: nat) returns (dst: seq<Bytes>, numRecvs: nat)
    requires LongEnough(mask, packets, lanes)
    ensures |dst| == lanes && numRecvs == MaxSize(mask, dst)
    ensures ReadUpTo(mask, packets, dst, 1) && OthersEmpty(mask, dst)
  {
    dst, numRecvs := UseFirst(mask, packets[0], lanes);
  }

  /** One later receive of `recv_n`. */
  method ReceiveNext(mask: seq<bool>, packets: seq<Packet>, used: nat, before: seq<Bytes>) returns (dst: seq<Bytes>)
    requires LongEnough(mask, packets, |before|) && 1 <= used <= |packets| && ReadUpTo(mask, packets, before, used)
    requires OthersEmpty(mask, before) && FIRST + BUFFER * (used - 1) < MaxSize(mask, before)
    ensures used < |packets| && |dst| == |before| && ReadUpTo(mask, packets, dst, used + 1)
    ensures OthersEmpty(mask, dst) && MaxSize(mask, dst) == MaxSize(mask, before)
  {
    AnotherPacket(mask, packets, before, used);
    SizesFit(mask, packets, before, used);
    assert ValidPacket(packets[used], |before|);
    dst := UseNext(mask, packets[used], used, before);
    ReadOneMore(mask, packets, before, dst, used);
  }

  /** `recv_n` on a stream of packets: it sizes each lane's buffer from the first one and goes on
      until the largest lane is complete. The stream must be long enough; `recv_n`
      waits for the packets. */
  method RecvN(mask: seq<bool>, packets: seq<Packet>, lanes: nat) returns (dst: seq<Bytes>, used: nat)
    requires LongEnough(mask, packets, lanes)
    ensures |dst| == lanes && Received(mask, packets, dst, used)
  {
    var numRecvs;
    dst, numRecvs := ReceiveFirst(mask, packets, lanes);
    used := 1;
    var idx := FIRST;
    while idx < numRecvs
      invariant 1 <= used <= |packets| && idx == FIRST + BUFFER * (used - 1)
      invariant used == 1 || idx - BUFFER < numRecvs
      invariant |dst| == lanes && numRecvs == MaxSize(mask, dst)
      invariant ReadUpTo(mask, packets, dst, used) && OthersEmpty(mask, dst)
      decreases numRecvs - idx
    {
      dst := ReceiveNext(mask, packets, used, dst);
      used := used + 1;
      idx := idx + BUFFER;
    }
    AllComplete(mask, packets, dst, used);
  }

  /** While the loop goes on, the packets used so far are fewer than the count. */
  lemma CountSoFar(size: nat, n: nat)
    requires n >= 1 && FIRST + BUFFER * (n - 1) < size
    ensures n < PacketCount(size)
  {
  }

  // ----- recv_n undoes send_n -----

  /** In a transmission each masked lane reads back as its own string. */
  lemma {:induction false} ReadBack(packets: seq<Packet>, mask: seq<bool>, src: seq<Bytes>, l: nat, n: nat)
    requires |mask| == |src| && Transmits(packets, mask, src) && l < |src| && mask[l] && 1 <= n <= |packets|
    ensures ReadLane(packets, |src|, l, |src[l]|, n) == src[l][..Min(|src[l]|, ChunkStart(n))]
  {
    assert Carries(packets[n - 1][l], src[l], n - 1);
    if n > 1 {
      ReadBack(packets, mask, src, l, n - 1);
      var from, to := ChunkStart(n - 1), ChunkEnd(|src[l]|, n - 1);
      if from < |src[l]| {
        assert src[l][..to] == src[l][..from] + src[l][from..to];
      }
    }
  }

  /** A size that fits a word is announced by the first packet as it is. */
  lemma SizeAnnounced(packets: seq<Packet>, mask: seq<bool>, src: seq<Bytes>, l: nat)
    requires |mask| == |src| && Transmits(packets, mask, src) && l < |src| && mask[l] && |src[l]| < LIMIT
    ensures ValidPacket(packets[0], |src|) && SizeIn(packets[0], l) == |src[l]|
  {
    assert ValidPacket(packets[0], |src|);
    assert Carries(packets[0][l], src[l], 0);
    assert Power256(8) == LIMIT by {
      assert Power256(4) == 0x1_0000_0000;
    }
    WordRoundTrip(|src[l]|, WORD);
  }

  /** For any mask and any sizes, every active lane receives its own size and exactly its bytes,
      and both loops use the same number of packets. */
  method SendThenReceive(mask: seq<bool>, src: seq<Bytes>, before: Packet) returns (dst: seq<Bytes>, sent: nat, received: nat)
    requires |mask| == |src| && ValidPacket(before, |src|)
    requires forall l :: 0 <= l < |src| ==> |src[l]| < LIMIT
    ensures |dst| == |src| && forall l :: 0 <= l < |src| ==> dst[l] == if mask[l] then src[l] else []
    ensures sent == received == PacketCount(MaxSize(mask, src))
  {
    var packets := SendN(mask, src, before);
    sent := |packets|;
    dst, received := ReceiveAll(mask, packets, src);
  }

  /** `recv_n` at the other end of a transmission. */
  method ReceiveAll(mask: seq<bool>, packets: seq<Packet>, ghost src: seq<Bytes>) returns (dst: seq<Bytes>, received: nat)
    requires |mask| == |src| && Transmits(packets, mask, src)
    requires forall l :: 0 <= l < |src| ==> |src[l]| < LIMIT
    ensures |dst| == |src| && forall l :: 0 <= l < |src| ==> dst[l] == if mask[l] then src[l] else []
    ensures received == |packets|
  {
    assert ValidPacket(packets[0], |src|);
    forall l | 0 <= l < |src| && mask[l]
      ensures SizeIn(packets[0], l) == |src[l]| && PacketCount(|src[l]|) <= |packets|
    {
      SizeAnnounced(packets, mask, src, l);
      MaxIsUpperBound(mask, src, |src|, l);
      PacketCountMonotone(|src[l]|, MaxSize(mask, src));
    }
    dst, received := RecvN(mask, packets, |mask|);
    ReadLanesBack(packets, mask, src, dst, received);
  }

  lemma ReadLanesBack(packets: seq<Packet>, mask: seq<bool>, src: seq<Bytes>, dst: seq<Bytes>, used: nat)
    requires |mask| == |src| == |dst| && Transmits(packets, mask, src)
    requires LongEnough(mask, packets, |dst|) && Received(mask, packets, dst, used)
    requires forall l :: 0 <= l < |src| ==> |src[l]| < LIMIT
    ensures forall l :: 0 <= l < |src| && mask[l] ==> dst[l] == src[l]
    ensures used == |packets|
  {
    forall l | 0 <= l < |src| && mask[l] ensures |dst[l]| == |src[l]| {
      SizeAnnounced(packets, mask, src, l);
    }
    SizesDecideMax(mask, dst, src);
    CountCovers(MaxSize(mask, src));
    forall l | 0 <= l < |src| && mask[l] ensures dst[l] == src[l] {
      MaxIsUpperBound(mask, src, |src|, l);
      ReadBack(packets, mask, src, l, used);
      assert src[l][..|src[l]|] == src[l];
    }
  }

  /** The packets of the count cover the size. */
  lemma CountCovers(size: nat)
    ensures size <= ChunkStart(PacketCount(size))
  {
  }
}
