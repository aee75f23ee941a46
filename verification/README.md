# Models of the runtime's protocols, allocators and codecs

A Dafny 4.11 project that models the hard parts of the vendored C++ runtime and of the benchmark
beside it, and proves what they promise. `dafny verify dfyconfig.toml` checks everything.

| part | files | source |
|---|---|---|
| combining-tree barrier | Barrier, BarrierSafety, BarrierProgress, BarrierAlgorithm | llvm/libcxx/src/barrier.cpp |
| shared-memory RPC | Rpc, RpcSafety, RpcDelivery, RpcProgress, RpcStream, RpcTransfer, RpcCallbacks | llvm/libc/shared/rpc.h |
| pool and monotonic memory resources | Upstream, ChunkList, SizeClasses, AdhocPool, FixedPool, PoolBooks, PoolResource, MonotonicBuffer | llvm/libcxx/src/memory_resource.cpp |
| next prime by a 210-wheel | Primes, NextPrime | llvm/libcxx/src/hash.cpp |
| UTF converters | Transcoding, Unicode, Utf, UtfCodecs, UtfVerdicts, Converters, Lengths | llvm/libcxx/src/locale.cpp |
| atomic wait and notify | TableWait, NativeWait | llvm/libcxx/src/atomic.cpp |
| reference counts | RefCount | llvm/libcxx/src/memory.cpp |
| reader-writer lock | SharedMutex | llvm/libcxx/src/shared_mutex.cpp |
| probing map and bit stream | DenseMap, Bitstream | bench/src/main.cpp |
| generalized slices | Gslice | llvm/libcxx/src/valarray.cpp |

Arithmetic and Sums hold what several parts share: powers of two, multiples, and counting over
sequences.

## How the models are built

**Protocols** (barrier, RPC, wait and notify, reference counts, lock) are state machines. One step is
one atomic access of one thread with the thread-local work that follows it, or one critical section
of a mutex, and every interleaving of steps is a run. The number of threads, phases and operations is
unbounded everywhere. The barrier and the reference counts are also given as classes whose methods,
run without interruption, are shown to be runs of the state machine.

**Sequential code** (allocators, prime search, converters, map, bit stream, slices) is imperative:
classes over fields and arrays with the loops of the source, each proved against a specification that
is defined apart from it. The converters' specification is the byte ranges of section 4 of RFC 3629
and the surrogate arithmetic of section 2 of RFC 2781; that of the bit stream is a number and its
length; that of the allocators is a ledger of upstream blocks, idle blocks and blocks lent out.

**What stands for the world outside.** Upstream memory is a resource that hands out fresh aligned
ranges and may only be given back what it handed out, with the same size and alignment; that is a
precondition, so every verified call returns blocks as they were obtained. The size constants of the
pool resource come from a header that is not part of this model: they are parameters, with the
relations the code needs (smallest block a power of two of at least the footer's alignment,
`alignof(max_align_t)` at most twice that, minimum no larger than maximum). The initial buffer of a
monotonic resource is memory upstream will not provide again. The platform's wait puts a thread to
sleep if the word still has the expected value, in one step, and may wake it at any time. Thread ids,
hashes, lane masks, callbacks and schedules are arbitrary. Sizes and addresses are natural numbers;
bytes, words and code points of the converters are bit vectors, and barrier phases wrap at 256.

**Four places where the code does less than one may expect**, each with the exact condition:

- `utf8_to_utf16` holds the first byte of a character against `Maxcode`, `utf8_to_ucs4` does not. The
  two agree on every input if and only if the limit is at least 0xF4 (`UtfCodecs.Utf16IsUcs4Encoded`,
  `UtfCodecs.LowLimitsDiffer`).
- A waiter on the global table can miss a wake-up if the entry's state wraps completely between its
  look and its sleep, and only then (`TableWait.NoLostWakeUp`, `TableWait.WrapLosesWakeUp`). With the
  two-second default of the platform wait (llvm/libcxx/src/atomic.cpp:141-151) such a waiter is late,
  not lost; time is not part of the model.
- `unlock_shared` of the shared mutex signals gate 1 only when it leaves the maximum reader count, and
  then once. One step keeps everybody asleep at gate 1 called, while a reader may enter, if and only if it
  is no such unlock with more threads asleep than signals under way and one more
  (`SharedMutex.CalledIff`). A run of five threads with room for three readers ends with a free lock, a
  sleeping reader and nobody about to wake it (`SharedMutex.ReaderLeftAsleep`); with at most one thread
  more than there can be readers it cannot happen (`SharedMutex.FewThreadsSuffice`).
- After `densemap::insert` on a table that is a map, the table is a map exactly when the key was new or
  no tombstone came before it on its path, or the table grew first. Otherwise the key is in it twice,
  and the next erase uncovers the old value (`DenseMap.InsertKeepsMapIff`, `DenseMap.EraseAfterInsert`,
  reached by a run in `DenseMap.StaleValue`). Its searches end exactly when the key or an empty slot is
  in the table (`DenseMap.SearchEndsIff`), and after erasures the load bound alone does not leave one.
  The methods are modelled in every state; that every answer is a map's is proved for runs whose
  insertions come before their first erase, which is how the benchmark uses it, and for runs in any
  order that insert only new keys and search only for held ones.

## Model

| member | source | states |
|---|---|---|
| Barrier.AllocationSuffices | llvm/libcxx/src/barrier.cpp:25-28 | the array the constructor allocates covers every node and round of any phase of at most that many threads, up to the largest `ptrdiff_t` |
| Barrier.WidthAndRounds | llvm/libcxx/src/barrier.cpp:33-34 | a thread is past the `<= 1` test exactly in the rounds before the survivor's |
| BarrierSafety.StepKeepsInv | llvm/libcxx/src/barrier.cpp:29-57 | one compare-exchange of any thread keeps the counting invariant: for every round, claims made plus threads searching equal the threads that came in |
| BarrierSafety.RunKeepsInv | llvm/libcxx/src/barrier.cpp:25-57 | the invariant holds in every state of every run, over any number of phases, any interleaving, and phases that shrink |
| BarrierSafety.StepInNumbers | llvm/libcxx/src/barrier.cpp:30-55 | what one compare-exchange does, in numbers modulo 256: a shared ticket goes from old phase to + 1 and its thread returns false, or from there to + 2 and its thread goes up, to half the node; an unshared one goes to + 2 at once; a thread passes a node only if its ticket is at + 2 |
| BarrierSafety.FreeTicketForEverySearcher | llvm/libcxx/src/barrier.cpp:36-53 | the unclaimed tickets of a round never number fewer than the threads searching it |
| BarrierProgress.OpenTicketWithinOneLap | llvm/libcxx/src/barrier.cpp:36-53 | a searcher has an open ticket less than one lap ahead of it, with only full ones before it |
| BarrierSafety.AtMostOneReturnsTrue | llvm/libcxx/src/barrier.cpp:33-34 | two arrivals that returned true are the same arrival |
| BarrierSafety.TrueMeansEverybodyArrived | llvm/libcxx/src/barrier.cpp:30-55 | when an arrival has returned true, every other thread has arrived and returned, and every ticket of the phase is the number old phase + 2 modulo 256 |
| BarrierSafety.ExactlyOneReturnsTrue | llvm/libcxx/src/barrier.cpp:29-57 | once all arrivals have returned, one returned true and all the others false |
| BarrierSafety.NextPhaseStarts | llvm/libcxx/src/barrier.cpp:30-55 | the phase after that, with as many threads or fewer, starts from uniform tickets, at old phase + 2 modulo 256 |
| BarrierProgress.StepLowersPotential | llvm/libcxx/src/barrier.cpp:36-53 | every step of every thread lowers one number computed from the whole state |
| BarrierProgress.PhaseLengthBound | llvm/libcxx/src/barrier.cpp:29-57 | a phase of e threads ends after at most 4e(e(4e+1)+1) steps under every schedule |
| BarrierProgress.PhaseRunsToItsEnd | llvm/libcxx/src/barrier.cpp:29-57 | a schedule of a phase that cannot be continued has brought every arrival back, exactly one of them with true |
| BarrierAlgorithm.BarrierBase.constructor | llvm/libcxx/src/barrier.cpp:25-28 | the array it builds is all zero and shows the initial state of the protocol |
| BarrierAlgorithm.BarrierBase.AttemptNode | llvm/libcxx/src/barrier.cpp:39-52 | the attempts on one node, in the array, are one or two steps of the protocol |
| BarrierAlgorithm.BarrierBase.Search | llvm/libcxx/src/barrier.cpp:36-53 | the inner loop, run alone, claims a ticket of the round within one lap: at most one step a node, and one more; all of them steps of the protocol |
| BarrierAlgorithm.BarrierBase.Arrive | llvm/libcxx/src/barrier.cpp:29-57 | the whole call, run alone from any reachable state, is a run of the protocol of at most 3 steps for each expected thread that ends in its return value; if that is true, every ticket of the phase in the array is old phase + 2 modulo 256 |
| RpcSafety.StepKeepsInv | llvm/libc/shared/rpc.h:62-73 | one step of any thread of client or server keeps what relates the mailbox words, the ports' flags, the locks and the packets |
| RpcSafety.RunKeepsInv | llvm/libc/shared/rpc.h:62-275 | so does every run, from zeroed memory |
| RpcSafety.AccessIsMyTurn | llvm/libc/shared/rpc.h:133-165 | a side inside a callback owns the buffer and it is its access of the session |
| RpcSafety.HandoverKeepsInv | llvm/libc/shared/rpc.h:403-421 | the inversions of the outbox before a second receive and in `close` pass the buffer to the side whose turn it is |
| RpcDelivery.PacketAccessIsExclusive | llvm/libc/shared/rpc.h:133-165 | no two threads of either side are ever in a callback on the packet at once |
| RpcDelivery.OnePortPerSide | llvm/libc/shared/rpc.h:518-583 | each side has at most one port open on the index |
| RpcDelivery.DeliveredInOrder | llvm/libc/shared/rpc.h:388-421 | what was received in the session is a prefix of what was sent, unmodified, at most one packet behind |
| RpcCallbacks.SentIsWhatWasChosen | llvm/libc/shared/rpc.h:133-165 | in runs that record every choice, the packet a send adds to the record holds in each lane of the mask what the callback chose for it, and in each other lane what it held when the callback began |
| RpcCallbacks.ReceivedIsWhatWasThere | llvm/libc/shared/rpc.h:133-165 | what a receive adds to the record is the packet as it was when its callback began |
| RpcCallbacks.CallbackHistory | llvm/libc/shared/rpc.h:133-165 | a callback under way has served exactly the lanes before its own, by recorded steps of its own thread, and nobody else has touched the packet |
| RpcProgress.NoSessionIsCutOff | llvm/libc/shared/rpc.h:518-548 | from one state to the next the record of a session grows, or it starts anew after a session of which everything was sent and received |
| RpcDelivery.BothClosed | llvm/libc/shared/rpc.h:325-334 | with no port open the session is through, everything sent was received and the client owns the buffer; the one exception is a single send no server has picked up yet |
| RpcDelivery.ServerCloseReturnsBuffer | llvm/libc/shared/rpc.h:325-334 | the step of a server's `close` that finds the buffer its own makes it the client's |
| RpcDelivery.OwnerMakesProgress | llvm/libc/shared/rpc.h:388-421 | every step of the side that owns the buffer completes an access, hands the buffer over or comes nearer to that, whatever the other side does |
| RpcDelivery.NonOwnerChangesNothing | llvm/libc/shared/rpc.h:143-158 | a side that waits for ownership changes no shared memory |
| RpcDelivery.NeverDeadlocked | llvm/libc/shared/rpc.h:518-583 | in an unfinished session the owner has an open port, or is a server whose check of the mailboxes succeeds |
| RpcProgress.LockIsGivenBack | llvm/libc/shared/rpc.h:553-583 | in that last case whoever has the server's lock opens the port or gives the lock back in its next two steps |
| RpcProgress.IdleServerOpens | llvm/libc/shared/rpc.h:553-583 | and while nobody has it, an idle server thread opens the port in five steps |
| RpcProgress.IdleClientOpens | llvm/libc/shared/rpc.h:518-548 | when the last session is through and nobody has the client's lock, an idle client thread opens a port in three steps, with the conversation and the mask it chose |
| RpcProgress.ClientLockIsGivenBack | llvm/libc/shared/rpc.h:518-548 | and whoever has that lock then opens the port or gives it back in its next two steps |
| RpcProgress.StepLowersLeft | llvm/libc/shared/rpc.h:388-421 | every step of the owner's port lowers one number computed from the session, and no other step of any thread raises it |
| RpcProgress.SessionIsFinite | llvm/libc/shared/rpc.h:388-421 | until the session is through, the ports that own the buffer take at most 2(l + 5)(2n - a + 1) steps under every schedule, for l lanes, n operations and a accesses made |
| RpcStream.SendN | llvm/libc/shared/rpc.h:452-481 | the packets carry every active lane's size and bytes, 56 in the first and 64 in each later one, as many packets as the largest lane needs; the other lanes hold what they held |
| RpcStream.LayoutInNumbers | llvm/libc/shared/rpc.h:452-481 | the packets needed and the part each carries, in numbers: 8 + 56 bytes, then 64 each, and no packet more than it takes |
| RpcStream.RecvN | llvm/libc/shared/rpc.h:483-510 | every active lane reads back its announced size and that many bytes, over as many packets |
| RpcStream.SendThenReceive | llvm/libc/shared/rpc.h:452-510 | receiving what was sent gives every active lane its own bytes and the other lanes nothing, and both loops use the same number of packets |
| RpcTransfer.StepKeepsCarried | llvm/libc/shared/rpc.h:452-481 | while the callbacks of some of a port's sends are those of `send_n`, every step of any thread keeps that the packets sent, and the one in the making, carry the strings |
| RpcTransfer.ReceiveOverPort | llvm/libc/shared/rpc.h:452-510 | in every run of the port protocol in which one side's callbacks are those of `send_n`, `recv_n` on what the other side received gives every active lane its own bytes |
| RpcCallbacks.SendNCanGoOn | llvm/libc/shared/rpc.h:452-481 | such runs exist: whichever thread moves next, there is a choice with which its step is one of `send_n`, and any choice will do outside those callbacks |
| RpcStream.SizeAnnounced | llvm/libc/shared/rpc.h:456-466 | the first word of a lane's first packet is its size |
| Primes.SquareRootSuffices | llvm/libcxx/src/hash.cpp:91-92 | a number with no divisor below i and quotient below i is prime |
| Primes.PrimeAtLeast | llvm/libcxx/src/hash.cpp:80-446 | there is a prime at or above every number |
| NextPrime.SmallEntry | llvm/libcxx/src/hash.cpp:20-23 | the entries of the small table are primes, in order |
| NextPrime.SmallGap | llvm/libcxx/src/hash.cpp:20-23 | and no prime lies between two of them |
| NextPrime.WheelStep | llvm/libcxx/src/hash.cpp:99-446 | each gap leads from one number coprime to 210 to the next, and leaves out no prime |
| NextPrime.LookUp | llvm/libcxx/src/hash.cpp:68-69 | 0 for 0, otherwise the least prime not below n, for n up to 211 |
| NextPrime.TrySmallPrimes | llvm/libcxx/src/hash.cpp:88-95 | what the first divisions decide is right; undecided means no divisor below 211 |
| NextPrime.TryPotentialPrimes | llvm/libcxx/src/hash.cpp:97-438 | the unrolled chain of divisions decides primality |
| NextPrime.StartOfSearch | llvm/libcxx/src/hash.cpp:77-79 | the first candidate is at or after n with no prime before it |
| NextPrime.NextPrime | llvm/libcxx/src/hash.cpp:64-447 | 0 for 0, the least prime not below n, or the overflow error exactly above the limit |
| SizeClasses.Settle | llvm/libcxx/src/memory_resource.cpp:298-324 | as many classes as it takes for the last block size to reach the required one, and no more; the block limit clamped |
| SizeClasses.OptionsClamped | llvm/libcxx/src/memory_resource.cpp:298-324 | both options are clamped to their limits, and left out they are the defaults |
| SizeClasses.RaisedAligned | llvm/libcxx/src/memory_resource.cpp:160-165 | the alignment asked of upstream is the one requested or the footer's, and aligned so is aligned for both |
| SizeClasses.PoolIndex | llvm/libcxx/src/memory_resource.cpp:282-296 | the shifting loop computes the index function that `PoolIndexServes` is about |
| SizeClasses.PoolIndexServes | llvm/libcxx/src/memory_resource.cpp:282-296 | the index is below the last value exactly for requests aligned no more than `max_align_t`, of at most 1 << pools bytes, and no larger than the largest block; it is then the smallest class that is large enough |
| SizeClasses.PoolIndexFits | llvm/libcxx/src/memory_resource.cpp:282-296 | the index is in range; short of the last value it is the smallest class whose blocks are large enough, and large enough to be aligned as asked |
| SizeClasses.ServedByLeast | llvm/libcxx/src/memory_resource.cpp:282-296 | no smaller class would do, so just one class serves a request |
| SizeClasses.BlockAligned | llvm/libcxx/src/memory_resource.cpp:282-296 | a block of that class at a multiple of the block size from an aligned start is aligned as asked |
| SizeClasses.NextBlocksFacts | llvm/libcxx/src/memory_resource.cpp:368-392 | the next chunk has at least one block and meets every cap; short of the caps it has a quarter more blocks than the previous one, rounded down, or in a first one the minima in bytes and in blocks |
| SizeClasses.CapFacts | llvm/libcxx/src/memory_resource.cpp:381-385 | the cap is the least of the three limits |
| ChunkList.UnlinkLinked | llvm/libcxx/src/memory_resource.cpp:187-194 | redirecting the footer before a chunk takes exactly that chunk out of the list |
| ChunkList.LinkedAt | llvm/libcxx/src/memory_resource.cpp:145-150 | the footer of the k-th chunk leads to its start, its alignment and the next chunk |
| ChunkList.Chunks.AllocationSize | llvm/libcxx/src/memory_resource.cpp:149 | from the footer of a chunk of the list, the size that chunk was obtained with |
| ChunkList.Chunks.AddChunk | llvm/libcxx/src/memory_resource.cpp:160-177 | a chunk from upstream goes to the front of the list, apart from everything granted before |
| ChunkList.Chunks.Release | llvm/libcxx/src/memory_resource.cpp:152-158 | every chunk goes back to upstream, with the pointer, size and alignment it was obtained with, and nothing else does |
| AdhocPools.DoAllocate | llvm/libcxx/src/memory_resource.cpp:160-177 | the chunk holds the request rounded up to the footer's alignment, at the alignment asked for, or the footer's |
| AdhocPools.DoDeallocate | llvm/libcxx/src/memory_resource.cpp:179-198 | exactly the chunk that starts at p is unlinked and given back |
| FixedPools.BlocksApart | llvm/libcxx/src/memory_resource.cpp:236-265 | different blocks of a pool do not overlap |
| FixedPools.NewChunkPartitioned | llvm/libcxx/src/memory_resource.cpp:257-264 | after a chunk is cut, its first block is in use and all its others are vacant, each once |
| FixedPools.FixedPool.TryAllocateFromVacancies | llvm/libcxx/src/memory_resource.cpp:227-234 | takes the first vacancy, and is null exactly when there is none |
| FixedPools.FixedPool.Carve | llvm/libcxx/src/memory_resource.cpp:257-264 | the loop threads all blocks of the chunk but the first in front of the old vacancies |
| FixedPools.FixedPool.AllocateInNewChunk | llvm/libcxx/src/memory_resource.cpp:236-265 | one upstream block more, cut without a rest; its first block is returned |
| FixedPools.FixedPool.Evacuate | llvm/libcxx/src/memory_resource.cpp:267-271 | the block is the first vacancy and no longer in use |
| FixedPools.FixedPool.ReleasePtr | llvm/libcxx/src/memory_resource.cpp:218-225 | all chunks go back, and no block or vacancy is left |
| PoolResources.PoolResource.constructor | llvm/libcxx/src/memory_resource.cpp:298-324 | an empty resource whose largest block reaches the option |
| PoolResources.PoolResource.OpenTable | llvm/libcxx/src/memory_resource.cpp:358-364 | the table of pools is obtained from upstream and its pools are empty |
| PoolResources.PoolResource.Grow | llvm/libcxx/src/memory_resource.cpp:368-394 | the new chunk has the size the growth rule gives, and joins its pool |
| PoolResources.PoolResource.AllocateBlock | llvm/libcxx/src/memory_resource.cpp:366-395 | a vacancy serves if there is one, without a call to upstream; the block was not lent out before |
| PoolResources.PoolResource.DoAllocate | llvm/libcxx/src/memory_resource.cpp:345-397 | one live block more, not live before; it is in use in the smallest class that is large enough, from its first vacancy without a call to upstream if there is one, else at the start of a chunk of the size the growth rule gives; a request no class serves gets a chunk of its own; what upstream granted to others is untouched |
| PoolResources.PoolResource.DoDeallocate | llvm/libcxx/src/memory_resource.cpp:399-412 | exactly that block is no longer live; it is the first vacancy of the class that served it, without a call to upstream, or its chunk goes back |
| PoolResources.PoolResource.Release | llvm/libcxx/src/memory_resource.cpp:334-343 | upstream is left with exactly what others hold |
| PoolResources.PoolResource.LiveApart | llvm/libcxx/src/memory_resource.cpp:345-412 | live blocks are pairwise disjoint, whichever pools they come from |
| PoolResources.PoolResource.LivePlaced | llvm/libcxx/src/memory_resource.cpp:345-397 | a live block is as large and as aligned as asked and ends before the footer of its upstream chunk |
| PoolResources.PoolResource.LiveClearOfFooters | llvm/libcxx/src/memory_resource.cpp:200-206 | no live block touches any footer of any pool |
| PoolResources.PoolResource.LiveClearOfVacancies | llvm/libcxx/src/memory_resource.cpp:208-210 | no live block touches a block whose header links a vacancy list |
| PoolResources.PoolResource.VacantExactlyIdle | llvm/libcxx/src/memory_resource.cpp:227-271 | the list from a pool's first vacancy holds each block that is not live once, and nothing but blocks of the pool |
| PoolResources.Session | llvm/libcxx/src/memory_resource.cpp:334-412 | over any list of allocations and matching deallocations, ended by `release`, upstream's grants end as they began |
| MonotonicBuffers.AlignDown | llvm/libcxx/src/memory_resource.cpp:420-434 | the highest aligned block below the cursor, or null exactly when none fits |
| MonotonicBuffers.CarveTidy | llvm/libcxx/src/memory_resource.cpp:436-451 | carving a block off a span keeps all blocks inside their spans and apart |
| MonotonicBuffers.MonotonicBuffer.TryInitial | llvm/libcxx/src/memory_resource.cpp:436-451 | the cursor moves to the block, or nothing changes because nothing fits |
| MonotonicBuffers.MonotonicBuffer.TryLatest | llvm/libcxx/src/memory_resource.cpp:436-451 | the same on the latest chunk; it cannot fail on a whole chunk made for the request |
| MonotonicBuffers.NextSizeSuffices | llvm/libcxx/src/memory_resource.cpp:457-484 | the next chunk is no smaller than the previous capacity and large enough for the request; if the request would have fitted one like the previous, its room is doubled, but for the rounding |
| MonotonicBuffers.MonotonicBuffer.DoAllocate | llvm/libcxx/src/memory_resource.cpp:453-496 | never null; aligned, in bounds, disjoint from every earlier block; from the initial buffer if that has room, else from the latest chunk, else from a new one of the size the growth rule gives; no other cursor moves |
| Transcoding.Resume | llvm/libcxx/src/locale.cpp:1582-1670 | for every converter of this shape: stopping at any cut of the input and any limit on the output and going on from the returned positions gives the outcome of one run |
| Transcoding.RunReads | llvm/libcxx/src/locale.cpp:1582-1670 | with room enough the outcome is that of reading all characters and writing them |
| Transcoding.RunBounds | llvm/libcxx/src/locale.cpp:1582-1670 | a run stays inside its input and its output, and is ok only at the end of the input |
| Utf.Parse8OfUnits | llvm/libcxx/src/locale.cpp:1862-1910 | the UTF-8 bytes of a scalar value read back as that value, whatever follows |
| Utf.UnitsOfParse8 | llvm/libcxx/src/locale.cpp:1927-2011 | whatever reads as a character is the UTF-8 form of a scalar value |
| Utf.Parse16OfUnits | llvm/libcxx/src/locale.cpp:1451-1496 | the UTF-16 words of a scalar value read back as that value |
| Utf.UnitsOfParse16 | llvm/libcxx/src/locale.cpp:1451-1496 | whatever reads as a character is the UTF-16 form of a scalar value |
| Utf.ReadIffWellFormed | llvm/libcxx/src/locale.cpp:1419-1432 | reading succeeds exactly on the inputs the grammar in section 4 of RFC 3629 generates |
| UtfVerdicts.Parse8Says | llvm/libcxx/src/locale.cpp:1927-2011 | what a reader takes for short is exactly what begins with no character and has a continuation that is one; malformed is what has none |
| UtfVerdicts.Positional | llvm/libcxx/src/locale.cpp:1927-2011 | the value of two to four bytes is the sum of their distances from the bottoms of their ranges, each times its power of 64 |
| UtfCodecs.OkIffWellFormed | llvm/libcxx/src/locale.cpp:1912-2013 | `utf8_to_ucs4` is ok exactly on well-formed UTF-8 |
| UtfCodecs.EncodeAfterDecode | llvm/libcxx/src/locale.cpp:1862-2013 | `ucs4_to_utf8` of a decoded input is that input |
| UtfCodecs.DecodeAfterEncode | llvm/libcxx/src/locale.cpp:1862-2013 | `utf8_to_ucs4` of encoded code points is those code points |
| UtfCodecs.EncodesIffScalar | llvm/libcxx/src/locale.cpp:1862-1910 | `ucs4_to_utf8` is ok exactly on sequences of scalar values |
| UtfCodecs.Utf16IsUcs4Encoded | llvm/libcxx/src/locale.cpp:1567-1671 | `utf8_to_utf16` has the verdict and position of `utf8_to_ucs4` and the UTF-16 form of its output, on every input, for every limit of at least 0xF4 |
| UtfCodecs.LowLimitsDiffer | llvm/libcxx/src/locale.cpp:1584-1586 | below 0xF4 it does not: one input on which the two verdicts differ, for each such limit |
| UtfCodecs.Utf8AfterUtf16 | llvm/libcxx/src/locale.cpp:1435-1671 | `utf16_to_utf8` undoes `utf8_to_utf16` |
| UtfCodecs.Utf16AfterUtf8 | llvm/libcxx/src/locale.cpp:1435-1671 | `utf8_to_utf16` undoes `utf16_to_utf8` |
| UtfCodecs.Utf8ToUcs4Resumes | llvm/libcxx/src/locale.cpp:1927-2012 | `utf8_to_ucs4` can be cut and resumed anywhere, for every limit |
| UtfCodecs.Utf8ToUtf16Resumes | llvm/libcxx/src/locale.cpp:1582-1670 | so can `utf8_to_utf16` |
| UtfCodecs.Ucs4ToUtf8Resumes | llvm/libcxx/src/locale.cpp:1877-1909 | so can `ucs4_to_utf8` |
| UtfCodecs.Utf16ToUtf8Resumes | llvm/libcxx/src/locale.cpp:1452-1498 | so can `utf16_to_utf8` |
| UtfVerdicts.Utf8ToUcs4Stops | llvm/libcxx/src/locale.cpp:1912-2013 | for every input, limit and room: what is consumed is the UTF-8 form of what is written, and the verdict is ok at the end of the input, partial exactly without room or inside a character that could be completed, and an error otherwise, where no character begins or one above the limit |
| UtfVerdicts.Utf8ToUcs4WithRoom | llvm/libcxx/src/locale.cpp:1912-2013 | with room enough it is partial exactly when the rest begins with no character and has a continuation that does |
| UtfVerdicts.Utf8ToUtf16Stops | llvm/libcxx/src/locale.cpp:1567-1671 | the same for `utf8_to_utf16`, whose first-byte test comes first and whose pairs need two slots |
| UtfVerdicts.Ucs4ToUtf8Stops | llvm/libcxx/src/locale.cpp:1862-1910 | the same for `ucs4_to_utf8`: an error exactly at a surrogate or a value above the limit, partial exactly without room |
| UtfVerdicts.Utf16ToUtf8Stops | llvm/libcxx/src/locale.cpp:1435-1499 | the same for `utf16_to_utf8`: partial exactly at a lone high surrogate at the end of the input or without room for the next character |
| UtfVerdicts.CutShort16Completes | llvm/libcxx/src/locale.cpp:1474-1477 | a lone high surrogate at the end is exactly what begins with no character and has a continuation that is one |
| UtfVerdicts.PairPositional | llvm/libcxx/src/locale.cpp:1479-1481 | the value of a surrogate pair, by the arithmetic of section 2 of RFC 2781 |
| Converters.PairFromBytes | llvm/libcxx/src/locale.cpp:1661-1664 | the surrogates computed from four bytes are those of the character's value |
| Converters.BytesFromPair | llvm/libcxx/src/locale.cpp:1479-1484 | the four bytes computed from two surrogates are those of the pair's value |
| Converters.ReadUtf8 | llvm/libcxx/src/locale.cpp:1927-2011 | the masks, switches and shifts on one to four bytes read exactly the character there |
| Converters.ReadUtf16 | llvm/libcxx/src/locale.cpp:1453-1488 | the tests on one or two words read exactly the character there |
| Converters.HeaderIsPassed | llvm/libcxx/src/locale.cpp:1923-1926 | with `consume_header` the UTF-8 form of U+FEFF in front is passed and what follows is converted as if alone; otherwise nothing is passed |
| Converters.Utf8ToUcs4InPlace | llvm/libcxx/src/locale.cpp:1912-2013 | verdict, input position and output buffer are those of the run of its codec, after a header if one is consumed; nothing else is written |
| Converters.Utf8ToUtf16InPlace | llvm/libcxx/src/locale.cpp:1567-1671 | the same for `utf8_to_utf16` |
| Converters.Ucs4ToUtf8InPlace | llvm/libcxx/src/locale.cpp:1862-1910 | the same for `ucs4_to_utf8`, behind a generated header if one is asked for |
| Converters.Utf16ToUtf8InPlace | llvm/libcxx/src/locale.cpp:1435-1499 | the same for `utf16_to_utf8` |
| Lengths.Utf8ToUcs4Length | llvm/libcxx/src/locale.cpp:2015-2094 | exactly the bytes `utf8_to_ucs4` consumes with that many output slots |
| Lengths.Utf8ToUtf16Length | llvm/libcxx/src/locale.cpp:1779-1860 | exactly the bytes `utf8_to_utf16` consumes with that many output slots |
| TableWait.MoveKeepsInv | llvm/libcxx/src/atomic.cpp:392-403 | one step of any waiter or notifier keeps what relates waiter counts, table states and sleepers, with any number of atomics to an entry |
| TableWait.NoLostWakeUp | llvm/libcxx/src/atomic.cpp:435-465 | while a waiter sleeps on a value that has changed, a notifier of that atomic has yet to change the entry or one of the entry has yet to wake; given fewer notifications than the state can count between its look and its sleep |
| TableWait.WrapLosesWakeUp | llvm/libcxx/src/atomic.cpp:442-449 | with exactly that many, a run that leaves the waiter asleep and nobody to wake it, for every modulus |
| TableWait.NobodyAsleep | llvm/libcxx/src/atomic.cpp:385-388 | a notifier that reads a waiter count of 0 leaves nobody asleep on the entry |
| TableWait.OnlyNotifiersChangeMemory | llvm/libcxx/src/atomic.cpp:392-403 | only stores change words, and only notifications change the state of an entry |
| TableWait.SleepsIffUnchanged | llvm/libcxx/src/atomic.cpp:435-465 | a waiter remembers the state and the value it has read, and sleeps exactly if the state is still that one |
| TableWait.NotifierWakesSleepers | llvm/libcxx/src/atomic.cpp:383-403 | a notifier that is pending wakes every sleeper of its entry by its own next steps |
| TableWait.NobodyIsStuck | llvm/libcxx/src/atomic.cpp:383-465 | an idle thread may wait on or notify any atomic, and any other has a next step |
| NativeWait.MoveKeepsInv | llvm/libcxx/src/atomic.cpp:383-403 | one step of any waiter or notifier keeps the invariant of waiting on the atomic's own word |
| NativeWait.NoLostWakeUp | llvm/libcxx/src/atomic.cpp:383-403 | while a waiter sleeps on a value that has changed, a notifier of the atomic is between its store and its wake |
| NativeWait.OnlyStoresChangeWords | llvm/libcxx/src/atomic.cpp:383-403 | only a store changes a word |
| NativeWait.SleepsIffUnchanged | llvm/libcxx/src/atomic.cpp:383-403 | a waiter sleeps exactly if the word still has the value it has read |
| NativeWait.NotifierWakesSleepers | llvm/libcxx/src/atomic.cpp:383-403 | a notifier that is pending wakes every sleeper of its atomic by its own next steps |
| NativeWait.NobodyIsStuck | llvm/libcxx/src/atomic.cpp:383-403 | an idle thread may wait on or notify any atomic, and any other has a next step |
| RefCount.MoveKeepsInv | llvm/libcxx/src/memory.cpp:40-98 | one atomic step of any handle, or of any of the `lock` calls under way on one, keeps the relation between both counts and the handles, and between the calls made and the calls due |
| RefCount.DisposedOnceAfterTheLastStrong | llvm/libcxx/src/memory.cpp:42-48 | `__on_zero_shared` runs at most once, and never while a strong handle is left |
| RefCount.FreedOnceAtTheEnd | llvm/libcxx/src/memory.cpp:60-89 | `__on_zero_shared_weak` runs at most once, later, and never while any handle or operation is left |
| RefCount.EverythingReleased | llvm/libcxx/src/memory.cpp:54-89 | when all handles are gone both have run exactly once |
| RefCount.MovesOf | llvm/libcxx/src/memory.cpp:40-98 | what each handle, and each operation under way, may do next: nothing is ever stuck, and only a weak handle in use by a `lock` may not be dropped |
| RefCount.CopyAddsHandle | llvm/libcxx/src/memory.cpp:40-52 | a copy adds a handle of its kind |
| RefCount.LockNeverRevives | llvm/libcxx/src/memory.cpp:91-98 | once the shared count is -1 it stays -1, and every `lock`, begun or under way, comes back empty-handed |
| RefCount.LoadOfZeroMeansAlone | llvm/libcxx/src/memory.cpp:84-87 | a thread that reads a weak count of 0 is alone with the block, so it may skip the decrement |
| RefCount.SharedWeakCount.AddShared | llvm/libcxx/src/memory.cpp:40 | the copy of a strong handle is a step of the protocol |
| RefCount.SharedWeakCount.AddWeak | llvm/libcxx/src/memory.cpp:52 | so is a new weak handle |
| RefCount.SharedWeakCount.ReleaseShared | llvm/libcxx/src/memory.cpp:42-58 | uninterrupted, it is a run of the steps above to the end of the handle |
| RefCount.SharedWeakCount.ReleaseWeak | llvm/libcxx/src/memory.cpp:60-89 | the same for the weak release, with its load and its decrement |
| RefCount.SharedWeakCount.Lock | llvm/libcxx/src/memory.cpp:91-98 | however often the compare-exchange fails spuriously, one more strong handle exactly when the count was not -1 |
| SharedMutex.MoveKeepsInv | llvm/libcxx/src/shared_mutex.cpp:22-87 | one critical section or notification of any thread keeps the relation between the word, the holders and the sleepers with a wake-up under way |
| SharedMutex.WriterIsAlone | llvm/libcxx/src/shared_mutex.cpp:22-48 | a held exclusive lock excludes every other holder |
| SharedMutex.ReadersAreCounted | llvm/libcxx/src/shared_mutex.cpp:50-69 | the reader field is the number of shared holders and never reaches the writer bit |
| SharedMutex.BitShutsOutReaders | llvm/libcxx/src/shared_mutex.cpp:26-28 | from the moment a thread sets the writer bit until that thread's own unlock the bit stays set and nobody becomes a reader |
| SharedMutex.WriterIsCalled | llvm/libcxx/src/shared_mutex.cpp:40-46 | a writer asleep at gate 1 while nobody has the writer bit has an unlocking thread about to notify all |
| SharedMutex.CallWakesEverybody | llvm/libcxx/src/shared_mutex.cpp:40-46 | that notification sends everybody asleep at gate 1 back to its own test |
| SharedMutex.TrySucceedsIff | llvm/libcxx/src/shared_mutex.cpp:31-38 | `try_lock` succeeds exactly when there is no holder of either kind and nobody has the bit, `try_lock_shared` exactly when nobody has the bit and there is room for a reader; otherwise nothing changes |
| SharedMutex.TestPassesIff | llvm/libcxx/src/shared_mutex.cpp:22-29 | a writer passes gate 1 exactly when nobody has the bit and gate 2 exactly when no reader is left, a reader passes gate 1 exactly when it may enter; otherwise the thread sleeps |
| SharedMutex.FreeLockIsTaken | llvm/libcxx/src/shared_mutex.cpp:22-57 | an uncontended lock of either kind is taken |
| SharedMutex.LastReaderSignals | llvm/libcxx/src/shared_mutex.cpp:71-87 | `unlock_shared` signals gate 2 exactly when the last reader leaves a writer waiting, and gate 1 exactly when the readers were at their maximum and nobody has the bit |
| SharedMutex.SignalWakesOne | llvm/libcxx/src/shared_mutex.cpp:81-85 | a signal to gate 1 sends one sleeper there back to its test |
| SharedMutex.CalledIff | llvm/libcxx/src/shared_mutex.cpp:71-87 | while a reader may enter, everybody asleep at gate 1 has a notification under way: a step keeps that exactly if it is no `unlock_shared` at the maximum with more asleep than the signals under way and its own |
| SharedMutex.SleeperIsCalled | llvm/libcxx/src/shared_mutex.cpp:50-87 | in every run without such an unlock a thread asleep at gate 1 while a reader may enter has a notification under way |
| SharedMutex.FewThreadsSuffice | llvm/libcxx/src/shared_mutex.cpp:50-87 | every run with at most one thread more than there can be readers is one |
| SharedMutex.ReaderLeftAsleep | llvm/libcxx/src/shared_mutex.cpp:71-87 | a run with one thread more than that which ends with a free lock, a sleeping reader and nobody about to wake it |
| SharedMutex.SleeperMayWake | llvm/libcxx/src/shared_mutex.cpp:22-29 | a sleeper may also wake for no reason, and then goes back to its own test |
| SharedMutex.WriterIsSignalled | llvm/libcxx/src/shared_mutex.cpp:71-80 | a writer asleep at gate 2 with no readers left has a signal under way |
| SharedMutex.SignalReachesWriter | llvm/libcxx/src/shared_mutex.cpp:71-80 | and that signal wakes it and it gets the lock |
| DenseMap.SearchEndsIff | bench/src/main.cpp:170-184 | the loops of `find` and `erase` end exactly when the key or an empty slot is in the table |
| DenseMap.EmptyIsLeft | bench/src/main.cpp:162 | without tombstones the load bound leaves an empty slot |
| DenseMap.AnswerAfterInsert | bench/src/main.cpp:160-176 | in every table, tombstones and stale copies or not, `find` meets what `insert` has just written |
| DenseMap.OtherAnswersKept | bench/src/main.cpp:160-176 | and answers as before for every other key |
| DenseMap.DenseMap.Seek | bench/src/main.cpp:170-184 | the probe loop stops at the first slot from the key's home that has the key or is empty |
| DenseMap.DenseMap.SeekRoom | bench/src/main.cpp:163-164 | the loop of `insert` ends in every state, at the first free slot, tombstone or copy of the key |
| DenseMap.DenseMap.Insert | bench/src/main.cpp:160-169 | in every state: what is written where, through growth; a table that is a map stays one, updated, exactly when it grew or the key was new or no tombstone came before it |
| DenseMap.DenseMap.Grow | bench/src/main.cpp:154-159 | a table of twice the size without tombstones that is a map, whatever the old one was: of the old map, or of the last copy of each key |
| DenseMap.CollectedAll | bench/src/main.cpp:154-159 | for a table that is a map, the last copies are that map |
| DenseMap.DenseMap.Find | bench/src/main.cpp:170-176 | the value at the first copy on the path; the answer of the abstract map while the table is one |
| DenseMap.DenseMap.Erase | bench/src/main.cpp:177-183 | a tombstone replaces the first copy; the key leaves the abstract map while the table is one |
| DenseMap.InsertKeepsMapIff | bench/src/main.cpp:163-167 | after an insertion the table is a map exactly when the key was new or no tombstone came before it on its path, and then it is the updated map |
| DenseMap.EraseAfterInsert | bench/src/main.cpp:163-181 | erasing the key again removes it exactly in that case; in the other the search finds the value from before the insertion |
| DenseMap.StaleValue | bench/src/main.cpp:160-183 | a run of the methods from an empty table that ends in that other case |
| DenseMap.Run | bench/src/main.cpp:147-184 | over any run of insertions followed by searches and erasures every answer is that of a map |
| DenseMap.RunInAnyOrder | bench/src/main.cpp:147-184 | over any run in any order that inserts only new keys and searches only for held ones the table is the map |
| Bitstream.EncodeAppend | bench/src/main.cpp:192-197 | a piece appended adds its value above all the bits before it |
| Bitstream.Writer.Emit | bench/src/main.cpp:192-197 | the words and the pending bits say the pieces so far and this one; fewer than 32 bits stay pending |
| Bitstream.Writer.Vbr | bench/src/main.cpp:198-203 | the number goes out in marked groups, and the loop ends |
| Bitstream.VbrFormat | bench/src/main.cpp:198-203 | the groups have n bits each, the top bit set in all but the last, and the rest of the bits, lowest group first, are the number |
| Bitstream.Writer.Flush | bench/src/main.cpp:204 | the words alone say all the pieces |
| Bitstream.Reader.Read | bench/src/main.cpp:212-218 | the low n bits of what is to come, and zeros behind the end; fewer than 32 bits stay pending |
| Bitstream.OrBits | bench/src/main.cpp:194-226 | a bit of the or is set exactly if it is in one of the two words |
| Bitstream.OrOfShifted | bench/src/main.cpp:194-226 | the or of a word with one shifted above all its bits is their sum |
| Bitstream.Reader.Vbr | bench/src/main.cpp:219-229 | on what `vbr` wrote the loop ends, no shift reaches the width of a word, no group overlaps the ones before it, and the number comes back |
| Bitstream.RoundTrip | bench/src/main.cpp:188-230 | for every list of fields of both kinds, reading with the same widths gives the same values |
| Gslices.DigitOfNumber | llvm/libcxx/src/valarray.cpp:30-43 | the odometer's digits are the mixed-radix digits of its number |
| Gslices.GSlice.Advance | llvm/libcxx/src/valarray.cpp:30-43 | the inner loop carries to the next index, or ends at the last |
| Gslices.GSlice.NextOffset | llvm/libcxx/src/valarray.cpp:34-36 | the incremental offset is start plus each digit times its stride |
| Gslices.GSlice.Init | llvm/libcxx/src/valarray.cpp:20-46 | the product of the sizes in entries, and entry k is start plus the digits of k times their strides |

## Left out

- Memory orders, fences and GPU intrinsics: every atomic access is sequentially consistent, and lanes use the CPU versions of the helpers.
- The packing of RPC lock bits into words, the search over port indices and the layout of the shared allocation: one index is modelled, with its own lock bit.
- The buffers `send_n` and `recv_n` point into: each lane's bytes are a sequence, so aliasing between lanes is not modelled.
- The barrier's phase completion, which lives in a header that is not part of this model: a new phase may begin once some arrival has returned true.
- BarrierAlgorithm.BarrierBase.Arrive: the class form covers a thread that runs without interruption; interleavings are covered by the state machine. Its two inner loops are methods of their own.
- Footers and vacancy headers are maps of their own, apart from the bytes of the blocks: that no live block touches one of them is what is proved instead.
- Upstream failures, `size_t` overflow in allocator sizes and slice products, and deallocation of blocks that were never allocated.
- `release` of the monotonic resource, `options()` and the synchronized pool resource: header code, or a lock around the same calls.
- `std::lower_bound` in the prime search is a linear search for the same entry, and the 64-bit bound of the overflow check is a parameter.
- The 32-bit-unit overloads of the UTF-16 converters, which repeat the same bodies, the UCS-2 and byte-order converters, and the `int` casts of the counters.
- The byte tests that the UTF-8 readers repeat are written once, as the `Read` and `Scan` methods, and called from each converter and counter.
- `notify_one`, timeouts, and the platform layer below `__platform_wait_on_address`; the order of a waiter's look at the state and at the value is that of the header's wait loop, which is not part of this model.
- Wrap-around of the counts of waiters and of reference-count owners, which would take more threads or handles than a word can count.
- The hash of `densemap` is any function of the key, and its mask is the remainder by the table size.
- The rest of the runtime: facets, streams, printing, chrono, filesystem, futures and the thin wrappers over the platform's threads.
