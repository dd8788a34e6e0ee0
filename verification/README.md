# A verified model of the rotor-switch emulator

The emulator forwards packets between network namespaces and a NIC. Its threads
share lock-free queues and one pool of packet frames, and the routes they use
change with every time slot. This project models its core in Dafny and proves
what the code promises, over every interleaving, every run or every input.

`dafny verify dfyconfig.toml` checks the whole project.

## The modules

- **The concurrent queue.** `MpmcMachine` has one step for each atomic access
  of any number of producers and consumers; `MpmcInvariant` has its inductive
  invariant; `MpmcRuns` has order, exclusion and the exact reasons for
  refusals; `MpmcProgress` has the retry bound; `MpmcWrap` relates unbounded
  positions to 64-bit words and masks, and `MpmcRuns64` states the order of the
  64-bit queue by itself; `MpmcAlone` says when a call goes on and that it
  succeeds; `MpmcQueue` is the code as a class, for one thread at a time; `MpmcUse`
  has the fill estimate and the bounded FIFO. `Bits` and `Remainders` hold the arithmetic.
- **The slab allocator.** `Slabs` has the calls as functions, `Mempool` the
  code as classes over shared arrays, `PortSetUp` the loop that brings the
  ports up, and `PortBursts` the receive and transmit bursts of a port. `Frames`
  puts every port, ring, queue and the kernel into one state machine, and `BurstSteps`
  does a burst in its steps; `FrameCounts`, `FrameSteps`, `FrameTrades`, `FrameGives`,
  `FrameRuns` and `FrameSetUp` prove that no frame is lost or duplicated and, while
  the fill rings hold enough, that no trade meets a stale slot; `FrameLimit` and
  `FrameIdle` show exactly when that is so.
- **The pipeline.** `Encap` rewrites frames byte by byte, `Topology` follows
  routes and holds the analyser, `Trips` joins the two, and `FlowOrder` runs the
  receive threads, the concurrent queue and the drain loop together;
  `FlowThrough` shows that a packet gets out.
- **Smaller cores.** `TombstoneTable`, `KeyTable`, `Checksum`, `Jhash`,
  `SlotRoutes`, and `Ini` with `IniLines` and `IniParser`. `Common` holds shared
  types.

## Assumptions, and where code and comments differ

- Threads interleave at single accesses to shared memory. The acquire and
  release pair on each cell's sequence is what makes that fair.
- The kernel moves a frame from a fill ring to a receive ring and from a
  transmit ring to a completion ring, once each, in any order, at an address
  within the frame.
  A frame is an address divided by the buffer size, since received addresses
  carry a headroom offset. Allocations succeed where no parameter says otherwise.
- A received address is not 0. The program gives a frame at address 0 back
  without queueing it (opera-v2/thread_functions_1.h:666-670), so only then are
  overflow drops the only gaps in a flow.
- `bcache_prod`'s comment (opera-v2/mempool.h:173-179) promises an empty slab
  because one full slab is in the cache. The code gives no such promise by
  itself: `FrameLimit.TradesSafeIff` shows that it needs k * (per - fill) <= per
  for k ports, `per` frames in a slab and `fill` > 0 frames on a fill ring. The
  shipped settings have fill = per.
- The allocator demands that no request exceeds a slab (opera-v2/mempool.h:43-47),
  so a slab holds at least the 20 frames of a burst. `bcache_init` with exactly
  one full slab reads before the slab array. `PortSetUp.ReadsInRangeIff` shows
  when setting up k ports meets that: for an odd number of slabs below 2k.
- An insert of a present key into the tombstone table leaves two items. Which one
  search finds depends on where the free cell is: `TombstoneTable.SecondItemFoundIff`.
- For a received frame that is not GRE with an inner IPv4 frame the classifier
  returns early and leaves the previous answer in place; deliveries are claimed
  for well-formed frames. The number of the veth is read through a signed char.
- The analyser's recursion never returns on a route that never arrives
  (`Topology.ReturnsIff`); the model bounds the number of nested calls, as the
  interpreter does.
- Copies with overlapping ranges (opera-v2/thread_functions_1.h:420,
  opera-v2/thread_functions_1.h:502) are taken as moves. One NIC queue is assumed,
  as the transmit loop passes its queue number as destination.
- The outer IP header's length counts 20 bytes for the 26 that follow it, and
  its checksum is not redone; nothing is claimed of its conformance.
- `newRouteMatrix`'s comment promises zeroes, but the loop that writes them is
  commented out; nothing is said of an element that was never set.
- The slot shown is 0 until the clock is first read, and the threads start before
  that (opera-v2/emu_nic.c:659-732). A lookup then fails and encapsulation goes on
  with an unset number: `SlotRoutes.LookUp`.
- Hosts are little-endian.

## Model

| member | source | states |
|---|---|---|
| `MpmcInvariant.InitInv` | opera-v2/mpmc_queue.c:37-56 | The initialised queue, with any number of threads that have not called yet, satisfies the invariant of the step machine. |
| `MpmcInvariant.StepInv` | opera-v2/mpmc_queue.c:74-129 | Any enabled access of any thread keeps the invariant: the 0 <= tail - head <= size window, what each cell's sequence may be, what each thread knows at its program point, one holder for each position, and the logs of pushed and pulled values. |
| `MpmcInvariant.Apart` | opera-v2/mpmc_queue.c:96-126 | Positions held by two different threads are different and less than one lap apart. |
| `MpmcRuns.RunInv` | opera-v2/mpmc_queue.c:74-129 | The invariant holds after every legal interleaving. |
| `MpmcRuns.FirstInFirstOut` | opera-v2/mpmc_queue.c:74-129 | In every interleaving from an initialised queue of any size, the i-th pull to win the head takes exactly the value of the i-th push to win the tail, or has not taken one yet; never more wins at the head than at the tail, nor more than a queue's worth between them. |
| `MpmcRuns.NothingLost` | opera-v2/mpmc_queue.c:74-129 | With no position held, every won pull has its value and the cells from head to tail hold the remaining pushed values in order. |
| `MpmcRuns.ReturnsWhatItTook` | opera-v2/mpmc_queue.c:125-128 | The value a pull returns is the one logged at its position and the one pushed there. |
| `MpmcRuns.HoldersHaveDistinctCells` | opera-v2/mpmc_queue.c:86-97 | Two threads between winning a position and storing the sequence hold different cells. |
| `MpmcRuns.OnlyHolderTouches` | opera-v2/mpmc_queue.c:96-97 | No step of another thread changes a held cell or reads its data. |
| `MpmcRuns.ChangeNeedsHolder` | opera-v2/mpmc_queue.c:96-126 | A cell changes only in a step of the thread that holds it. |
| `MpmcRuns.NeverBack` | opera-v2/mpmc_queue.c:80-97 | Head, tail and every sequence only grow, and the window bounds hold after the step. |
| `MpmcRuns.PushRefusedIff` | opera-v2/mpmc_queue.c:90-91 | A push returns 0 if and only if its position is the current tail and the cell one lap back is full or still being emptied. |
| `MpmcRuns.PullRefusedIff` | opera-v2/mpmc_queue.c:119-120 | A pull returns 0 if and only if its position is the current head and nothing is published there: the queue is empty or the push is unfinished. |
| `MpmcAlone.PushGoesOnIff` | opera-v2/mpmc_queue.c:84-88 | A push that finds its position at the current tail goes on to claim it if and only if the queue is not full and nobody is still emptying that cell. |
| `MpmcAlone.PullGoesOnIff` | opera-v2/mpmc_queue.c:113-117 | A pull that finds its position at the current head goes on to claim it if and only if a value is published there. |
| `MpmcAlone.AloneRun` | opera-v2/mpmc_queue.c:74-129 | A call that one thread makes by itself, the others standing still anywhere, is a legal run of the machine with the states, events and history of that thread's accesses. |
| `MpmcAlone.PushSucceeds` | opera-v2/mpmc_queue.c:74-100 | In any reachable state with no position held and the queue not full, an idle thread's push, run alone, is legal, claims the tail with its value in five accesses and returns; the queue then holds the old contents and the value. |
| `MpmcAlone.PullSucceeds` | opera-v2/mpmc_queue.c:102-129 | The mirror for a pull on a queue that is not empty: it returns the first value, and the others are held. |
| `MpmcProgress.RetryMovesForward` | opera-v2/mpmc_queue.c:87-93 | A retry that is not a spurious compare-exchange failure starts from a strictly larger position. |
| `MpmcProgress.RetriesAccount` | opera-v2/mpmc_queue.c:81-94 | Over a stretch of one retry loop, retries plus the start position are at most the position it has reached. |
| `MpmcProgress.RetriesPaidByOthers` | opera-v2/mpmc_queue.c:81-94 | The number of a thread's retries is at most the number of wins of other threads at that end meanwhile. |
| `MpmcWrap.CellSurvives` | opera-v2/mpmc_queue.c:40-44 | The mask index of a wrapped 64-bit position is the cell of the unbounded position: what the power-of-two test is for. |
| `MpmcWrap.DifferenceSurvives` | opera-v2/mpmc_queue.c:84 | The signed 64-bit difference of two wrapped numbers less than 2^63 apart is their true difference. |
| `MpmcWrap.EffectWraps` | opera-v2/mpmc_queue.c:74-129 | One access on 64-bit words, with mask indexing and signed differences, does what the access on unbounded positions does, as long as no retry loop lags by 2^63 - size or more. |
| `MpmcWrap.NextWraps` | opera-v2/mpmc_queue.c:74-129 | The same for a whole step of the machine and its event. |
| `MpmcWrap.RunWraps` | opera-v2/mpmc_queue.c:74-129 | The 64-bit machine, given the moves of a run of the unbounded one, goes through the wrapped states with the wrapped events. |
| `MpmcWrap.InitWraps` | opera-v2/mpmc_queue.c:49-53 | Both machines start in the same state. |
| `MpmcRuns64.LegalUnwraps` | opera-v2/mpmc_queue.c:74-129 | A run that the 64-bit machine can take, without the lag, is one that the unbounded machine can take. |
| `MpmcRuns64.SeenWraps` | opera-v2/mpmc_queue.c:74-129 | The history told by the 64-bit events alone, each value taken being put down to the latest pull that won its word, is that of the unbounded run. |
| `MpmcRuns64.FirstInFirstOut64` | opera-v2/mpmc_queue.c:74-129 | In every run of the 64-bit queue from its initial state, without the lag, the i-th pull to win the head takes the value of the i-th push to win the tail, or has not taken one yet. |
| `Bits.PowerOfTwoTest` | opera-v2/mpmc_queue.c:40 | `size & (size - 1)` is 0 exactly for powers of two. |
| `Bits.MaskIsRemainder` | opera-v2/mpmc_queue.c:82 | For a power of two, masking with size - 1 is the remainder by size. |
| `Bits.MaskSeparatesIff` | opera-v2/mpmc_queue.c:40-44 | Masking with size - 1 gives the positions of one lap different cells if and only if the size is a power of two. |
| `MpmcQueue.FreshHolds` | opera-v2/mpmc_queue.c:49-55 | The initialised cells are an empty bounded FIFO. |
| `MpmcQueue.HoldsPushed` | opera-v2/mpmc_queue.c:96-97 | Filling the first free cell appends the value to the FIFO. |
| `MpmcQueue.HoldsPulled` | opera-v2/mpmc_queue.c:125-126 | Releasing the first full cell drops the first value of the FIFO. |
| `MpmcQueue.MpmcQueue.Init` | opera-v2/mpmc_queue.c:37-56 | Exact status for every size and allocation outcome; on 0, a fresh empty queue. |
| `MpmcQueue.MpmcQueue.Available` | opera-v2/mpmc_queue.c:68-72 | With no operation under way, the number of values held. |
| `MpmcQueue.MpmcQueue.Push` | opera-v2/mpmc_queue.c:74-100 | With no other thread inside, appends if there is room and otherwise changes nothing, through any number of spurious failures. |
| `MpmcQueue.MpmcQueue.Pull` | opera-v2/mpmc_queue.c:102-129 | With no other thread inside, removes and returns the oldest value, or reports that there is none. |
| `MpmcQueue.MpmcQueue.PushMany` | opera-v2/mpmc_queue.c:131-143 | Appends the longest prefix that fits: if it stops early the queue is full. |
| `MpmcQueue.MpmcQueue.PullMany` | opera-v2/mpmc_queue.c:145-157 | Moves the longest prefix of the contents, up to the count, in order: if it stops early the queue is empty. |
| `MpmcUse.AvailableExact` | opera-v2/mpmc_queue.c:63-72 | For the only consumer, between its pulls, the estimate taken from two separate loads while producers run is the exact fill at the tail's load. |
| `MpmcUse.AvailableTailFirst` | opera-v2/mpmc_queue.c:63-72 | With several consumers and the tail loaded first, the estimate is at most the size if and only if the head has not passed the loaded tail. |
| `MpmcUse.AvailableHeadFirst` | opera-v2/mpmc_queue.c:63-72 | With the head loaded first, the estimate also counts what was pulled meanwhile; it is at most the size if and only if that is no more than the free cells at the tail's load. |
| `MpmcUse.EstimateCanWrap` | opera-v2/mpmc_queue.c:63-72 | A run of a queue of two cells after which the estimate, tail first, is 2^64 - 1. |
| `MpmcUse.QuiescentIsFifo` | opera-v2/mpmc_queue.c:74-129 | A reachable state in which no position is held is the bounded FIFO of the pushed values not yet won by a pull. |
| `MpmcUse.FifoStartsRuns` | opera-v2/mpmc_queue.c:74-129 | Any bounded FIFO state is a legitimate start of a concurrent run with any number of threads. |
| `FrameSetUp.BootInv` | opera-v2/mempool.h:274-284 | The pool as created, with no ports, satisfies the invariant: every frame is in one slab, and the slabs are all full. |
| `Slabs.TakeMany` | opera-v2/mempool.h:140-149 | n calls of bcache_cons hand out the last n addresses of the counted part, last first. |
| `Mempool.BPool.constructor` | opera-v2/mempool.h:214-284 | The least number of whole slabs that covers the buffers; slab and address arrays as FreshPool says. |
| `Mempool.BCache.Init` | opera-v2/mempool.h:105-137 | With two full slabs or more the cache takes the last two and declares one empty; with none it fails; with exactly one the method stops where the program reads before the slab array. The slots keep their old entries. |
| `Mempool.BCache.Check` | opera-v2/mempool.h:49-94 | With n at most a slab, the answer is the lesser of n and what the consumer slab then holds; an empty one is traded for the last full slab of the pool, its own going into that slot, and the answer is 0 only when the pool has no full slab either; nothing else changes. |
| `Mempool.BCache.Take` | opera-v2/mempool.h:140-149 | Hands out the last counted address of the consumer slab, which then counts one less; nothing else changes. |
| `Mempool.BCache.Give` | opera-v2/mempool.h:152-192 | The address is stored behind those of the producer slab; when that slab is full it goes into the first slot behind the full ones, the slab there becomes the producer slab, and the address is its first. |
| `Mempool.Port.Init` | opera-v2/mempool.h:363-441 | In every state of the pool: the port comes up with the last two full slabs and a fill ring of the last `fill` addresses of one of them, last first; or fails and hands its slabs back; or meets that read. |
| `Slabs.CheckGrants` | opera-v2/mempool.h:49-94 | A check grants the lesser of the request and what the consumer slab then holds; 0 exactly when cache and pool have no frame; an empty consumer slab is otherwise traded for the last full slab of the pool. |
| `Slabs.FreshAddresses` | opera-v2/mempool.h:274-284 | The addresses of a fresh pool count up by the buffer size, from 0, through each slab and on to the next. |
| `PortSetUp.ReadsInRangeIff` | opera-v2/mempool.h:128-131 | Setting up k ports in a row reads only inside the slab array if and only if the number of slabs is even or at least 2k; with a fill ring larger than a slab, if and only if there is not exactly one slab, or no port. |
| `PortSetUp.ThreeSlabsTwoPorts` | opera-v2/mempool.h:128-131 | An input that fails: three slabs for two ports. |
| `PortSetUp.AllUpIsSetUp` | opera-v2/emu_nic.c:396-405 | All k ports come up if and only if there are two slabs for each, and the pool is then that of the first state of the emulator's runs. |
| `PortSetUp.InitPorts` | opera-v2/emu_nic.c:396-405 | The loop over the ports ends as PortInits says: all up, stopped at the first failure, or at a read out of range. |
| `Mempool.Port.Fill` | opera-v2/mempool.h:431-433 | The fill ring receives exactly the addresses that TakeMany names, in order. |
| `FrameGives.TradeHasRoom` | opera-v2/mempool.h:173-192 | The counting argument: when a producer slab is full, the number of full slabs in the pool is below the number of live slots, because the fill sides hold enough frames. |
| `FrameGives.GiveStep` | opera-v2/mempool.h:152-192 | Giving an address back keeps every frame in one place and the slabs distinct, with and without a trade. |
| `FrameTrades.CheckStep` | opera-v2/mempool.h:49-94 | The trade of an empty consumer slab for a full one keeps every frame in one place and the slabs distinct. |
| `FrameSteps.RingStep` | opera-v2/thread_functions_1.h:11-218 | Every move between rings, bursts and collectors keeps every frame in one place; the kernel takes frames from a ring in any order. |
| `FrameSteps.RefillStep` | opera-v2/thread_functions_1.h:77-79 | Putting an owed frame on the fill ring, from a consumer slab that is not empty, keeps the invariant. |
| `FrameSteps.ForwardStep` | opera-v2/thread_functions_1.h:639-664 | Queueing a frame of a burst keeps the invariant. |
| `FrameSteps.DrainStep` | opera-v2/thread_functions_1.h:735-757 | Draining a frame into the collector keeps the invariant. |
| `FrameRuns.StepInRange` | opera-v2/mempool.h:48-192 | Every enabled step is in range: the consumer slab can pay every frame that is owed, and every trade finds a live slot. |
| `FrameRuns.StepSafe` | opera-v2/mempool.h:48-192 | No step of any thread or of the kernel leaves the allocator's arrays, and every step keeps the invariant. |
| `FrameRuns.TradedSlabIsEmpty` | opera-v2/mempool.h:173-183 | A full-slab trade finds n_slabs_available < n_slabs - 2k, and the slab it takes is neither in a full slot of the pool nor any cache's: never a stale slot left by bcache_init. |
| `FrameRuns.EachFrameOnce` | opera-v2/mempool.h:139-192 | In every state of the invariant each frame number occurs exactly once among full pool slabs, counted parts of caches, rings, bursts, collectors, queues and the frames written off, and no other number occurs. |
| `FrameRuns.SlabsArePermutation` | opera-v2/mempool.h:83-91 | The slabs of the live slots with those of the caches are the original slabs, each once. |
| `FrameSetUp.SetUpInv` | opera-v2/mempool.h:363-441 | After any number of ports are set up, the invariant holds. |
| `FrameSetUp.RunSafe` | opera-v2/mempool.h:48-192 | In every run after set-up every enabled step is in range and every trade meets n_slabs_available < n_slabs - 2k. |
| `FrameSetUp.ShippedFillIsEnough` | opera-v2/structures.h:164-181 | The shipped settings, a fill ring of one slab, satisfy the condition for any number of ports. |
| `FrameLimit.TradesSafeIff` | opera-v2/mempool.h:173-179 | The exact condition, with at least one queue: in every run all trades find a live slot if and only if k * (per - fill) <= per, or there is no fill ring. The comment in the program claims it unconditionally. |
| `FrameLimit.Overfill` | opera-v2/mempool.h:173-192 | When the condition fails, a run that leads to a trade beyond the live slots. |
| `PortBursts.PortIo.RxBurst` | opera-v2/thread_functions_1.h:11-84 | n descriptors leave the receive ring, in order, for the arrays and n addresses go from the cache to the fill ring, n being exactly the least of what the check grants and what the ring holds. |
| `PortBursts.PortIo.TxBurst` | opera-v2/thread_functions_1.h:166-218 | The first n completions go back to the cache in order, n being exactly the least of the ring's size and what it holds, and the collected descriptors are appended to the transmit ring. |
| `PortBursts.BudgetIff` | opera-v2/thread_functions_1.h:17-19 | In every reachable state a ready port is granted a burst if and only if its cache or the pool has a frame: 20, or what is left of the consumer slab. |
| `BurstSteps.ReceiveBurst` | opera-v2/thread_functions_1.h:11-84 | From every reachable state with a ready port there is a run of steps of its receive thread alone that does what RxBurst does: the machine's steps and the code agree on the descriptors, the addresses, the cache and the pool. |
| `PortBursts.CompletionsInRange` | opera-v2/thread_functions_1.h:172-185 | In any reachable state under the condition, giving back any number of completed frames keeps every trade in range, and is what the machine's steps do one by one. |
| `FlowOrder.LaneStep` | opera-v2/thread_functions_1.h:584-830 | Every step of the receive threads, the queue and the transmit thread keeps the order invariant, in any interleaving at the grain of one atomic access, whatever the transmit thread's estimate of the fill says. |
| `FlowOrder.LeavesInArrivalOrder` | opera-v2/thread_functions_1.h:777-830 | In every run, what a veth's packets to one destination that left or were collected, followed by those still queued, is exactly its arrivals in order without the overflow drops; every arrival is queued, dropped, being pushed or still in the burst; the collector holds at most 20. |
| `FlowOrder.AllHaveLeft` | opera-v2/thread_functions_1.h:777-830 | Once all is drained, exactly the packets that were not dropped have left, in order of arrival. |
| `FlowOrder.DroppedOnlyWhenFull` | opera-v2/thread_functions_1.h:648-656 | A packet is dropped only when the queue is full, counting a pull of the transmit thread that is under way. |
| `FlowThrough.PacketGetsThrough` | opera-v2/thread_functions_1.h:584-830 | From every reachable lane at rest, steps of the receive thread and the transmit thread bring an arriving packet out as the next one sent, and the lane back to rest: the order theorems are not about empty logs. |
| `FlowOrder.Collect` | opera-v2/thread_functions_1.h:783-814 | The drain loop moves the oldest packets, the lesser of 20 and the fill, in order, into the front of the collector and never past its end. |
| `Encap.EncapVeth` | opera-v2/thread_functions_1.h:427-548 | The rewritten buffer, byte by byte, and the new length. |
| `Encap.EncapIndirection` | opera-v2/thread_functions_1.h:550-580 | The rewritten buffer of a relay, byte by byte. |
| `Encap.NicReceive` | opera-v2/thread_functions_1.h:312-425 | For a frame it accepts: local or forward, with the veth and the new length, and the buffer after it, or a copy of negative length, where the method stops; for any other frame the earlier answer stands and the buffer with it. |
| `Encap.ReadBackIff` | opera-v2/thread_functions_1.h:898 | The program's coding of the verdict as a length, 1 for forwarding, is read back rightly if and only if the frame is not a local one of 41 bytes. |
| `Encap.CarriedReadsBack` | opera-v2/thread_functions_1.h:898 | For a carried frame of at least 34 bytes it always is, and its copy is not negative. |
| `Encap.EncapCarries` | opera-v2/thread_functions_1.h:482-544 | After encapsulation the whole frame stands behind well-formed outer headers for its gateway, with hop count 0 and the next hop's address. |
| `Encap.EncapChangesOnly` | opera-v2/thread_functions_1.h:502-544 | Around the frame only the next hop's address, the two types, the protocol, the length, the last number of the destination and the hop count are written, each with its value; every other outer byte up to the GRE type is the frame's own, and the bytes behind it stand. |
| `Encap.EncapLengthens` | opera-v2/thread_functions_1.h:516-529 | The outer total length, read in network order, is the frame's and 20, modulo 65536. |
| `Encap.ReceiveReads` | opera-v2/thread_functions_1.h:323-371 | A frame is accepted by the seven bytes at their places, forwarded if and only if its outer destination is not the node's, and otherwise passed on with 40 bytes less to the veth two below the last number of its own destination, modulo 256. |
| `Encap.GatewayOfSubnet` | opera-v2/thread_functions_1.h:518-530 | Two destinations have the same gateway if and only if their first three numbers agree. |
| `Encap.RelayChangesOnly` | opera-v2/thread_functions_1.h:561-579 | A relay changes the outer MAC addresses and the hop count and no other byte: the outer destination it writes is the one that is there. |
| `Encap.RelayBumps` | opera-v2/thread_functions_1.h:561 | The hop count, in the host's order, is one more, modulo 65536. |
| `Encap.RelayCarries` | opera-v2/thread_functions_1.h:550-580 | A relayed buffer still carries the frame. |
| `Encap.DecapRestores` | opera-v2/thread_functions_1.h:336-422 | Decapsulation restores every byte and the length; it happens if and only if the node is the frame's own gateway. |
| `Encap.RelayAllOnWire` | opera-v2/thread_functions_1.h:550-580 | After any number of relays the buffer carries the frame to the last next hop, with their number as hop count (modulo 65536). |
| `Encap.FrameSurvivesTrip` | opera-v2/thread_functions_1.h:312-580 | Encapsulation, any relays and decapsulation give the original frame back, for frames of at least 34 bytes with 40 bytes of room. |
| `Topology.NoRepeat` | z-analysis/topo_analysis.py:30-41 | A route that arrives meets no node twice. |
| `Topology.HopsBound` | z-analysis/topo_analysis.py:30-41 | Among N nodes a route that arrives does so in at most N - 1 hops. |
| `Topology.ArrivesIff` | z-analysis/topo_analysis.py:30-41 | A route arrives if and only if it is at its destination after N - 1 hops. |
| `Topology.OneHopOn` | z-analysis/topo_analysis.py:41 | One hop on, an arriving route has one hop less to go: the termination measure of the recursion. |
| `Topology.ReturnsWithinIff` | z-analysis/topo_analysis.py:30-41 | The recursion returns within n nested calls if and only if the route arrives in at most n hops. |
| `Topology.ReturnsIff` | z-analysis/topo_analysis.py:30-41 | The recursion returns at all if and only if the route is at its destination after N - 1 hops. |
| `Topology.LoopNeverReturns` | z-analysis/topo_analysis.py:30-41 | A table of three nodes on which it never returns. |
| `Topology.LineCounts` | z-analysis/topo_analysis.py:30-41 | On a line of three nodes the route between its ends takes two hops, through the node between. |
| `Topology.HopCounts.GetNextNode` | z-analysis/topo_analysis.py:30-41 | Within a given number of nested calls it succeeds exactly when the route arrives within them, and stores the number of hops from there plus the count so far and one; otherwise the dictionary is unchanged. |
| `Topology.HopCounts.GetPathPerTopo` | z-analysis/topo_analysis.py:44-56 | The dictionary is the old one with the hop counts of the slots put in, up to the first slot whose recursion is given up, or all 32. |
| `Topology.EnoughFrames` | z-analysis/topo_analysis.py:30-41 | With nested calls for all nodes but two, only routes that never arrive are given up. |
| `Topology.FilledAt` | z-analysis/topo_analysis.py:47-56 | Such a dictionary holds, for each of the 32 slots, that slot's hop count, and for any other key what it held. |
| `Trips.FlightOnWire` | opera-v2/thread_functions_1.h:427-580 | The buffer that the k-th node of a way sends carries the frame to the next node after k relays. |
| `Trips.SenderOnLink` | opera-v2/thread_functions_1.h:577-578 | On every link after the first the outer MAC addresses are those of the relay that sends and of the node that is to receive. |
| `Trips.WayFlies` | opera-v2/thread_functions_1.h:312-580 | Along any way whose last node alone is the frame's gateway, every node between sends the frame on and the last one delivers it. |
| `Trips.DeliveredUnchanged` | opera-v2/thread_functions_1.h:312-580 | With one slot for the whole flight and routes that arrive, every node before the destination forwards and the destination gets the frame unchanged. |
| `Trips.CountedAsPredicted` | z-analysis/topo_analysis.py:30-56 | The hop count read at delivery plus one is the analyser's count for the slot, which lies between 1 and N - 1. |
| `SlotRoutes.SlotInCycle` | opera-v2/emu_nic.c:226-227 | Taking the remainder by the cycle and dividing gives the slot number of the time in the repeating cycle. |
| `SlotRoutes.NearTimes` | opera-v2/emu_nic.c:214-227 | Two times less than a slot apart fall in the same slot or in cyclically adjacent ones, for any slot length. |
| `SlotRoutes.NearTimesIff` | opera-v2/emu_nic.c:214-227 | With the shipped slot, and nanoseconds held in 64 bits, that holds if and only if the count does not wrap in between. |
| `SlotRoutes.BeforeWrap` | opera-v2/emu_nic.c:214-227 | The last slot of time before the 64-bit count wraps falls in slots 3 and 4, so slot 1 after it is not adjacent. |
| `SlotRoutes.Clock.ReadTime` | opera-v2/emu_nic.c:219-227 | The slot shown is the slot of the time, between 1 and 32, and the time into the cycle its remainder; the slot is 0 exactly until the first reading. |
| `SlotRoutes.NsecCounts` | opera-v2/emu_nic.c:214-217 | The count is the nanoseconds in second 0, one more for each nanosecond and 10^9 more for each second, modulo 2^64. |
| `SlotRoutes.ReadingsAcrossSecond` | opera-v2/emu_nic.c:214-227 | Two readings on either side of a full second, less than a slot apart, show the same slot or one and the next, as long as the count does not wrap. |
| `SlotRoutes.ColumnMajor` | opera-v2/data_structures.h:5-6 | Elements lie column by column, the first at 0. |
| `SlotRoutes.ElemInRange` | opera-v2/data_structures.h:5-6 | Every element in the dimensions has its cell inside the data. |
| `SlotRoutes.ElemInjective` | opera-v2/data_structures.h:5-6 | No two elements share a cell. |
| `SlotRoutes.SetRouteElement` | opera-v2/data_structures.h:31-41 | Exact status; the element set changes and no other. |
| `SlotRoutes.GetRouteElement` | opera-v2/data_structures.h:48-58 | Exact status; on success the caller's variable gets the element, otherwise it keeps its value. |
| `SlotRoutes.LoadRoutes` | opera-v2/emu_nic.c:471-496 | After loading, every element is the number at its line and place in the file; lines beyond the matrix change nothing. |
| `SlotRoutes.LookUp` | opera-v2/thread_functions_1.h:504-507 | The lookup for a destination gives the hop that the routes give in the clock's slot if and only if the clock has been read; before that it answers -2 and leaves the caller's variable unset. |
| `SlotRoutes.LookUpTooEarly` | opera-v2/structures.h:375 | An input that fails: a clock as the program starts with it, showing slot 0. |
| `TombstoneTable.EndsIff` | opera-ex/common_funcs.h:203-213 | A probe for a key ends if and only if the key is present or a null cell is left. |
| `TombstoneTable.NullMeansAbsent` | opera-ex/common_funcs.h:203-215 | A probe that meets a null cell before its key proves the key absent. |
| `TombstoneTable.InsertKeeps` | opera-ex/common_funcs.h:225-236 | Filling the first null or dummy cell of a new key's probe keeps every present key reachable and unique. |
| `TombstoneTable.DeleteKeeps` | opera-ex/common_funcs.h:246-253 | Turning a live cell into a tombstone keeps every other present key reachable. |
| `TombstoneTable.NextProbed` | opera-ex/common_funcs.h:208-212 | The increment and remainder are one more step of the probe. |
| `TombstoneTable.HashIs` | opera-ex/common_funcs.h:194-196 | A key below the size is its own hash, and keys a size apart have one hash. |
| `TombstoneTable.Table.Search` | opera-ex/common_funcs.h:198-216 | Terminates and returns the stored item exactly for the present keys. |
| `TombstoneTable.OneEachIff` | opera-ex/common_funcs.h:218-237 | After an insert each key has at most one cell if and only if the key was absent. |
| `TombstoneTable.SecondItemFoundIff` | opera-ex/common_funcs.h:198-237 | After inserting a present key, search returns the new item if and only if the free cell comes before the old item on the probe, and otherwise the old one. |
| `TombstoneTable.LaterItemHides` | opera-ex/common_funcs.h:198-264 | Inserts of 2 and 0 into two cells, a delete of 2 and an insert of 0: the last item is found and the earlier one hidden. |
| `TombstoneTable.Table.Insert` | opera-ex/common_funcs.h:218-237 | Terminates and writes a fresh item to the first null or dummy cell of the probe, for any key; an absent key is then mapped to it, every other item is kept, and at most one null cell is used up. |
| `TombstoneTable.Table.Delete` | opera-ex/common_funcs.h:239-264 | Removes exactly the item's key, returns what the table held for it, and leaves the null cells as they were. |
| `KeyTable.AddMaps` | opera-v2/map.c:68-99 | Adding an absent key maps it and keeps every other key, across holes taken again and across doubling. |
| `KeyTable.AddUniqueIff` | opera-v2/map.c:68-99 | An add keeps at most one node for each key if and only if its key was absent. |
| `KeyTable.AddFoundIff` | opera-v2/map.c:68-99 | After an add, the key has the new value if and only if it was absent, the hole taken comes before its node, or the node has that value already. |
| `KeyTable.SetMaps` | opera-v2/map.c:101-116 | Set maps the key, present or not, and keeps every other. |
| `KeyTable.DeleteMaps` | opera-v2/map.c:118-130 | Delete removes the key and keeps every other. |
| `KeyTable.RunRepresents` | opera-v2/map.c:33-130 | Any run of sets, deletes and adds of absent keys is a run on a finite map from non-zero keys to values. |
| `KeyTable.FreshRepresents` | opera-v2/map.c:7-20 | The initialised table is the empty map. |
| `KeyTable.ApplyClean` | opera-v2/map.c:33-130 | Adds, sets and deletes keep every hole zeroed, and every value at the value size. |
| `KeyTable.AddSize` | opera-v2/map.c:89-96 | The table doubles when no hole is left, and only then grows. |
| `KeyTable.Table.Init` | opera-v2/map.c:7-20 | Exact status; on 0 a table of zeroed nodes. |
| `KeyTable.Table.Get` | opera-v2/map.c:33-49 | The place of the first node of the key, or none. |
| `KeyTable.Table.Scan` | opera-v2/map.c:75-81 | The loop finds the first node of the key looked for. |
| `KeyTable.Table.Add` | opera-v2/map.c:68-99 | Exact status; on 0 the nodes are those of Added. |
| `KeyTable.Table.Set` | opera-v2/map.c:101-116 | Exact status; on 0 the nodes are those of Updated. |
| `KeyTable.Table.Delete` | opera-v2/map.c:118-130 | Exact status; on 0 the nodes are those of Deleted. |
| `Checksum.OneFold` | opera-v2/calculate_checksum.h:14-16 | One turn of the carry loop keeps the residue modulo 65535. |
| `Checksum.Fold` | opera-v2/calculate_checksum.h:13-16 | The carry loop terminates with the one's complement sum: the residue modulo 65535, and 0 only from 0. |
| `Checksum.SumFits` | opera-v2/calculate_checksum.h:5-12 | The unbounded sums of the model never exceed the 64 bits of the program's. |
| `Checksum.SumWords` | opera-v2/calculate_checksum.h:6-12 | The word loop computes the sum of the words, an odd last byte counting as if a zero followed it. |
| `Checksum.OddIsPadded` | opera-v2/calculate_checksum.h:10-13 | An odd number of bytes has the sum of the bytes with a zero added. |
| `Checksum.Example` | opera-v2/calculate_checksum.h:4-21 | The example of section 3 of RFC 1071: the words sum to 2ddf0 and fold to ddf2, in network order, and to f2dd as the host reads them. |
| `Checksum.ChecksumInNetworkOrder` | opera-v2/calculate_checksum.h:4-21 | The checksum computed on host-order words, stored as it is, reads in network order as the complement of the sum of network-order words, as in section 2 of RFC 1071. |
| `Checksum.OneWordNoticed` | opera-v2/calculate_checksum.h:4-21 | Changing one aligned word leaves the checksum the same if and only if it swaps all zeros and all ones among bytes that are not otherwise all zero. |
| `Checksum.StoredVerifies` | opera-v2/calculate_checksum.h:23-26 | With its checksum stored in the zeroed field, a header's checksum is 0, as in section 1 of RFC 1071. |
| `Checksum.ComputeChecksum` | opera-v2/calculate_checksum.h:4-21 | The method returns the checksum of the first count bytes. |
| `Checksum.ComputeIpChecksum` | opera-v2/calculate_checksum.h:23-26 | Only the check field changes; it holds the checksum of the header with a zeroed field, and the header then verifies to 0, unless it is too short to hold the field. |
| `Checksum.PseudoWords` | opera-v2/calculate_checksum.h:33-44 | The pseudo header's words add up to the word sum of its bytes. |
| `Checksum.PseudoIs` | opera-v2/calculate_checksum.h:33-43 | The pseudo header is the source and destination address, a zero, the protocol and the length in network order, as in RFC 768 and RFC 793. |
| `Checksum.TcpLengthIs` | opera-v2/calculate_checksum.h:31 | The TCP length and the IP header's make up the total length. |
| `Checksum.SegmentChecksum` | opera-v2/calculate_checksum.h:46-61 | The segment after the pseudo header has the checksum of the two together. |
| `Checksum.ComputeTcpChecksum` | opera-v2/calculate_checksum.h:29-64 | Only the check field changes; it holds the checksum of pseudo header and segment with a zeroed field, and they then verify to 0, when the segment holds the field. |
| `Checksum.ComputeUdpChecksum` | opera-v2/calculate_checksum.h:67-107 | The same for UDP, but 65535 is stored for a checksum of 0, as the Checksum field of RFC 768 asks. |
| `Jhash.Rol32IsShifts` | include/jhash.h:25-28 | Rotation moves the top bits to the bottom and the rest up: the two shifts of the program. |
| `Jhash.XorTwice` | include/jhash.h:33-41 | Exclusive or with the same word twice gives the word back. |
| `Jhash.XorAtBit` | include/jhash.h:33-41 | Each bit of the exclusive or is 1 exactly where the two words differ. |
| `Jhash.MixIs` | include/jhash.h:33-41 | Mixing, as a chain of additions, subtractions and exclusive ors with rotations by 4, 6, 8, 16, 19 and 4. |
| `Jhash.FinalIs` | include/jhash.h:43-52 | The final step, as a chain of subtractions and exclusive ors with rotations by 14, 11, 25, 16, 4, 14 and 24. |
| `Jhash.StartIs` | include/jhash.h:74 | All three words start at 0xdeadbeef plus the length and the initial value, modulo 2^32. |
| `Jhash.LoadIs` | include/jhash.h:77-80 | The four bytes of a loaded word are the key's in little-endian order, with zeroes beyond its end. |
| `Jhash.HashIs` | include/jhash.h:85-104 | The empty key's hash, and those of one, two and three words: the final step of the start with the words added in their places. |
| `Jhash.MixBijective` | include/jhash.h:33-41 | Mixing is a bijection on the three-word state, with the inverse written out. |
| `Jhash.AbsorbInjective` | include/jhash.h:76-84 | Different states stay different while the same blocks are taken in. |
| `Jhash.WordsAt` | include/jhash.h:77-80 | Word i of a key is the little-endian word at byte 4i. |
| `Jhash.BytesOrWords` | include/jhash.h:68-142 | jhash on 4n bytes and jhash2 on the n words that a little-endian host reads in them, called side by side, return the same hash. |
| `Jhash.JhashMix` | include/jhash.h:33-41 | The eighteen assignments compute Mix. |
| `Jhash.FinalBijective` | include/jhash.h:43-52 | The final step, too, is a bijection on the three-word state, with the inverse written out. |
| `Jhash.LastBlockCounts` | include/jhash.h:85-104 | Different last blocks taken in from the same state end in different states. |
| `Jhash.Jhash` | include/jhash.h:68-105 | For every length, the hash of the key's bytes as zero-padded words. |
| `Jhash.Jhash2` | include/jhash.h:114-142 | The hash of the words, with four times their number as length. |
| `Jhash.JhashSwitch` | include/jhash.h:85-104 | The fall-through cases add exactly the missing bytes of the last block. |
| `Jhash.Jhash3Words` | include/jhash.h:157-160 | Equals jhash2 on the three words. |
| `Jhash.Jhash2Words` | include/jhash.h:162-165 | Equals jhash2 on the two words. |
| `Jhash.Jhash1Word` | include/jhash.h:167-170 | Equals jhash2 on the one word. |
| `Ini.ChunksJoin` | opera-v2/ini.c:271-294 | The string reader's chunks concatenate to the input. |
| `Ini.ChunksOfLines` | opera-v2/ini.c:271-294 | The lines of a rendered document come back from the reader one by one. |
| `Ini.ItemAct` | opera-v2/ini.c:159-226 | A rendered heading or entry asks for exactly that section, or that name and value, in any context. |
| `Ini.RenderedCalls` | opera-v2/ini.c:159-226 | The calls for a rendered document are its entries under their last headings, in order. |
| `Ini.RoundTrip` | opera-v2/ini.c:97-304 | Rendering clean headings and entries, one short line each, and parsing gives exactly those calls, and a line fails if and only if its own call is refused. |
| `IniParser.RStripInPlace` | opera-v2/ini.c:48-54 | Stripping in place leaves the string without its trailing spaces and touches nothing else. |
| `IniParser.FindCharsOrComment` | opera-v2/ini.c:67-82 | Finds the first of the characters, the start of an inline comment or the end. |
| `IniParser.ReadChunk` | opera-v2/ini.c:271-294 | The buffer receives the next chunk, NUL-terminated, and the stream moves on by its length. |
| `IniParser.ParseLine` | opera-v2/ini.c:150-226 | What a line asks for, computed by cutting the buffer up in place, is LineAct of its text. |
| `IniParser.Handle` | opera-v2/ini.c:172-226 | The new section, remembered name, calls and error after a line. |
| `IniParser.OneMoreFailure` | opera-v2/ini.c:137-247 | The error kept is the first failure among the lines so far. |
| `IniParser.ParseString` | opera-v2/ini.c:297-304 | For every input and every sequence of handler answers: the calls are those of the lines, whatever the answers, and the result is the number of the first bad or refused line, or 0. |
| `IniLines.LineStart` | opera-v2/ini.c:157-169 | A line counts without the spaces around it; whether it was indented is remembered. |
| `IniLines.CommentLine` | opera-v2/ini.c:167-171 | A comment line asks for nothing, with spaces around it or without. |
| `IniLines.BlankLine` | opera-v2/ini.c:167-171 | Nor does a line of spaces. |
| `IniLines.HeadingLine` | opera-v2/ini.c:186-192 | A heading is what stands between the brackets, whatever follows. |
| `IniLines.OpenHeading` | opera-v2/ini.c:188-201 | Without the closing bracket the line is bad. |
| `IniLines.NoSeparator` | opera-v2/ini.c:203-233 | So is a line with neither '=' nor ':'. |
| `IniLines.EntryLine` | opera-v2/ini.c:203-222 | A name and a value with '=' or ':' between them, spaces around each and perhaps a comment at the end, ask for exactly that pair. |
| `IniLines.ContinuationLine` | opera-v2/ini.c:173-184 | After a name an indented line asks for another value, without its spaces and comment. |
| `IniLines.ContinuationCalls` | opera-v2/ini.c:173-184 | It calls the handler with the section and the name before it, cut to 49 characters. |
| `IniLines.HeadingContext` | opera-v2/ini.c:191-192 | After a heading there is no name to continue, and the section is the heading cut to 49 characters. |
| `IniLines.MarkedInput` | opera-v2/ini.c:160-167 | A byte order mark is passed over at the start of the input alone. |
| `IniLines.ChunkIs` | opera-v2/ini.c:271-294 | A chunk ends at its only newline, at 199 characters or at the end of the input. |
| `IniLines.FirstChunk` | opera-v2/ini.c:271-294 | The first chunk is cut by a room of 199 characters, and the rest is cut the same way. |
| `IniLines.ErrorIff` | opera-v2/ini.c:136-247 | The result is 0 if and only if no line is bad and the handler accepts every call; otherwise it is no later a line than the first bad one. |

## Left out

- Weak memory effects, and races inside one cache: each allocator call is one step.
- Kernel and library calls, sockets, polling, ring reservation waits, thread start and affinity, telemetry, CSV and MAC parsing.
- `bcache_free`, `port_free` and teardown, which raise the slab count without putting slabs back; mg_map_cleanup, mpmc_queue_destroy and deleteRouteMatrix.
- Transmit buffers (`struct burst_tx`) and what their failed allocation or a missing queue leaks; the queues hold their addresses.
- The destination index that get_destination_queue_index looks up in a key table is a parameter.
- FrameSteps.DrainStep: any port may drain any queue, which allows more runs than the program's fixed assignment.
- FlowOrder.LaneStep: one destination's queue at a time; packets for other destinations are handled between its steps, and their own queues obey the same theorem.
- FlowOrder.Collect: with no other thread at the queue; the concurrent drain is in the step machine.
- MpmcQueue.MpmcQueue.Push: with no other thread inside; the interleavings are in the step machine.
- MpmcQueue.MpmcQueue.Pull: with no other thread inside; the interleavings are in the step machine.
- MpmcQueue.MpmcQueue.PushMany: with no other thread inside; between its pushes others may push and pull, as in the step machine.
- MpmcQueue.MpmcQueue.PullMany: with no other thread inside; between its pulls others may push and pull, as in the step machine.
- FrameLimit.TradesSafeIff: for at least one queue, as the program always has.
- Jhash.Jhash: keys are values and words are numbers below 2^32 with the wrap-around written out, not machine words.
- KeyTable.Table.Get: returns the number of the node instead of a pointer into it; a node is a key with its value bytes instead of one run of bytes.
- IniParser.ParseString: the section and the remembered name are strings cut to 49 characters instead of buffers; files and the line number's overflow are left out.
- SlotRoutes.LoadRoutes: lines are lists of 32 numbers already read from text.
