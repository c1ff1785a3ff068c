# A model of the TAS fast path, and proofs about it

This project models the parts of TAS (a TCP acceleration service whose fast path
runs on a SmartNIC emulated by dedicated cores) that carry the hard guarantees:

- **Queue manager** (`WrapTime`, `Scheduler`, `SchedulerRuns`,
  `SchedulerFairness`, `SchedulerService`, `QmanState`, `Qman`). Flow queues wait either in a FIFO (no
  rate limit) or in a four-level skiplist sorted by a wrapping 32-bit due time.
  `Scheduler` says what the manager does over unbounded time and plain lists; `Qman`
  is the manager itself, with its array of queues, index links and wrapped stamps, and
  every method is proved to do what `Scheduler` says. Pacing, the byte rate limit,
  conservation of bytes and fairness of the FIFO are proved over every run, and from
  below, that a limited queue is served on time and gets its full rate.
- **Receive side of TCP** (`Trim`, `Reassembly`, `StaleInterval`, `FastFlow`). Trimming a segment
  to the receive window in modular sequence numbers, holding one out-of-order
  interval, catching up, the FIN. `FastFlow` is the flow state with its ring; what
  the application reads is the byte stream that was sent.
- **Byte ring** (`RingIndex`, `RdmaQueue`). The single-producer single-consumer
  ring between host and NIC in its local form.
- **Flow hash table and its lock-free lookup** (`FlowTable`, `FlowAlloc`,
  `FlowIds`, `LookupProtocol`). Neighbourhood hashing with displacement, the pool of flow ids,
  and the interleavings of one writer with a reader.
- **Timers** (`TimerSpec`, `Timeouts`). Two doubly linked lists over a wrapping
  28-bit clock.
- **Trace ring** (`Trace`). A writer of variable-length entries and a reader that
  walks them backward.
- **RSS rebalancing** (`RssBalance`, `Rss`). Scaling the number of cores up and
  down by rewriting the redirection table.
- **Packet memory** (`MemSpec`, `PacketMem`). A first-fit allocator over a singly
  linked free list.
- **Epoll** (`EpollSpec`, `EpollEvents`, `Epolls`). The active queue and the inactive list of one
  epoll, and the poll that goes around the queue.
- **Congestion arithmetic** (`Congestion`, `Timely`, `CongestionSigns`). The RTT estimate, window-based
  DCTCP and TIMELY, as rules over unbounded numbers and in machine words.

State that the source updates in place is a class here. Its methods are proved
against functions on values (`spec`, `pipe`, `rcv`, `events` are ghost fields that
hold the abstract value), and the laws are lemmas about those functions. `Basics`
holds what several models share.

## Where the code does not do what one would expect

Each of these is modelled as the code is, with the exact condition and, where it is
not plain from the condition, a concrete input.

- *Slow flows are sent too early.* The cost of one chunk is computed in 32 bits
  and compared as a signed distance. `PlacedInPastExactly` says when a queue is
  placed in the past; with the segment size of TCP this needs a rate from 1 to 5
  (`MssPaceableExactly`, `SlowFlowPlacedInPast`).
- *Trimming misses the end of a segment* that wraps around the sequence space and
  starts inside a window that does not (`TrimIdealExactly`, `EndMissedWitness`).
- *An out-of-order interval of 65536 bytes or more is trimmed by its low 16 bits*
  and may be dropped (`CaughtUpLosesExactly`, `LongIntervalDropped`).
- *The second part of a wrapping copy into the ring is read from the wrong offset*
  of the caller's buffer (`CopyFaithfulExactly`). `TryEnqueue` keeps that
  behaviour: what it appends is `Incoming`, which `IncomingFaithfulExactly` compares
  with the caller's bytes.
- *A table entry that is moved keeps its old displacement*, so a later move can
  carry it out of reach (`AllocFindableExactly`, `RunKeeps`,
  `StaleDisplacementLosesFlow`).
- *The scan for the emptiest core starts at 255* although counts are wider
  (`CoreMinExactly`, `DownBalanced`, `UnbalancedAfterScaleDown`).
- *A freed block is inserted one place too early* in the free list. As long as the list
  is in address order, a block is merged exactly if it adjoins the first free block from
  below, and the list stays in order exactly if the block lies in front of all others
  (`FreeExactly`, `FreedButNotMerged`); over runs, `RunInOrderExactly`. Once out of order,
  a block behind others may be merged (`MergedBehind`), and so it may beside a free block
  of length 0 (`EmptyBlockBehind`).
- *A trace event of 65536 bytes or more is recorded by its low 16 bits of length*
  (`RecordedExactly`).
- *Setting up a flow does not reset the length of the out-of-order interval*
  (tas_nic/slow/nicif.c:205-231); a left-over interval that the flow runs into is
  delivered as data (`StaleIntervalHarmlessExactly`, `StaleIntervalIsDelivered`). For
  interval and window that together fit 16 bits this means that it meets the positions
  strictly between the first byte and the end of the window, and that the stream is long
  enough (`ShortStaleIntervalHarmlessExactly`); longer ones can do harm in more places.
- *TIMELY wraps 32 bits*: the measured rate from 536871 acknowledged bytes on, the
  doubling in slow start from 2^31 on, where it halves the rate, the average and the
  additive steps (`MeasuredExactly`, `TunedExactly`, `MeasuredTooLow`,
  `DoublingHalves`).
- *The window is at least one segment exactly if the send buffer holds one*
  (`SegmentKeptExactly`).

## Model

| member | source | states |
|---|---|---|
| `WrapTime.RelTimeLeadsToStamp` | tas_nic/fast/qman.c:493-525 | the signed distance of two stamps is in range and leads from one stamp to the other |
| `WrapTime.RelTimeExact` | lib/utils/timeout.c:249-281 | for any two times, the distance of their stamps is their true distance if and only if it fits half the clock, with the end points on the side the code puts them |
| `Scheduler.ActivateKeeps` | tas_nic/fast/qman.c:302-363 | activating an unlisted queue restores the full invariant (each list without repetition, disjoint, timed list sorted and due within half the clock, every queue with bytes listed) and lists nothing else |
| `Scheduler.ApplySetKeeps` | tas_nic/fast/qman.c:210-238 | setting rate, bytes or chunk keeps the invariant |
| `Scheduler.SetExactly` | tas_nic/fast/qman.c:210-238 | after a change, rate, chunk and bytes of the queue are the requested ones where asked for (an addition modulo 2^32) and the old ones elsewhere; all other queues and the clocks are unchanged |
| `Scheduler.SetLists` | tas_nic/fast/qman.c:210-238 | a change lists the queue exactly if it brings bytes and the queue is on no list: at the end of the FIFO without a limit, else on the timed list, due between now and one chunk from now; otherwise lists and due time stay |
| `Scheduler.PollKeeps` | tas_nic/fast/qman.c:165-182 | a poll keeps the invariant, takes over the wall clock and never lets virtual time run faster than it |
| `Scheduler.PlacedInPastExactly` | tas_nic/fast/qman.c:315-326 | when exactly activation puts a queue before the present |
| `Scheduler.FullChunkPacedExactly` | tas_nic/fast/qman.c:315-326 | a queue that is due a full chunk later keeps that due time exactly if the cost fits half the clock |
| `Scheduler.MssPaceableExactly` | tas_nic/fast/fast_flows.c:189 | for chunks of one TCP segment this means: no limit, or a rate of at least 6 |
| `Scheduler.SlowFlowPlacedInPast` | tas_nic/fast/qman.c:295-299 | a concrete flow with rate 5 that is placed in the past |
| `SchedulerRuns.RunKeeps` | tas_nic/fast/qman.c:165-238 | over every run of sets and polls the invariant holds and virtual time advances no more than the wall clock |
| `SchedulerRuns.Pacing` | tas_nic/fast/qman.c:366-467 | in every run, two shots of a rate-limited queue are at least the cost of the first apart in virtual time, whatever else is scheduled |
| `SchedulerRuns.PacedBytes` | tas_nic/fast/qman.c:295-299 | a paced log sends no more bytes than its rate allows, up to one unit of rounding per shot |
| `SchedulerRuns.RateLimit` | tas_nic/fast/qman.c:366-467 | over every run, a limited queue sends at most rate times elapsed wall time, plus one chunk and the rounding |
| `SchedulerRuns.Conservation` | tas_nic/fast/qman.c:210-238 | bytes sent plus bytes left plus 2^32 for each counter overflow equal bytes at the start plus bytes added, for every queue and every run |
| `SchedulerRuns.FifoTurn` | tas_nic/fast/qman.c:265-290 | one turn of the FIFO serves its head only and puts it back at the end exactly if bytes remain |
| `SchedulerRuns.RoundRobin` | tas_nic/fast/qman.c:265-290 | one poll of the FIFO for at most one round serves its waiting queues in order, each once, and leaves the rest in order with those that still have bytes behind them |
| `SchedulerFairness.FifoProgress` | tas_nic/fast/qman.c:265-290 | any poll of the FIFO serves a queue with bytes or moves it up by at least the shots asked for |
| `SchedulerFairness.PollProgress` | tas_nic/fast/qman.c:165-182 | a poll serves such a queue or does not move it back, and moves it up by the shots asked for if it takes the FIFO first, whatever the rate-limited queues take |
| `SchedulerFairness.FifoFairness` | tas_nic/fast/qman.c:165-290 | over every run of sets and polls, a queue at position p of the FIFO whose bytes are not taken away is served before the polls that take the FIFO first have offered more than p shots |
| `SchedulerService.PollCatchesUp` | tas_nic/fast/qman.c:366-428 | a poll that returns fewer shots than asked for takes virtual time as far as real time has come and leaves no queue on the timed list due by then, but for those the FIFO put there after serving them in that poll |
| `SchedulerService.PollServes` | tas_nic/fast/qman.c:366-467 | a poll leaves a waiting queue as it is or serves it first exactly at its due time with all it has up to one chunk; with shots left over it serves every queue due by then |
| `SchedulerService.PollTakesChunk` | tas_nic/fast/qman.c:439-467 | on either list, a queue served gives all it has up to one chunk at first, and one not served keeps what it has |
| `SchedulerService.ServedOnTime` | tas_nic/fast/qman.c:165-238 | over every run that leaves it bytes, a waiting queue goes on waiting for the same time or has been served, first exactly at that time |
| `SchedulerService.ServedOnceDue` | tas_nic/fast/qman.c:165-238 | over every run, once a poll with shots left over brings virtual time to its due time, the queue has been served |
| `SchedulerService.ClocksInStep` | tas_nic/fast/qman.c:366-428 | over every run whose polls have shots left over, virtual time advances exactly as real time does |
| `SchedulerService.ServedInRealTime` | tas_nic/fast/qman.c:165-238 | in such a run a queue is served by the first poll after the real time it has to wait in virtual time |
| `SchedulerService.FullRate` | tas_nic/fast/qman.c:366-467 | over every run in which a limited queue always has bytes, its shots are exactly full chunks, the first at its due time and each as much later as a chunk takes at its rate, whatever else is scheduled |
| `SchedulerService.GuaranteedRate` | tas_nic/fast/qman.c:366-467 | if its polls have shots left over, such a queue sends at least its rate times the real time since it was first due |
| `SchedulerService.SetStartsPacing` | tas_nic/fast/qman.c:210-238 | a queue on no list that is given a rate, a chunk and bytes waits on the timed list with exactly these |
| `SchedulerService.FreshQueuePaced` | tas_nic/fast/qman.c:101-123 | in particular in a new manager |
| `QmanState.LessEqExact` | tas_nic/fast/qman.c:493-525 | comparing stamps relative to virtual time orders the times they stand for |
| `QmanState.SkiplistInserted` | tas_nic/fast/qman.c:302-363 | linking a queue in on its levels represents the sorted list with the queue inserted at its rank |
| `QmanState.SkiplistPopped` | tas_nic/fast/qman.c:366-428 | unlinking the first queue from every level it is on represents the tail of the list |
| `QmanState.SkiplistShape` | tas_nic/fast/qman.c:302-428 | in every represented state each level is a chain sorted by relative stamps, nested in the level below, with no stamp behind virtual time, and level 0 holds exactly the flagged queues |
| `Qman.QueueManager.constructor` | tas_nic/fast/qman.c:101-123 | a new manager represents empty lists |
| `Qman.QueueManager.ActivateNolimit` | tas_nic/fast/qman.c:244-263 | appending through the tail index is appending to the FIFO |
| `Qman.QueueManager.FindPred` | tas_nic/fast/qman.c:331-338 | the walk along one level ends at the last entry not after the stamp |
| `Qman.QueueManager.FindPreds` | tas_nic/fast/qman.c:328-340 | the descent finds the predecessor on every level |
| `Qman.QueueManager.LinkAll` | tas_nic/fast/qman.c:346-360 | linking behind the predecessors up to any random level inserts at the rank on all these levels and touches no other link |
| `Qman.QueueManager.ClampTs` | tas_nic/fast/qman.c:315-326 | the wrapped due time is clamped as in the specification |
| `Qman.QueueManager.ActivateSkiplist` | tas_nic/fast/qman.c:302-363 | refines activation of a limited queue |
| `Qman.QueueManager.ActivateQueue` | tas_nic/fast/qman.c:469-477 | refines activation |
| `Qman.QueueManager.Set` | tas_nic/fast/qman.c:184-238 | refines setting; in the fields, rate, chunk and bytes of the queue are as requested or as before, and rate, chunk, bytes, stamp and flags of every other queue are as before; an identifier out of range is refused and changes nothing |
| `Qman.QueueManager.FireQueue` | tas_nic/fast/qman.c:439-467 | refines firing and returns the granted bytes |
| `Qman.GrantsAre` | tas_nic/fast/qman.c:439-467 | what a poll returns names the queues served, in order, each with its bytes |
| `Qman.QueueManager.TakeNolimit` | tas_nic/fast/qman.c:274-281 | takes the head of the FIFO |
| `Qman.QueueManager.PollNolimit` | tas_nic/fast/qman.c:265-290 | refines polling the FIFO, grants included |
| `Qman.QueueManager.PopLevels` | tas_nic/fast/qman.c:396-399 | advances the head of every level that starts with the first queue, giving the levels of the rest |
| `Qman.QueueManager.SettleClock` | tas_nic/fast/qman.c:414-424 | virtual time ends at the poll's limit, or at the first due time if queues are left over |
| `Qman.QueueManager.PollSkiplist` | tas_nic/fast/qman.c:366-428 | refines polling the timed list, grants included |
| `Qman.QueueManager.PollBoth` | tas_nic/fast/qman.c:165-182 | refines a poll that alternates which list goes first |
| `RdmaQueue.FirstInFirstOut` | include/rdma_queue.h:104-133 | over every sequence of operations, bytes waiting at the start followed by bytes accepted equal bytes handed out followed by bytes waiting |
| `RdmaQueue.EverythingComesOut` | lib/utils/rdma_queue.c:13-81 | an enqueue is accepted if and only if it fits with the padding, and then all bytes come out once flushed; if it is refused, all that is queued can be read at once |
| `RdmaQueue.NBytesExact` | include/rdma_queue.h:47-58 | the distance computed from two offsets is the number of bytes between them exactly if the ring is not full, or the first offset has never moved |
| `RdmaQueue.CopyFaithfulExactly` | lib/utils/rdma_queue.c:24-39 | a copy of two parts lands what the caller passed, for all data, exactly if it does not wrap or wraps in the middle |
| `RdmaQueue.Queue.IncomingFaithfulExactly` | lib/utils/rdma_queue.c:24-39 | what an enqueue appends equals the caller's bytes, for all data, if and only if they do not wrap around the end of the ring or exactly half of them do |
| `RdmaQueue.TooSmallExactly` | lib/utils/rdma_queue.c:83-105 | the free space of a new ring is negative exactly below eight bytes |
| `RdmaQueue.Queue.constructor` | lib/utils/rdma_queue.c:83-105 | a new ring is empty, and usable exactly from eight bytes on |
| `RdmaQueue.Queue.NBytesToFlush` | include/rdma_queue.h:66-69 | is the number of accepted bytes not yet visible |
| `RdmaQueue.Queue.NBytesEnqueued` | include/rdma_queue.h:77-82 | is the number of visible bytes not yet read |
| `RdmaQueue.Queue.NBytesEmpty` | include/rdma_queue.h:90-102 | is the room left, eight bytes less than the ring |
| `RdmaQueue.Queue.NFlush` | lib/utils/rdma_queue.c:138-151 | makes at most so many bytes visible |
| `RdmaQueue.Queue.FlushAll` | lib/utils/rdma_queue.c:214-217 | makes all bytes visible |
| `RdmaQueue.Queue.TryEnqueue` | lib/utils/rdma_queue.c:13-43 | appends all of the data (or, without data, the bytes already in the ring) if there is room, else flushes and refuses |
| `RdmaQueue.Queue.TryRead` | lib/utils/rdma_queue.c:45-81 | returns the next bytes of the stream if so many are visible, and consumes them only when dequeuing |
| `Trim.IdealCutIsIntersection` | tas_nic/fast/tcp_common.h:123-169 | the reference cut keeps exactly the bytes that lie in the window |
| `Trim.TrimIdealExactly` | tas_nic/fast/tcp_common.h:123-169 | trimming in wrapped sequence numbers gives the reference cut if and only if the missed case does not occur |
| `Trim.EndMissedWitness` | tas_nic/fast/tcp_common.h:150-158 | a segment whose end is not trimmed |
| `Trim.InsideNotMissed` | tas_nic/fast/tcp_common.h:123-169 | a segment that ends within the window is never the missed case |
| `Reassembly.OnSegmentKeeps` | tas_nic/fast/fast_flows.c:382-543 | every segment of the stream keeps the receive invariant; the next byte never goes back and nothing changes after the FIN |
| `Reassembly.NothingInvented` | tas_nic/fast/fast_flows.c:382-543 | a byte held or delivered after a segment was there before or is in the segment |
| `Reassembly.NothingLost` | tas_nic/fast/fast_flows.c:382-543 | one segment loses nothing held or delivered while the interval is shorter than 65536 |
| `Reassembly.CaughtUpLosesExactly` | tas_nic/fast/fast_flows.c:492-527 | catching up loses bytes exactly if the next byte falls between the truncated and the true end of the interval |
| `Reassembly.LongIntervalDropped` | tas_nic/fast/fast_flows.c:492-527 | a state and a segment that drop an interval of 65537 bytes |
| `Reassembly.Progress` | tas_nic/fast/fast_flows.c:476-529 | a segment that covers the next byte is delivered to its end or to the end of the window |
| `Reassembly.RunProgress` | tas_nic/fast/fast_flows.c:382-543 | retransmission works: over every run, whatever else arrives in between, all that a chain of segments covers from the next byte on is delivered, as far as the window reached at the start |
| `Reassembly.HeldExactly` | tas_nic/fast/fast_flows.c:395-430 | a segment beyond the next byte delivers nothing, and a byte of it is held afterwards if and only if it was already there, or lies in the window and the segment starts an interval or adjoins the held one on either side |
| `Reassembly.RunDeliversHeld` | tas_nic/fast/fast_flows.c:382-543 | over every run with a window below 65536, held bytes are delivered once a chain of segments has filled the gap in front of them |
| `Reassembly.EarlySegmentDelivered` | tas_nic/fast/fast_flows.c:395-527 | so a segment that arrives early need not be sent again, whatever else arrives in between |
| `Reassembly.EitherOrder` | tas_nic/fast/fast_flows.c:395-527 | two adjoining segments deliver the same bytes in either order |
| `Reassembly.FinTakenExactly` | tas_nic/fast/fast_flows.c:531-543 | the FIN is taken if and only if a segment carries it, starts no later than the next byte and ends in the window |
| `Reassembly.FinOnlyAtEnd` | tas_nic/fast/fast_flows.c:531-543 | the FIN is taken only when every byte of the stream has been delivered |
| `Reassembly.RunKeeps` | tas_nic/fast/fast_flows.c:382-543 | over every run what is held stays strictly ahead of the next byte, inside the window and inside the stream, and never makes the enqueue of held bytes fail |
| `Reassembly.RunInventsNothing` | tas_nic/fast/fast_flows.c:382-543 | over every run of segments and reads, each byte present was carried by some segment |
| `Reassembly.RunLosesNothing` | tas_nic/fast/fast_flows.c:382-543 | with a window below 65536, over every run nothing held or delivered is ever lost |
| `StaleInterval.StaleIntervalHarmlessExactly` | tas_nic/slow/nicif.c:205-231 | a flow set up in a slot with a left-over interval, wherever that lies, before the first byte or behind the stream, and however long it is, delivers only bytes that arrive, over every run, if and only if it cannot run into the interval, a condition on the place and length of the interval, the window and the length of the stream |
| `StaleInterval.ShortStaleIntervalHarmlessExactly` | tas_nic/slow/nicif.c:205-231 | where interval and window together fit 16 bits: if and only if the interval has no position strictly between the first byte and the end of the window, or the stream ends before it |
| `StaleInterval.NotRunInto` | tas_nic/fast/fast_flows.c:492-527 | from such an interval every run delivers only what segments brought: the first delivery drops it or cuts it to what was added to it since |
| `StaleInterval.RunIntoFromAbove` | tas_nic/fast/fast_flows.c:492-527 | an interval that begins no later than the first byte: bytes held behind it bring its length, through 16 bits, past that byte, and it is delivered |
| `StaleInterval.RunIntoAtEnd` | tas_nic/fast/fast_flows.c:492-527 | an interval that begins at the end of the window is delivered once bytes held in front of it make its length a multiple of 65536 |
| `StaleInterval.StaleIntervalIsDelivered` | tas_nic/slow/nicif.c:205-231 | with an interval left over in the slot, ten received bytes deliver fifteen |
| `FastFlow.Flow.constructor` | tas_nic/slow/nicif.c:205-231 | a new flow expects the first byte of the stream and keeps the interval its slot was left with, at the signed distance of its sequence number from that byte; with an empty one it is in the invariant |
| `FastFlow.Flow.RxWrite` | tas_nic/fast/fast_flows.c:803-815 | writes to the cells of a stream position, wrapping, and to no other cell |
| `FastFlow.Flow.RxSeqWrite` | tas_nic/fast/fast_flows.c:818-826 | finds those cells from a wrapped sequence number |
| `FastFlow.Flow.Hold` | tas_nic/fast/fast_flows.c:396-430 | holds a segment beyond the next byte as in the specification |
| `FastFlow.Flow.DeliverHeld` | tas_nic/fast/fast_flows.c:509-524 | delivers the held interval when it starts at the next byte |
| `FastFlow.Flow.CatchUp` | tas_nic/fast/fast_flows.c:492-527 | refines catching up and counts the bytes delivered |
| `FastFlow.Flow.Deliver` | tas_nic/fast/fast_flows.c:476-529 | refines delivery of in-order bytes |
| `FastFlow.Flow.TakeFin` | tas_nic/fast/fast_flows.c:531-543 | refines taking the FIN |
| `FastFlow.Flow.Receive` | tas_nic/fast/fast_flows.c:382-584 | refines the reaction to a segment: ring and counters hold a prefix of the stream, the bump is the progress made, and an acknowledgement is due exactly in the stated cases |
| `FastFlow.Flow.AppRead` | lib/utils/rdma_queue.c:45-81 | what the application reads are the next bytes of the stream, and it goes on behind them |
| `FlowTable.MoveFindableExactly` | tas_nic/slow/nicif.c:655-670 | moving an entry keeps all flows findable if and only if the new slot is within the neighbourhood of its true home |
| `FlowTable.SettleFindableExactly` | tas_nic/slow/nicif.c:627-671 | from any table whose flows are findable, displacements right or wrong, carrying a free slot toward home keeps all of them findable if and only if every move on the way is in room |
| `FlowTable.AllocFindableExactly` | tas_nic/slow/nicif.c:592-671 | the same for a whole allocation |
| `FlowTable.AllocHolds` | tas_nic/slow/nicif.c:592-671 | an allocation keeps every flow in the table, findable or not |
| `FlowTable.SettleKeeps` | tas_nic/slow/nicif.c:627-671 | where stored displacements are right every move is in room, and they stay right if recomputed |
| `FlowTable.AllocKeeps` | tas_nic/slow/nicif.c:592-671 | from right displacements every allocation is in room, and displacements stay right if and only if they are recomputed or nothing moves |
| `FlowAlloc.AllocNearest` | tas_nic/slow/nicif.c:601-608 | if one of the four slots from home is free, the nearest is taken and the table is unchanged |
| `FlowAlloc.SearchExactly` | tas_nic/slow/nicif.c:632-652 | the entry moved into a hole is the one from farthest below whose displacement lets it go there, and there is none only if no displacement does |
| `FlowAlloc.AllocRefusedExactly` | tas_nic/slow/nicif.c:592-676 | an allocation is refused if and only if all twenty slots from home are taken, or the nearest free one, filled again and again from as far below as an entry may come, gets to a slot into which no entry may go |
| `FlowAlloc.AddedExactly` | tas_nic/slow/nicif.c:185-238 | a flow is registered if and only if it is not refused a slot: then it is in the neighbourhood of its home with its displacement, beside exactly the flows that were there |
| `FlowAlloc.HomeFree` | tas_nic/slow/nicif.c:601-608 | with its home slot free, a flow is registered there |
| `FlowAlloc.ConnectExactly` | tas_nic/slow/nicif.c:185-238 | a connection is set up under the first free id if and only if there is one and its flow is not refused; otherwise no id is used up and no flow changes |
| `FlowTable.LookupFinds` | tas_nic/fast/fast_flows.c:1073-1104 | looking through the neighbourhood finds a flow if and only if the table holds it |
| `FlowTable.AddKeeps` | tas_nic/slow/nicif.c:185-238 | adding a flow with a new id keeps table and registered flows in step, all findable, if and only if every move is in room |
| `FlowTable.ClearKeeps` | tas_nic/slow/nicif.c:678-706 | clearing removes exactly that flow |
| `FlowTable.RunKeeps` | tas_nic/slow/nicif.c:592-706 | over every run of the code as it is, table and registered flows are in step with every flow findable at every point, if and only if every addition is in room |
| `FlowTable.RecomputedInRoom` | tas_nic/slow/nicif.c:655-670 | were displacements recomputed on a move, every run would be in room |
| `FlowIds.FlowIdPool.constructor` | tas_nic/slow/nicif.c:708-724 | all ids are free, in order |
| `FlowIds.FlowIdPool.Alloc` | tas_nic/slow/nicif.c:726-736 | takes the first free id, or fails if there is none |
| `FlowIds.FlowIdPool.Free` | tas_nic/slow/nicif.c:738-743 | puts an id at the front of the free list |
| `FlowIds.IdsAreFresh` | tas_nic/slow/nicif.c:185-270 | over every run of connections, each flow added has an id of its own |
| `FlowIds.ConnectionsInStep` | tas_nic/slow/nicif.c:185-270 | over every run of connections the table holds exactly the flows in use, all findable, if and only if every addition is in room |
| `FlowTable.StaleDisplacementLosesFlow` | tas_nic/slow/nicif.c:655-670 | a table and two additions after which a held flow is not found by the code as it is |
| `FlowTable.FlowHashTable.ScanFree` | tas_nic/slow/nicif.c:601-619 | finds the first free slot of a range, around the end of the table |
| `FlowTable.FlowHashTable.ScanMovable` | tas_nic/slow/nicif.c:632-652 | finds the first entry that can move up to the hole |
| `FlowTable.FlowHashTable.MoveUp` | tas_nic/slow/nicif.c:655-670 | copies, publishes and clears, in this order, as one move |
| `FlowTable.FlowHashTable.SettleHole` | tas_nic/slow/nicif.c:627-671 | refines carrying a free slot toward home |
| `FlowTable.FlowHashTable.FlowSlotAlloc` | tas_nic/slow/nicif.c:592-676 | refines allocation, with slot and displacement or the error |
| `FlowTable.FlowHashTable.FlowSlotClear` | tas_nic/slow/nicif.c:678-706 | refines clearing, with its error |
| `LookupProtocol.DoKeepsWorld` | tas_nic/slow/nicif.c:205-241 | every single write of adding, moving or removing keeps the invariant that entries a reader can trust have their tuple and hash in place |
| `LookupProtocol.NeverMissed` | tas_nic/fast/fast_flows.c:1073-1104 | however writer and reader interleave, a lookup of a flow that stays registered does not end with "not found" |
| `LookupProtocol.LookupReturnsFlow` | tas_nic/fast/fast_flows.c:1073-1104 | if no other flow in use has the tuple, a lookup that ends returns that flow; freed flow states, which keep their tuples, do no harm |
| `LookupProtocol.LookupEnds` | tas_nic/fast/fast_flows.c:1073-1104 | in every run a lookup has ended after twelve reads, three for each of four slots, whatever the writer does |
| `LookupProtocol.SettleMovesAreSafe` | tas_nic/slow/nicif.c:655-670 | a move that allocation makes is allowed by the protocol if and only if it is in room, and its three writes amount to one move |
| `LookupProtocol.AddAccessesExactly` | tas_nic/slow/nicif.c:185-238 | all writes of registering a flow, those of every move, then the flow state, the hash word and the id word, are allowed by the protocol if and only if every move is in room, and they lead to the table that adding the flow at once leads to |
| `LookupProtocol.LookupDuringAdd` | tas_nic/fast/fast_flows.c:1073-1104 | while a flow is being registered with every move in room, up to any of its writes and however reads fall between them, a lookup does not miss a registered flow |
| `TimerSpec.MoveDueKeeps` | lib/utils/timeout.c:207-232 | moving expired timers keeps the invariant and leaves only timers that have not expired |
| `TimerSpec.DueExactly` | lib/utils/timeout.c:207-232 | after a move the due timers are exactly the armed ones that have expired |
| `TimerSpec.ArmKeeps` | lib/utils/timeout.c:116-153 | arming keeps expiry order, ties in arming order |
| `TimerSpec.DisarmKeeps` | lib/utils/timeout.c:155-188 | disarming keeps the invariant |
| `TimerSpec.DisarmRemoves` | lib/utils/timeout.c:155-188 | disarming removes exactly that timer from the list it is on |
| `TimerSpec.FiringOrder` | lib/utils/timeout.c:84-108 | over every run, timers fire in order of expiry, ties in arming order, never early, and nothing still armed should have fired before |
| `TimerSpec.NoTimerLost` | lib/utils/timeout.c:84-188 | over every run, timers armed at the start or later are exactly those fired, disarmed or still armed |
| `Timeouts.TimeoutManager.constructor` | lib/utils/timeout.c:62-70 | a new manager has no timers |
| `Timeouts.TimeoutManager.MoveDueTimeouts` | lib/utils/timeout.c:207-232 | refines moving expired timers, on wrapped stamps and linked lists |
| `Timeouts.TimeoutManager.FindSlot` | lib/utils/timeout.c:134-136 | the backward walk stops at the last timer that expires no later |
| `Timeouts.TimeoutManager.InsertAfter` | lib/utils/timeout.c:138-152 | links a timer in behind a given one, or first |
| `Timeouts.TimeoutManager.ArmTs` | lib/utils/timeout.c:116-153 | refines arming |
| `Timeouts.TimeoutManager.Unlink` | lib/utils/timeout.c:155-188 | takes a timer out of whichever list it is on, at any place |
| `Timeouts.TimeoutManager.DisarmTimer` | lib/utils/timeout.c:155-188 | refines disarming |
| `Timeouts.TimeoutManager.FireNext` | lib/utils/timeout.c:95-103 | takes the first due timer |
| `Timeouts.TimeoutManager.PollTs` | lib/utils/timeout.c:84-108 | fires the due timers in order, at most 64 |
| `Timeouts.TimeoutManager.NextTimeout` | lib/utils/timeout.c:190-205 | is the time to the earliest expiry, 0 if one is due and the largest 32-bit number if there is none |
| `Trace.HeadFields` | include/tas_trace.h:44-49 | the fields of an entry's head decode to what was encoded |
| `Trace.PrevReturns` | tools/tracetool.c:139-195 | reading backward from the end of an entry returns that entry, wherever it wraps, or is refused exactly if its type is zero or its data do not fit |
| `Trace.ReadsBack` | tools/tracetool.c:139-195 | reading backward over entries the ring still holds returns them newest first, up to the first that is refused |
| `Trace.WholeTrace` | tools/tracetool.c:85-88 | if nothing has been overwritten, all entries are returned and then the reader stops |
| `Trace.RecordedExactly` | tas_nic/fast/trace.c:89-97 | an event keeps its data exactly if they are shorter than 65536 bytes |
| `Trace.Ring.CopyTo` | tas_nic/fast/trace.c:134-151 | writes to the cells of a stream position and to no other |
| `Trace.Ring.CopyFrom` | tools/tracetool.c:198-216 | reads the cells of a stream position |
| `Trace.Ring.WriteEntry` | tas_nic/fast/trace.c:116-121 | the four copies leave the whole entry in place, and stay within the stated extent |
| `Trace.Writer.TraceEvent2` | tas_nic/fast/trace.c:89-132 | appends one event to the log, with its consecutive number, unless the clock fails |
| `Trace.Reader.TracePrev` | tools/tracetool.c:139-195 | decodes the entry before the position and moves to its start, or does not move |
| `Trace.Reader.Dump` | tools/tracetool.c:83-88 | returns the newest events exactly, in reverse order, as long as the ring holds them |
| `RssBalance.CoreMinExactly` | tas_nic/fast/network.c:333-345 | the scan finds an emptiest core if and only if one has fewer than 255 entries or core 0 is one |
| `RssBalance.UpBalanced` | tas_nic/fast/network.c:361-390 | scaling up from balanced cores keeps the old ones balanced, gives each new one exactly its share and no old one less; all are balanced if and only if the remainder is at most the number of old cores |
| `RssBalance.DownBalanced` | tas_nic/fast/network.c:400-425 | scaling down from balanced cores keeps the rest balanced if and only if the stated condition holds |
| `RssBalance.StepBalanced` | tas_nic/fast/fastemu.c:565-589 | the same for one scaling step in either direction |
| `RssBalance.RunBalancedExactly` | tas_nic/fast/fastemu.c:565-589 | over every run of scaling steps, cores stay balanced throughout if and only if every step is fair, in numbers known before it |
| `RssBalance.RunBalanced` | tas_nic/tas_nic.c:305-328 | over every run of the load monitor's steps, cores stay within one entry for every table size, as long as size is at most 255 n + 1 wherever n > 1 cores are left |
| `RssBalance.SmallTablesBalanced` | tas_nic/tas_nic.c:305-328 | in particular for every table of at most 511 entries |
| `RssBalance.UnbalancedAfterScaleDown` | tas_nic/fast/network.c:333-345 | 512 entries on three balanced cores are unbalanced on two |
| `Rss.RedirectionTable.constructor` | tas_nic/fast/network.c:435-469 | the initial table agrees with steering and counts and is balanced |
| `Rss.RedirectionTable.CoreMinScan` | tas_nic/fast/network.c:333-345 | computes the first core below the start value with the fewest entries, else core 0 |
| `Rss.RedirectionTable.CoreMaxScan` | tas_nic/fast/network.c:347-359 | computes the last of the fullest cores |
| `Rss.RedirectionTable.FindEntry` | tas_nic/fast/network.c:376-385 | the search around the table ends at an entry of the wanted core if there is one |
| `Rss.RedirectionTable.GiveShare` | tas_nic/fast/network.c:373-389 | always finds an entry to move, moves only entries of old cores and marks exactly those |
| `Rss.RedirectionTable.ScaleUp` | tas_nic/fast/network.c:361-398 | tables and counts agree, all entries name active cores, only entries that moved to new cores are marked, and the device has the same table |
| `Rss.RedirectionTable.ScaleDown` | tas_nic/fast/network.c:400-433 | the same, and only entries of cores that go away move |
| `Rss.RedirectionTable.PollScale` | tas_nic/fast/fastemu.c:565-589 | a pending request is carried out and the counts are those of one scaling step |
| `MemSpec.AllocExactly` | tas_nic/slow/packetmem.c:61-111 | an allocation takes the front of the first free block that is long enough, and leaves its rest and all other free blocks free |
| `MemSpec.AllocRefusedExactly` | tas_nic/slow/packetmem.c:61-75 | it is refused, with nothing changed, if and only if no free block is long enough |
| `MemSpec.AllocTiles` | tas_nic/slow/packetmem.c:61-111 | allocation keeps every address of the memory in exactly one block, free or handed out, and none outside |
| `MemSpec.FreeTiles` | tas_nic/slow/packetmem.c:113-166 | so does freeing, with either, both or no merge |
| `MemSpec.RunTiles` | tas_nic/slow/packetmem.c:61-166 | so does every run of allocations and frees |
| `MemSpec.LiveBlocksApart` | tas_nic/slow/packetmem.c:44-166 | from the start, over every run, blocks handed out overlap neither each other nor free ones and lie in the memory |
| `MemSpec.FreeExactly` | tas_nic/slow/packetmem.c:113-166 | freeing into a list in address order: the block is merged if and only if it adjoins the first free block from below, the list stays in order if and only if the block lies in front of all, and the resulting list in each case |
| `MemSpec.RunInOrderExactly` | tas_nic/slow/packetmem.c:61-166 | from the start, over every run that frees no block of length 0, the free list is in address order at every point if and only if every block that is freed lies in front of all blocks free by then |
| `MemSpec.MergedBehind` | tas_nic/slow/packetmem.c:113-166 | with the list out of order, a block freed behind others is merged |
| `MemSpec.EmptyBlockBehind` | tas_nic/slow/packetmem.c:113-166 | beside a free block of length 0 a block freed behind others is merged and the list stays in order |
| `MemSpec.FreedButNotMerged` | tas_nic/slow/packetmem.c:113-166 | a run after which all memory is free but cannot be allocated in one piece |
| `PacketMem.Allocator.constructor` | tas_nic/slow/packetmem.c:44-59 | all memory is one free block |
| `PacketMem.Allocator.FindFit` | tas_nic/slow/packetmem.c:66-72 | finds the first free handle that is long enough, and the one before it |
| `PacketMem.Allocator.FindPlace` | tas_nic/slow/packetmem.c:117-123 | finds the handle behind which a freed one goes |
| `PacketMem.Allocator.PacketmemAlloc` | tas_nic/slow/packetmem.c:61-111 | refines allocation; it succeeds exactly if some free block is long enough, unless a split finds no new handle |
| `PacketMem.Allocator.LinkIn` | tas_nic/slow/packetmem.c:125-132 | links a handle in at a place of the free list |
| `PacketMem.Allocator.MergeItems` | tas_nic/slow/packetmem.c:141-166 | merges with the predecessor, the successor, both or neither, as blocks adjoin |
| `PacketMem.Allocator.PacketmemFree` | tas_nic/slow/packetmem.c:113-136 | refines freeing |
| `EpollSpec.AddKeeps` | lib/sockets/epoll.c:136-177 | adding keeps the partition of bindings into active and inactive ones, with every binding that has events to report active |
| `EpollSpec.ModKeeps` | lib/sockets/epoll.c:178-191 | so does changing a mask |
| `EpollSpec.DelKeeps` | lib/sockets/epoll.c:192-206 | so does removing |
| `EpollSpec.RaiseKeeps` | lib/sockets/epoll.c:379-400 | so do new events, though only bits that were not pending are looked at |
| `EpollSpec.LowerKeeps` | lib/sockets/epoll.c:402-406 | so does clearing events, though no binding is moved |
| `EpollSpec.PollKeeps` | lib/sockets/epoll.c:224-263 | so does a poll, which changes no mask and no pending event |
| `EpollEvents.CallAccount` | lib/sockets/epoll.c:119-406 | what every call does to the events asked for and pending, of its binding and of all others, and every binding with events to report is active afterwards |
| `EpollEvents.RunAccount` | lib/sockets/epoll.c:119-406 | over every run nothing else changes what is asked for and what is pending |
| `EpollEvents.RaisedIsReported` | lib/sockets/epoll.c:224-400 | over every run an event that is raised and asked for, and then neither cleared nor unasked, is reported before the polls have offered more room than there are active bindings |
| `EpollSpec.ReportsOnce` | lib/sockets/epoll.c:238-260 | a poll reports bindings that were active, none twice, each with exactly the pending events asked for |
| `EpollSpec.PollProgress` | lib/sockets/epoll.c:238-260 | a ready binding is reported, or moves up in the queue by at least the room of the poll |
| `EpollSpec.Fairness` | lib/sockets/epoll.c:224-263 | over every run, a binding at position p that stays ready is reported before the polls have offered room for more than p events |
| `Epolls.EpollObject.constructor` | lib/sockets/epoll.c:60-82 | a new epoll has no bindings |
| `Epolls.EpollObject.RemoveInactive` | lib/sockets/epoll.c:445-462 | takes a node out of the inactive list at any place |
| `Epolls.EpollObject.AddInactive` | lib/sockets/epoll.c:464-476 | puts a node at the front of the inactive list |
| `Epolls.EpollObject.RemoveActive` | lib/sockets/epoll.c:479-500 | takes a node out of the active queue at any place and counts |
| `Epolls.EpollObject.AddActive` | lib/sockets/epoll.c:502-519 | puts a node at the end of the active queue and counts |
| `Epolls.EpollObject.EsActivate` | lib/sockets/epoll.c:522-535 | refines activation |
| `Epolls.EpollObject.EsDeactivate` | lib/sockets/epoll.c:537-550 | moves a binding to the inactive list |
| `Epolls.EpollObject.EsActivePushback` | lib/sockets/epoll.c:552-557 | moves a binding to the end of the queue |
| `Epolls.EpollObject.EsRemoveEp` | lib/sockets/epoll.c:560-567 | takes a binding out of whichever list it is on |
| `Epolls.EpollObject.RaiseEvents` | lib/sockets/epoll.c:379-400 | refines new events, for the binding of one epoll; they are pending in the socket |
| `Epolls.EpollObject.LowerEvents` | lib/sockets/epoll.c:402-406 | refines clearing events |
| `Epolls.EpollObject.EpollCtl` | lib/sockets/epoll.c:119-211 | refines adding, changing and removing, with each error exactly when the stated condition holds and nothing changed then |
| `Epolls.EpollObject.PollTas` | lib/sockets/epoll.c:224-263 | refines a poll |
| `Congestion.RttBounded` | tas_nic/fast/fast_flows.c:450-463 | over any samples the RTT estimate stays below 100000 |
| `CongestionSigns.RttMoves` | tas_nic/fast/fast_flows.c:450-463 | a sample moves the estimate an eighth of the way, rounded down; the first is taken as it is and one out of range is ignored |
| `Congestion.EwmaBetween` | tas_nic/slow/cc.c:305-310 | the ECN average lies between the old average and the new fraction |
| `Congestion.EwmaFits` | tas_nic/slow/cc.c:305-310 | its products and their sum fit 64 bits |
| `Congestion.ReducedHalf` | tas_nic/slow/cc.c:313-315 | an ECN cut leaves at least half the window and adds nothing |
| `Congestion.UpdatedKeeps` | tas_nic/slow/cc.c:267-339 | whatever the statistics, one update ends between one segment and the buffer, takes at most half, adds at most the acknowledged bytes, and shrinks only on a sign of congestion or to fit the buffer |
| `CongestionSigns.LossHalves` | tas_nic/slow/cc.c:295-298 | a loss halves the window, down to one segment and within the buffer, and ends slow start |
| `CongestionSigns.LossesHalve` | tas_nic/slow/cc.c:267-339 | over every run of losses the window halves each time |
| `CongestionSigns.MarksAveraged` | tas_nic/slow/cc.c:300-311 | the average is the weighted mean of the old one and the fraction of marks, each rounded down |
| `CongestionSigns.MarksCut` | tas_nic/slow/cc.c:313-315 | marks cut the window by half the average fraction, rounded up; it gets strictly smaller as soon as that is not zero |
| `CongestionSigns.AcksGrow` | tas_nic/slow/cc.c:281-323 | without congestion the window grows by all bytes acknowledged in slow start, later by a segment per window acknowledged, rounded down |
| `Congestion.SegmentKeptExactly` | tas_nic/slow/cc.c:326-332 | the window keeps one segment if and only if the buffer holds one |
| `Congestion.RunGrows` | tas_nic/slow/cc.c:267-339 | over every run without congestion the window never shrinks, but to fit the buffer |
| `Congestion.RateWithinWindow` | tas_nic/slow/cc.c:342-360 | at the rate set, no more than a window is sent in a round trip |
| `CongestionSigns.RateFillsWindow` | tas_nic/slow/cc.c:342-360 | one more than the rate set would send more than a window in its time, which is the round trip or what the link needs |
| `Congestion.Connection.Grow` | tas_nic/slow/cc.c:283-288 | the wrap-around test adds exactly when the sum fits |
| `Congestion.Connection.Avoid` | tas_nic/slow/cc.c:299-323 | average and window in congestion avoidance as the rule has them |
| `Congestion.Connection.WindowToRate` | tas_nic/slow/cc.c:342-360 | the rate, in 64 bits |
| `Congestion.Connection.WinUpdate` | tas_nic/slow/cc.c:267-339 | the update in 32- and 64-bit words is the rule over unbounded numbers |
| `Timely.SmoothedExact` | tas_nic/slow/cc.c:527-534 | the RTT difference stays below 100000 in size, and unsigned 64-bit arithmetic computes the signed value |
| `Timely.DiffBounded` | tas_nic/slow/cc.c:527-541 | so it stays over every run of samples |
| `Timely.GradientCutFits` | tas_nic/slow/cc.c:536-580 | no product of the gradient cut leaves 63 bits, and the cut adds nothing |
| `Timely.TunedKeeps` | tas_nic/slow/cc.c:493-593 | in machine words every field stays in range over any sample, and the rate is at least half of what was in use and the configured minimum |
| `CongestionSigns.HighCutStrict` | tas_nic/slow/cc.c:552-560 | above the upper threshold the rate is cut strictly if and only if beta times the excess is at least one part in 2^32, as it is for every beta not below the round trip |
| `CongestionSigns.GradientCutStrict` | tas_nic/slow/cc.c:568-580 | a rising round trip cuts the rate strictly if and only if half of beta times the gradient is at least one part in 2^15 |
| `CongestionSigns.CappedIs` | tas_nic/slow/cc.c:521-524 | outside slow start the rate is brought down to 1.2 times the rate in use |
| `CongestionSigns.TimelyResponds` | tas_nic/slow/cc.c:493-593 | slow start doubles the rate in use, a round trip below the lower threshold adds one step, one above the upper threshold cuts it strictly for every beta not below it; when slow start ends |
| `CongestionSigns.TimelyGradient` | tas_nic/slow/cc.c:526-581 | between the thresholds a steady or falling round trip adds one step and five from the fifth time on, a rising one does not add; the difference is the weighted mean |
| `Timely.MeasuredExactly` | tas_nic/slow/cc.c:504-509 | the measured rate is right if and only if at most 536870 bytes were acknowledged |
| `Timely.TunedExactly` | tas_nic/slow/cc.c:493-593 | the update in words is the rule over unbounded numbers if and only if neither the measured rate, nor the average, nor the doubling, nor an additive step wraps |
| `Timely.MeasuredTooLow` | tas_nic/slow/cc.c:504-509 | 536871 bytes measured as a rate of 704 |
| `Timely.DoublingHalves` | tas_nic/slow/cc.c:544-545 | a rate of 2^31 that slow start halves |
| `Timely.TimelyFlow.Measure` | tas_nic/slow/cc.c:504-512 | the measured rate and its average in 32-bit words |
| `Timely.TimelyFlow.Gradients` | tas_nic/slow/cc.c:526-541 | the smoothed difference and the gradient through unsigned 64-bit words are the signed ones |
| `Timely.TimelyFlow.CutForHighRtt` | tas_nic/slow/cc.c:552-560 | the cut above the upper threshold in 64-bit words adds nothing and does not wrap |
| `Timely.TimelyFlow.CutForGradient` | tas_nic/slow/cc.c:568-580 | the gradient cut in signed 64-bit words adds nothing and does not wrap |
| `Timely.TimelyFlow.Change` | tas_nic/slow/cc.c:543-581 | the branch taken and the counter of quick increases |
| `Timely.TimelyFlow.TimelyUpdate` | tas_nic/slow/cc.c:493-593 | one whole update in machine words |

## Left out

- The send half of TCP, acknowledgements and window updates.
- Rate-based DCTCP.
- The connection state machine of the slow path, libTAS, and of its sockets interface
  all but epoll.
- A socket's own list of bindings: one epoll is modelled, in which a socket has at most
  one binding. Event masks are sets of flags. Bindings to sockets of the operating system,
  locks and waiting are left out.
- DPDK, RDMA connection management, shared-memory setup, configuration parsing.
- The paired (remote) mode of the byte ring: only local rings are modelled, where
  flushing makes bytes visible without a transfer.
- Clocks are parameters; a ghost unbounded time stands beside each wrapped stamp.
- The random level of a skiplist entry is an arbitrary choice.
- The 64-entry groups of the redirection table are one flat table with one mark per
  entry.
- `Scheduler.ApplySetKeeps`: requires that the updated queue can be paced; what
  happens otherwise is said by `PlacedInPastExactly`.
- `Qman.QueueManager.PollBoth`: requires that less than half a clock (about 35
  minutes) has passed since the last poll, which the wrapped difference needs.
- `FastFlow.Flow.Receive`: segments are cut from one byte stream and start within
  half the sequence space of the next byte, and the missed trimming case is
  excluded; other senders and the missed case are only described by `Trim`.
- `StaleInterval.StaleIntervalHarmlessExactly`: stream positions are unbounded and the
  interval is cut as the reference cut has it; an interval that wraps around the sequence
  space and whose end the trimming misses is only described by `Trim`.
- `MemSpec.RunInOrderExactly`: runs that free a block of length 0 are excluded;
  `EmptyBlockBehind` shows that the equivalence fails for them.
- `Qman.QueueManager.Set`: requires that the updated queue can be paced, as
  `Scheduler.ApplySetKeeps` does.
- `Qman.QueueManager.PollSkiplist`: requires that less than half a clock has passed since
  the last poll, as `PollBoth` does.
- `Epolls.EpollObject.RaiseEvents`: the binding belongs to this epoll; the source goes
  through the bindings of a socket to all its epolls.
- `LookupProtocol.NeverMissed`: memory is sequentially consistent and a tuple is
  written or compared in one step.
- `TimerSpec.FiringOrder`: a handler that arms or disarms timers is a step between
  two firings.
- `Timeouts.TimeoutManager.PollTs`: handlers do not change the timers while a poll
  runs.
- `Timeouts.TimeoutManager.ArmTs`: a period out of range, or a timer that is armed
  already, is the caller's error; the source aborts on the first.
- `Congestion.Connection.WinUpdate`: requires a configured RTT between 1 and 99999, a
  link speed above 0 and a send buffer of at least one segment, which the source's own
  assertions need.
- `Timely.TimelyFlow.TimelyUpdate`: requires that the clock has moved since the last
  update, by which the source divides, and thresholds whose sum fits 32 bits.
- `FlowIds.ConnectionsInStep`: an id is released once, after its flow has been taken out.
- `Trace.Reader.Dump`: takes the number of reads as a bound, where the tool goes on
  until a read is refused; the writer does not run in between.
- `Rss.RedirectionTable.ScaleUp`: the device accepts the update; the source aborts
  otherwise.
