# Smelt: proofs about its protocols

Smelt is a message-passing runtime for multicore machines. This project models the parts of it
whose correctness depends on how threads interleave, and a few sequential algorithms beside them,
and proves what each is for.

A concurrent protocol is a state machine. Its state holds the shared words and, for each thread,
the place in the code and the live local variables; `Next` lets one thread make its next access to
shared memory; a run is the fold of `Next` over a schedule, and every schedule counts. Each
protocol has an inductive invariant, a lemma that every step keeps it, and guarantees derived from
it for all numbers of threads, all ring sizes and all runs. Where the C code updates structures and
arrays, a module named `...Memory` has a class with those fields, and each of its methods is proved
to take exactly the step of the state machine, or to do what the specification of the whole call says.

* `McsLock`: the queue lock whose release uses two exchanges and no compare-and-swap. A newcomer
  can take the lock inside the release window. The invariant describes chains of waiters, any
  number of which can be open at once, and where the right to enter is. Every request becomes one
  stay in the critical section, and can be served from every reachable state.
* `Dissemination`, `Rounds`: what the three dissemination barriers share: after `r` rounds with
  `m` peers each, a thread has heard from its `(m+1)^r - 1` predecessors modulo `n`.
  `ParityBarrier` (flags, parity and sense), `ChannelBarrier` (Smelt channels) and `TaggedBarrier`
  (growing tags, two variants) each prove that their wait test is exact, for their own reason, and
  that every call can be completed from every reachable state in a number of steps that is known.
  `BarrierOverRings`, `RingProgress` and `RingBound` are about the channel barrier on UMP rings; `TagZero`
  says when the first tag matters.
* `Ump`, `UmpProgress`, `UmpOvertaking`: the ring queue with an epoch bit per slot, 16-bit sequence
  numbers and acknowledgements twice per lap. Storing each payload word, writing the control word, testing the epoch, loading
  the control word, publishing the acknowledgement and copying each payload word are separate steps.
* `Ffq`: the FastForward queue, which has no shared index, only an EMPTY word in each slot.
* `Topology`, `Contexts`, `Trees`: from a model matrix or a number of threads to linked node
  records, and from those to channels. `TreeBarrier`, `TreeBroadcast`, `Collectives`: the
  collective operations on any such tree.
* `BenchSort`, `Placement`, `JsonNumbers`, `JsonStrings`, `JsonGrammar`: the in-place quicksort and
  the order statistics taken from it, the round-robin choice of cores, the texts of numbers and
  strings, and the grammar of strings that the reader accepts.

## What the proofs showed about the code

* `smlt_ump_queue_recv_raw` publishes an acknowledgement before its caller copies the payload. A
  copy is safe as long as no word of the message that comes num_msg later has been stored
  (`Ump.CopyIsIntact`): num_msg - 1 later messages may have been sent, and the next not begun. Without
  that, it is safe in every run if and only if its slot is not one of those at which an
  acknowledgement is written (`UmpOvertaking.CopyIsSafeIffNotAcknowledged`); a slot returned
  elsewhere stays as it is until a later receive writes one (`Ump.ReturnedSlotsStay`). The order of
  deliveries, and that nothing is lost or duplicated, do not depend on it.
* Over rings of three or more messages a notify of the barrier never waits, and three is the exact
  bound (`RingBound.ThreeMessagesAreExact`); on smaller rings it may wait but never for good
  (`RingProgress.NobodyWaitsForGood`).
* The parser checks the opposite entry with `val <+ 98`, so it refuses child position 98, which the
  constants allow. It takes the matrix of a tree if and only if no node has 98 children
  (`Topology.AcceptedIffFewChildren`, `Topology.FullStarIsRefused`).
* The tagged barrier does not wait in round 0 of a call with tag 0. `TagZero.SafeIff` says exactly when
  that matters. With two or more threads and the least number of rounds that covers them, which is
  what the benchmark computes, it is safe if and only if the first tag is above 0
  (`TagZero.SafeIffTagPositive`). The benchmark starts with 2.
* The parity barrier has flags for eight rounds, which are enough if and only if there are at most
  256 threads (`Rounds.RoundsFitIff`). With 257 the initialisation writes behind its arrays, over the
  parity and the sense of each thread.
* A FastForward message is visible to the receiver if and only if its first word is not EMPTY
  (`Ffq.VisibleIffNotEmpty`, `Ffq.ExactIffNotEmpty`); the code does not check this.
* A UMP queue pair does not check the length of a message or of a request: a word beyond the seventh is
  stored or loaded outside the slot (`Ump.WordFitsIff`).
* The JSON reader passes an escaped lone second half of a surrogate pair on and encodes it, which
  section 3 of RFC 3629 forbids (`JsonStrings.LoneSurrogateIsMalformed`). Otherwise what it makes of
  escapes is well-formed (`JsonStrings.EscapeIsWellFormedIff`), but it takes any escape for the second
  half of a pair (`JsonStrings.PairIsRightIff`, `JsonStrings.BadPairIsRead`).
* With no sample left the analysis reads outside its samples (`BenchSort.NothingLeft`).
* The placement loop ends if and only if the machine has the cores asked for
  (`Placement.EndsIffFits`).

## Model

| member | source | states |
|---|---|---|
| `McsLock.LockIsSafe` | bench/diss_bar/mcs.c:41-72 | In every interleaving of any number of threads there is at most one holder, the right to enter is in exactly one place, and no null pointer is followed |
| `McsLock.EveryRequestIsServed` | bench/diss_bar/mcs.c:41-72 | No waiter is dropped: from every reachable state there is a continuation, no longer than a bounded amount of work, on which every thread that has asked for the lock gets into its critical section and in the end everybody is idle; every move that is not a futile spin uses up some of that work |
| `McsLock.RequestsAreHonoured` | bench/diss_bar/mcs.c:41-72 | In every run each thread's requests are its entries into the critical section, plus one while it is asking, and its entries are its returns to idle, plus one while it holds or releases the lock: the only way from a request back to idle leads through the critical section |
| `McsLock.EverybodyCanEnter` | bench/diss_bar/mcs.c:41-72 | From every reachable state every thread, idle or not, can still get into its critical section |
| `McsLock.GetsTheLock` | bench/diss_bar/mcs.c:48-51 | A thread that asked for the lock and asks no longer has been in its critical section in between |
| `McsLock.StepKeepsInv` | bench/diss_bar/mcs.c:41-72 | Every access of every thread keeps the chains of waiters, their links and the place of the token in order, nested release windows included |
| `McsLock.Reachable` | bench/diss_bar/mcs.c:30-72 | Every schedule from the zeroed lock leads to a state with that order |
| `McsLock.SafetyFromInv` | bench/diss_bar/mcs.c:41-72 | The order of the queue implies one token, mutual exclusion and no null access |
| `McsLock.NoDeadlock` | bench/diss_bar/mcs.c:41-72 | While any thread is inside the lock code, some thread can make a step that is not a futile spin |
| `McsLock.MoveReducesWork` | bench/diss_bar/mcs.c:41-72 | Every such step brings its thread closer to idle and takes no other thread further away |
| `McsLock.Drain` | bench/diss_bar/mcs.c:41-72 | From every state in order, a bounded continuation lets all threads finish |
| `McsLock.MoverBehind` | bench/diss_bar/mcs.c:63-68 | A releaser that waits for its link has somebody behind it who can move |
| `McsLockMemory.Memory.Exchange` | bench/diss_bar/mcs.c:35-39 | The exchange stores the new value and returns the previous one |
| `McsLockMemory.Memory.LockStep` | bench/diss_bar/mcs.c:41-52 | Updating the nodes in place takes exactly the step of the state machine, at every point of the acquire |
| `McsLockMemory.Memory.UnlockStep` | bench/diss_bar/mcs.c:54-72 | The same at every point of the release |
| `McsLockMemory.Contend` | bench/diss_bar/mcs.c:30-72 | Any schedule of the in-place steps ends in the state of the run and is safe |
| `Dissemination.Spread` | src/barrier.c:119-146 | A thread that has finished r rounds has, directly or through others, heard from its (m+1)^r - 1 predecessors modulo n |
| `Dissemination.AllHaveEntered` | src/barrier.c:119-146 | With (m+1)^rounds >= n, a thread past the last round knows that everybody entered the call |
| `Dissemination.HeardGivesBarrier` | bench/diss_bar/mcs.c:130-143 | If no wait ends before its announcement, nobody returns from call e before all have started call e |
| `Dissemination.WithinOneCall` | bench/diss_bar/mcs.c:130-143 | No two threads are ever more than one call apart |
| `Dissemination.Unblocked` | src/barrier.c:119-146 | Whoever waits, waits for a chain of peers that ends in a thread with its wait fulfilled or with a call still to make |
| `Dissemination.AdvanceKeepsHeard` | bench/diss_bar/barrier.h:37-50 | A step keeps every finished wait justified, provided a wait ends only after the peer's announcement |
| `Dissemination.WorkDrops` | bench/diss_bar/mcs.c:130-143 | Every step of a thread that has not returned from call e takes exactly one off the steps that all threads have left until then: an announcement and m waits for each round, besides entering and returning |
| `Dissemination.WalkBack` | src/barrier.c:131-135 | Adding the number of threads until the peer is not negative finds the peer that many places behind |
| `Rounds.LogP` | bench/diss_bar/mcs.c:110-112 | The bit trick and the shift loop compute the logarithm to base 2 rounded up |
| `Rounds.PowerOfTwoTest` | bench/diss_bar/mcs.c:110 | x & (x-1) is zero exactly for a power of two |
| `Rounds.RoundsFitIff` | bench/diss_bar/mcs.h:92-93 | The rounds fit the eight flags that a thread has for each parity if and only if there are at most 256 threads |
| `Rounds.TooManyThreads` | bench/diss_bar/mcs.h:71 | 257 threads need a ninth round, which the arrays do not have |
| `ParityBarrier.BarrierIsSafe` | bench/diss_bar/mcs.c:130-143 | The protocol, for any number of threads that have a flag for every round (in the code up to 256, `Rounds.RoundsFitIff`) and any number of reuses: nobody leaves call e before all entered it, no flag is overwritten before its owner left the call that used it, nobody waits for good |
| `ParityBarrier.SpinTestIsExact` | bench/diss_bar/mcs.c:137 | The spin ends if and only if the peer has announced this round of this call; a flag from two calls ago never lets a thread through |
| `ParityBarrier.StepKeepsInv` | bench/diss_bar/mcs.c:130-143 | Every step keeps each flag equal to what the number of its writer's announcements determines, and parity and sense in time |
| `ParityBarrier.SafetyFromInv` | bench/diss_bar/mcs.c:130-143 | From the invariant: no flag is overwritten early and nobody is stuck |
| `ParityBarrier.EveryCallEnds` | bench/diss_bar/mcs.c:130-143 | Every run can be continued, with exactly the steps that are left, so that every thread has returned from call e, for every e, and has made no further call |
| `ParityBarrierMemory.WirePartners` | bench/diss_bar/mcs.c:115-126 | The initialisation loops point each thread at the flags of the thread 2^k places ahead, within the eight columns of the table |
| `ParityBarrierMemory.Barrier.constructor` | bench/diss_bar/mcs.c:95-128 | With up to 256 threads the barrier starts in the initial state, with the right number of rounds and inside its fixed arrays |
| `ParityBarrierMemory.Barrier.Announce` | bench/diss_bar/mcs.c:136 | Storing through the partner pointer is the announcing step |
| `ParityBarrierMemory.Barrier.EnterOrListen` | bench/diss_bar/mcs.c:132-137 | Entering, and one spin test, are the steps of the state machine |
| `ParityBarrierMemory.Barrier.Return` | bench/diss_bar/mcs.c:139-142 | Flipping sense and parity is the returning step |
| `ParityBarrierMemory.Synchronise` | bench/diss_bar/mcs.c:95-143 | With up to 256 threads, initialisation followed by any schedule of in-place steps has the barrier property |
| `ChannelBarrier.BarrierIsSafe` | src/barrier.c:107-148 | For any number of threads and of reuses: wait e ends only after all started wait e, no directed channel ever holds more than two notifications and at most one before a send, nobody waits for good |
| `ChannelBarrier.ReceiveIsExact` | src/barrier.c:137-139 | A receive succeeds if and only if the peer has notified in this round of this wait |
| `ChannelBarrier.OneRoundPerQueue` | src/barrier.c:119-146 | Each directed channel is used in exactly one round of a wait |
| `ChannelBarrier.InFlight` | src/barrier.c:122-139 | The bounds on notifications in flight, for each channel and round |
| `ChannelBarrier.StepKeepsInv` | src/barrier.c:107-148 | Every step keeps each queue equal to the announcements of its sender and the completed waits of its receiver |
| `ChannelBarrier.EveryCallEnds` | src/barrier.c:107-148 | Every run can be continued, with exactly the steps that are left, so that every thread has returned from call e, for every e, and has made no further call |
| `BarrierOverRings.BarrierHoldsOverRings` | src/barrier.c:107-148 | Barrier and UMP rings of any size together, one access per step: the barrier property in every run |
| `BarrierOverRings.NotifyNeverBlocks` | inc/backends/ump/smlt_ump_queuepair.h:64-107 | On rings of at least three messages, besides, whenever a thread is about to notify or in the middle of it the flow-control test succeeds, however lazily acknowledgements were published |
| `RingBound.ThreeMessagesAreExact` | inc/backends/ump/smlt_ump_queuepair.h:64-73 | That holds for all numbers of threads and all runs if and only if the rings hold at least three messages |
| `RingBound.NotifyMustWait` | inc/backends/ump/smlt_ump_queuepair.h:64-73 | On rings of one or two messages a run of two threads in which the test of a notify fails |
| `RingProgress.NobodyWaitsForGood` | src/barrier.c:119-146 | On rings of any size, in every run: whoever waits waits for a thread, in the same or an earlier call, that makes its next move within three accesses of its own |
| `RingProgress.FreeMoves` | inc/backends/ump/smlt_ump_queuepair.h:64-122 | A thread whose ring has room, or a notification for it, needs at most three accesses to notify or receive |
| `RingProgress.FullRing` | inc/backends/ump/smlt_ump_queuepair.h:64-73 | If the test fails, the receiver is in an earlier call than the sender |
| `RingProgress.EveryCallEnds` | src/barrier.c:107-148 | On rings of any size every run can be continued, with at most three accesses for each step of the barrier that is left, so that every thread has returned from call e, for every e, and has made no further call |
| `BarrierOverRings.RunProjects` | src/barrier.c:119-146 | Every run over rings projects to a run of the barrier on counted queues, with each ring consistent |
| `BarrierOverRings.GoProjects` | src/barrier.c:119-146 | Every access to a ring is the barrier's step on its counted queues, or leaves those alone |
| `ChannelBarrierMemory.MyId` | src/barrier.c:114-118 | The scan finds the caller's position; it is the only one when the cores differ |
| `ChannelBarrierMemory.WireAll` | src/barrier.c:87-100 | One channel for each pair, entered under both orders, owned by the lower number |
| `ChannelBarrierMemory.Barrier.DistinctChannels` | src/barrier.c:87-100 | A channel is reached under its two entries and no others |
| `ChannelBarrierMemory.Barrier.OppositeEnds` | src/barrier.c:98 | What one end sends on is what the other receives from |
| `ChannelBarrierMemory.Barrier.Announce` | src/barrier.c:122-124 | The notify on the shared table is the announcing step |
| `ChannelBarrierMemory.Barrier.Listen` | src/barrier.c:131-139 | One poll of the peer's channel is the waiting step |
| `Channels.Channel.Notify` | inc/smlt_channel.h:152-180 | The owner test adds the notification to the queue that the other end reads, and to no other |
| `Channels.Channel.PollNotification` | inc/smlt_channel.h:362-370 | A poll takes one notification from the caller's own receive queue if and only if there is one |
| `TaggedBarrier.BarrierIsSafe` | bench/diss_bar/barrier.h:16-90 | Both variants, any number of threads and of peers per round, first tag above 0, before the tag reset: the barrier property holds and nobody waits for good, although banks are reused modulo MAXOPS |
| `TagZero.SafeIff` | bench/diss_bar/barrier.h:16-90 | For any number of threads, of peers m per round and of rounds that covers the threads, in both variants: every run before the reset has the barrier property if and only if the first tag is above 0, or there is one thread, or one round less covers them and m+1 is coprime to their number |
| `TagZero.SafeIffTagPositive` | bench/diss_bar/sharedmemory.h:70-78 | For two or more threads and the number of rounds that just covers them, as the benchmark computes it: if and only if the first tag is above 0 |
| `TagZero.NeedsAllIff` | bench/diss_bar/barrier.h:37-50 | With round 0 not waited for, all threads still hear from each other exactly under that condition |
| `TagZero.SpreadLate` | bench/diss_bar/barrier.h:37-50 | With first tag 0 a thread past r rounds of its first call has heard from the (m+1)^(r-1) threads at multiples of m+1 behind it |
| `TaggedBarrier.SpinTestIsExact` | bench/diss_bar/barrier.h:41-46 | The line shows the wanted value if and only if the peer reached this round of this call, but for round 0 of the first call when the first tag is 0 |
| `TaggedBarrier.StepKeepsInv` | bench/diss_bar/barrier.h:16-51 | Every step before the reset keeps the tags in step with the calls and the lines monotone; a line that was written holds the value of an announcement of its owner that belongs into this bank and, in the variant with a line for each round, to that round |
| `TaggedBarrier.EveryCallEnds` | bench/diss_bar/barrier.h:16-51 | Every run before the tag reset can be continued, with exactly the steps that are left, so that every thread has returned from call e and has made no further call, for every e whose tag is below the limit |
| `TagZero.TagZeroIsUnsafe` | bench/diss_bar/barrier.h:45 | With first tag 0 and no more rounds than cover the threads, some run lets a thread leave its first call before another has started it |
| `TagZero.Bring` | bench/diss_bar/barrier.h:37-50 | With first tag 0 a thread completes r rounds without any thread that is not at one of (m+1)^(r-1) distances behind it, all multiples of m+1 |
| `TaggedBarrierMemory.Barrier.constructor` | bench/diss_bar/sharedmemory.h:35-57 | The banks of lines, all zero, hold the initial state |
| `TaggedBarrierMemory.Barrier.Enter` | bench/diss_bar/barrier.h:21-30 | Copying and advancing the tag is the entering step |
| `TaggedBarrierMemory.Barrier.Announce` | bench/diss_bar/barrier.h:35-38 | The store into the thread's line of the bank that the tag selects is the announcing step, in both variants |
| `TaggedBarrierMemory.Barrier.Listen` | bench/diss_bar/barrier.h:41-46 | One test of the peer's line is the waiting step |
| `TaggedBarrierMemory.Barrier.Return` | bench/diss_bar/barrier.h:48-51 | Leaving after the last round is the returning step |
| `Ump.DeliversInOrder` | inc/backends/ump/smlt_ump_queue.h:225-345 | In every run, for every ring size: what was sent are messages that the calls of send were given, in the order of the calls; deliveries are the sent messages in order, none lost or duplicated, each with as many words as were asked for; one that was not overtaken is the whole message if enough words were asked for, and else its first words; overtaking takes an acknowledging receive and a stored word of the message num_msg later; the epoch test is true exactly when a message is pending |
| `Ump.SendIsKept` | src/backends/ump/smlt_ump_queuepair.c:114-134 | A call of send is admitted at once if the cached acknowledgement leaves room, else after one look at the published one if that does, and else refused; the message of the call is kept until the commit, which sends exactly that message |
| `Ump.SentAsOffered` | src/backends/ump/smlt_ump_queuepair.c:114-134 | In every run the messages sent, with the one under way, are a subsequence of those that the calls were given |
| `Ump.RequestIsKept` | src/backends/ump/smlt_ump_queuepair.c:173-193 | From the poll to the delivery the receiver keeps to the number of words asked for |
| `UmpProgress.EveryMessageCanArrive` | src/backends/ump/smlt_ump_queuepair.c:114-193 | From every state of every run, whatever is in the ring and under way at both ends, the run can go on so that all that was sent is received, and then a further message is sent and delivered with the words that were asked for |
| `UmpProgress.SendOne` | src/backends/ump/smlt_ump_queuepair.c:114-134 | With room by the published acknowledgement a call of send appends its message within three steps more than the message has words |
| `UmpProgress.ReceiveOne` | src/backends/ump/smlt_ump_queuepair.c:173-193 | A receive that finds a message delivers the oldest, right in the words asked for, with four steps more than those |
| `Ump.WordFitsIff` | src/backends/ump/smlt_ump_queuepair.c:129-131 | The unchecked copy loops store and load word k inside the slot if and only if k < 7; the eighth is the next control word |
| `Ump.LoadsWhatLiesThere` | src/backends/ump/smlt_ump_queuepair.c:188-190 | The copy loop loads what lies in memory where word k of the slot would be, behind the slot too, as far as the ring goes |
| `Ump.FlowControlIsExact` | inc/backends/ump/smlt_ump_queuepair.h:64-73 | In every run the wrapped comparison decides what the unbounded one would, the distance is between 1 and num_msg + 1, cached <= published <= received, and the published acknowledgement lags by at most half the ring |
| `Ump.FlowControlFromInv` | inc/backends/ump/smlt_ump_queuepair.h:64-73 | The same from the invariant, with room in the ring whenever the receiver has drained it |
| `Ump.WrapIsHarmless` | inc/backends/ump/smlt_ump_queuepair.h:66 | 16-bit subtraction and comparison equal those on unbounded numbers, for every distance the protocol allows |
| `Ump.RefinesFifo` | inc/backends/ump/smlt_ump_queue.h:225-345 | Every step appends the sender's message to a FIFO of bounded capacity, removes the oldest, or leaves it unchanged |
| `Ump.PendingIsExact` | inc/backends/ump/smlt_ump_queue.h:283-300 | The epoch comparison is true if and only if a sent message has not been taken |
| `Ump.CopyIsIntact` | inc/backends/ump/smlt_ump_queuepair.h:202-208 | As long as no word of the message num_msg later has been stored, the copy is the message, word for word: whole if enough words were asked for, and else its first words |
| `Ump.ReturnedSlotsStay` | inc/backends/ump/smlt_ump_queuepair.h:202-218 | In every run each message that was taken and is not yet covered by a published acknowledgement is still in its slot, through all receives that write none |
| `Ump.SlotIntact` | inc/backends/ump/smlt_ump_queue.h:328-338 | The same for one message, from the invariant |
| `UmpOvertaking.CopyIsSafeIffNotAcknowledged` | inc/backends/ump/smlt_ump_queue.h:328-342 | For every ring and slot: copies from the slot have the words of the right message in every run, if and only if it is neither the slot in the middle of the ring nor the last, at which acknowledgements are written |
| `UmpOvertaking.CopyCanBeWrong` | inc/backends/ump/smlt_ump_queue.h:328-342 | For every ring and every slot at which an acknowledgement is written there is a run in which a copy has a word of the message sent a ring full later |
| `Ump.StepKeepsInv` | inc/backends/ump/smlt_ump_queue.h:225-345 | Every access of sender or receiver keeps slots, epochs, sequence numbers and acknowledgement consistent |
| `Ump.Reachable` | src/backends/ump/smlt_ump_queuepair.c:86-87 | Every run from the initial state of a queue pair stays consistent |
| `UmpMemory.Channel.constructor` | src/backends/ump/smlt_ump_queue.c:51-134 | The initialised and cleared queue is the initial state |
| `UmpMemory.CreatePair` | src/backends/ump/smlt_ump_queuepair.c:26-94 | A pair is created if and only if at least two slots are asked for; what one end sends into the other receives from, in both directions, on separate rings in the initial state |
| `UmpMemory.Channel.CanSendRaw` | inc/backends/ump/smlt_ump_queuepair.h:64-73 | True exactly when the messages not yet acknowledged in shared memory leave room, the cached copy refreshed only if needed |
| `UmpMemory.Channel.SendRaw` | inc/backends/ump/smlt_ump_queue.h:225-245 | Writing the control word and moving on is the committing step |
| `UmpMemory.Channel.RecvRaw` | inc/backends/ump/smlt_ump_queue.h:312-345 | Acknowledging in the middle and at the end of a lap and moving on is the taking step |
| `UmpMemory.Channel.TrySend` | src/backends/ump/smlt_ump_queuepair.c:114-134 | Appends the message, or reports that the ring is full, exactly according to the acknowledged room |
| `UmpMemory.Channel.TryRecv` | src/backends/ump/smlt_ump_queuepair.c:173-193 | Returns the oldest message's words if and only if there is one |
| `Ffq.RefinesBoundedFifo` | inc/backends/ffq/smlt_ffq_queue.h:133-280 | In every run of messages whose first word is not EMPTY: what was sent is what the calls were given, cut to eight words, in the order of the calls; deliveries are the sent messages in order, whole if enough words were asked for and else their first words, and both tests are exact |
| `Ffq.SendIsKept` | inc/backends/ffq/smlt_ffq_queue.h:156-183 | A call is admitted exactly when fewer messages than slots are outstanding; its message is all of what it was given, or the first eight words, and is kept until it is visible and recorded |
| `Ffq.RequestIsKept` | inc/backends/ffq/smlt_ffq_queue.h:250-280 | From the call to the delivery the receiver keeps to the number of words asked for |
| `Ffq.ReceiveCompletes` | inc/backends/ffq/smlt_ffq_queue.h:250-280 | A whole call of the receiver with a message outstanding delivers the oldest one, with the words asked for up to eight, in one access for each and two more |
| `Ffq.ExactIffNotEmpty` | inc/backends/ffq/smlt_ffq_queue.h:133-146 | From every initial state, both tests are exact in all runs that send a given message if and only if its first word is not EMPTY |
| `Ffq.TestsAreExact` | inc/backends/ffq/smlt_ffq_queue.h:133-146 | Sending is possible exactly when fewer messages than slots are outstanding, receiving exactly when one is |
| `Ffq.VisibleIffNotEmpty` | inc/backends/ffq/smlt_ffq_queue.h:156-183 | A whole call with a free slot sends all of a message of up to eight words and the first eight words of a longer one; its slot is marked as used if and only if the first word is not EMPTY, and on a drained ring that is when the receiver sees it |
| `Ffq.StepKeepsInv` | inc/backends/ffq/smlt_ffq_queue.h:156-280 | Every access of sender or receiver keeps slots and positions consistent |
| `FfqMemory.Queue.constructor` | src/backends/ffq/smlt_ffq_queue.c:30-65 | Every slot is marked empty |
| `FfqMemory.Queue.SendRaw` | inc/backends/ffq/smlt_ffq_queue.h:156-183 | Appends all words given up to eight, or the first eight of more, or reports full exactly when all slots are used |
| `FfqMemory.Queue.Notify` | inc/backends/ffq/smlt_ffq_queue.h:193-209 | Appends a notification, or reports full exactly when all slots are used |
| `FfqMemory.Queue.RecvRaw` | inc/backends/ffq/smlt_ffq_queue.h:250-280 | Removes and copies the oldest message if and only if there is one, with as many words as were asked for, at most eight |
| `FfqMemory.CreatePair` | src/backends/ffq/smlt_ffq_queuepair.c:29-75 | What one end sends into is what the other receives from, in both directions, on separate rings |
| `Trees.PathExists` | src/topology.c:136-179 | Every node of a linked tree is reached from the root by child positions |
| `Trees.PathIsUnique` | src/topology.c:136-179 | There is only one such path for each node |
| `Trees.PathExtends` | src/topology.c:136-179 | Following one more child position leads to that child |
| `Topology.CreateBinaryTree` | src/topology.c:136-174 | The loop that fills the records builds the default tree: the children of node i are those of 2i + 1 and 2i + 2 that exist, in that order, and each node's parent and index say which it is |
| `Topology.BinaryTreeIsTree` | src/topology.c:136-174 | For every number of threads, parent and children links are inverse, indices are right, and parents have lower numbers: a spanning tree rooted at 0 |
| `Topology.BinaryTreeIsFlat` | src/topology.c:136-174 | Node v is as many hops from the root as v + 1 can be halved: the default tree is as flat as a binary tree can be |
| `Topology.CountChildren` | src/topology.c:205-212 | The number of children is the largest child position in the row |
| `Topology.ParseRow` | src/topology.c:240-313 | One row of the matrix fills the node's records and hands out the child positions, or stops exactly at a row with an entry that is not accepted |
| `Topology.ParseModel` | src/topology.c:193-316 | For every square matrix: the parser gives up if and only if an entry is not accepted, and otherwise leaves the records the matrix determines |
| `Topology.AcceptedIffFewChildren` | src/topology.c:252-255 | The parser takes the matrix of a tree if and only if no node has 98 children |
| `Topology.FullStarIsRefused` | src/topology.c:252-255 | A root with 98 children is within the documented positions and is refused |
| `Topology.RecordsAgree` | src/topology.c:193-316 | For a well-formed matrix, each node's records say what its row and column say, and no child entry stays empty |
| `Topology.ParsedIsLinked` | src/topology.c:193-316 | For every well-formed matrix the parsed parent and children links are inverse to each other and are those of the matrix |
| `Topology.ParsedIsTree` | src/topology.c:193-316 | If the matrix has no cycle either, the records are a tree |
| `Contexts.Context.constructor` | src/context.c:66-215 | Every node but the root gets as its parent channel the very channel its parent created for it, owned by the parent with the node as target; the root gets none |
| `Contexts.Context.MutuallyInverse` | src/context.c:121-128 | Each child channel of a node is that child's parent channel |
| `Contexts.Context.DistinctChannels` | src/context.c:121-128 | No two nodes share a parent channel |
| `Contexts.Context.TargetIsChild` | inc/smlt_channel.h:156-162 | The owner test puts parent and child on opposite ends of both queues |
| `Contexts.Context.RootIsRoot` | src/context.c:311-318 | The null test recognises exactly the root |
| `TreeBarrier.BarrierIsSafe` | src/barrier.c:57-65 | On every tree, in every run: nobody returns from its e-th wait before every node has called it e times, each direction of a channel holds at most one notification, whoever waits waits for a node that can go on or has yet to call; every call that all nodes have started ends for all of them within a bounded number of steps and leaves them between two calls, and every call can be completed |
| `TreeBarrier.CallEnds` | src/barrier.c:57-65 | A call that all nodes have started ends for all of them within the work that is left, and each that was in it is between two calls then |
| `TreeBarrier.CallCanBeCompleted` | src/barrier.c:57-65 | From every state in order all nodes can complete call e and all calls before it |
| `TreeBarrier.StepLowersWork` | src/reduction.c:163-186 | Every step of a node that is in its call and ready lowers the work that is left for all nodes together, the rounds of polling included that pass over children without news |
| `TreeBarrier.StepKeepsInv` | src/reduction.c:142-213 | Every step keeps each queue equal to what its two ends have sent and taken; each child is taken once per call |
| `TreeBarrier.SafetyFromInv` | src/broadcast.c:165-187 | The guarantees follow from the invariant: heard below, released above |
| `TreeBarrier.FewInFlight` | src/reduction.c:142-213 | At most one notification in flight in each direction, for each edge |
| `TreeBarrier.SomebodyIsReady` | src/barrier.c:57-65 | Whoever waits in the barrier, some node can proceed in the same or an earlier call, or has not made that call yet |
| `TreeBarrier.ReadyBelow` | src/reduction.c:167-186 | A node that gathers can proceed, or one below it can |
| `TreeBarrier.GatherAll` | src/reduction.c:163-186 | If every child's notification is there or comes in sooner or later, in any order and with any pauses, the polling loop terminates and takes exactly one from each child |
| `TreeBarrierMemory.Barrier.Gather` | src/reduction.c:167-186 | One round of the polling loop on the channels is the gathering step |
| `TreeBarrierMemory.Barrier.Report` | src/reduction.c:199-210 | Notifying the parent, if there is one, is the reporting step |
| `TreeBarrierMemory.Barrier.Await` | src/broadcast.c:169-185 | One poll of the parent's channel is the awaiting step |
| `TreeBarrierMemory.Barrier.Release` | src/broadcast.c:62-91 | Notifying the next child, or returning, is the releasing step |
| `TreeBroadcast.BroadcastIsOrdered` | src/broadcast.c:101-126 | In every run on every tree: the root has broadcast exactly the messages it was given, each node has received a prefix of them, any two nodes agree on the order, and when nothing is under way everybody has them all |
| `TreeBroadcast.RootHasGiven` | src/broadcast.c:106-107 | In every run the root's messages are those of its calls, in order |
| `TreeBroadcast.PrefixOfRoot` | src/broadcast.c:101-126 | Each node's deliveries are a prefix of the root's messages |
| `TreeBroadcast.SameAsRoot` | src/broadcast.c:24-52 | With no message under way, each node has received all |
| `TreeBroadcast.Reachable` | src/broadcast.c:24-52 | In every run each channel has carried exactly what the parent had to forward to that child |
| `TreeBroadcast.EveryMessageArrives` | src/broadcast.c:101-126 | Every run can be continued, without a further broadcast and within the work that is left, until every node has exactly the messages that the root was given |
| `TreeBroadcast.NextMessageArrives` | src/broadcast.c:101-126 | After every run a further message can be broadcast and reaches every node behind all those before it |
| `TreeBroadcast.Drain` | src/broadcast.c:101-126 | From every consistent state a bounded number of steps delivers everything |
| `TreeBroadcast.SomebodyCanStep` | src/broadcast.c:101-126 | While a message is under way, some node can take a step |
| `TreeBroadcast.StepReducesWork` | src/broadcast.c:24-52 | Each step of a node uses up some of the bounded work that is left |
| `TreeBroadcastMemory.Broadcast.Begin` | src/broadcast.c:106-107 | The root's call puts the message it was given behind those before it and is the starting step |
| `TreeBroadcastMemory.Broadcast.Receive` | src/broadcast.c:106-124 | Taking the oldest message from the parent's channel is the receiving step, and delivers that message |
| `TreeBroadcastMemory.Broadcast.Forward` | src/broadcast.c:35-49 | Sending to the next child is the forwarding step |
| `Collectives.DefaultTreeServes` | src/topology.c:136-179 | On the default tree of any number of threads, in every run: the barrier property, at most one notification in flight, progress, every call ends; the messages given to the root in order, agreement, nothing lost, and all of them arrive |
| `Collectives.ModelTreeServes` | src/topology.c:193-316 | The same on the tree of any well-formed matrix without cycles |
| `BenchSort.ScanUp` | src/bench.c:55-57 | The unchecked scan from below stops inside the array, at the first element not below the pivot |
| `BenchSort.ScanDown` | src/bench.c:58-60 | The unchecked scan from above stops at the last element not above the pivot; the unsigned index does not underflow |
| `BenchSort.Partition` | src/bench.c:53-68 | The outer loop terminates, rearranges only its part, and splits it strictly inside into elements up to the pivot and elements from the pivot |
| `BenchSort.Sort` | src/bench.c:46-71 | For every array the sort terminates with the same elements in order, and touches nothing else |
| `BenchSort.Recombine` | src/bench.c:69-70 | Sorting the two sides of a partition sorts the whole and only rearranges it |
| `BenchSort.SortedIsRanked` | src/bench.c:114-116 | Position k of a sorted sequence holds the k-th order statistic of its values |
| `BenchSort.OrderStatisticIsUnique` | src/bench.c:114-116 | There is one value for each position |
| `BenchSort.Control.PrepareAnalysis` | src/bench.c:102-119 | Minimum, median and maximum are the right order statistics of the samples, the largest ignored ones aside, if and only if a sample is left |
| `BenchSort.NothingLeft` | src/bench.c:116 | The 32-bit index of the maximum lies among the samples if and only if one is left |
| `Placement.EndsIffFits` | bench/ab-bench-scale.c:103-118 | The loop ends, with exactly the requested number selected, if and only if the machine has that many cores |
| `Placement.RoundTakes` | bench/ab-bench-scale.c:109-114 | Until the request is met every round takes at least one core |
| `Placement.CurrentNodeHasRoom` | bench/ab-bench-scale.c:109-110 | The node looked at is never full before all are |
| `Placement.EvenAfter` | bench/ab-bench-scale.c:103-118 | At any time each node has what the number of its visits gives it, the last one excepted |
| `Placement.RoundRobinIsFair` | bench/ab-bench-scale.c:69-77 | Any two nodes differ by at most the step |
| `Placement.Place` | bench/ab-bench-scale.c:78-118 | The counts sum to the request, none exceeds the cores of a node, any two differ by at most the step, a step of 0 counting as 1, and they follow the round-robin order in that step |
| `JsonNumbers.UintToString` | contrib/jsoncpp/jsoncpp.cpp:146-152 | Writes the decimal digits and the terminator leftwards and never leaves the buffer |
| `JsonNumbers.AtMost20` | contrib/jsoncpp/jsoncpp.cpp:131-138 | A 64-bit number has at most 20 digits, so the buffer is long enough |
| `JsonNumbers.SignedToString` | contrib/jsoncpp/jsoncpp.cpp:4080-4094 | The text of every signed 64-bit number, the minimum included |
| `JsonNumbers.UnsignedToString` | contrib/jsoncpp/jsoncpp.cpp:4096-4102 | The text of every unsigned 64-bit number |
| `JsonNumbers.DecodeNumber` | contrib/jsoncpp/jsoncpp.cpp:752-792 | A token takes the integer path if and only if it is all digits and its value fits [-2^63, 2^64-1], and then the value is right and of the right type |
| `JsonNumbers.TooBig` | contrib/jsoncpp/jsoncpp.cpp:771-780 | Where the overflow test gives up, the whole number is indeed too large |
| `JsonNumbers.NumbersRoundTrip` | contrib/jsoncpp/jsoncpp.cpp:4080-4102 | Every 64-bit number's text is a token that fits and denotes that number |
| `JsonNumbers.ValueOfDigits` | contrib/jsoncpp/jsoncpp.cpp:146-152 | The printed digits denote the number, without a leading zero |
| `JsonStrings.QuoteString` | contrib/jsoncpp/jsoncpp.cpp:4227-4288 | The short way and the long way give the same quoted text |
| `JsonStrings.ReadString` | contrib/jsoncpp/jsoncpp.cpp:636-646 | The scan ends just after the first quote that no backslash hides, if there is one |
| `JsonStrings.FindsItsEnd` | contrib/jsoncpp/jsoncpp.cpp:636-646 | In a text the writer produced, that is the quote the writer closed it with, whatever follows |
| `JsonStrings.DecodeString` | contrib/jsoncpp/jsoncpp.cpp:827-878 | The loop computes the meaning of the text, or reports a malformed escape |
| `JsonStrings.DecodedEscaped` | contrib/jsoncpp/jsoncpp.cpp:827-878 | Undoing the escapes of a written text gives the original bytes |
| `JsonStrings.StringRoundTrip` | contrib/jsoncpp/jsoncpp.cpp:4227-4288 | Every byte string, quoted, embedded in any text and read again, is unchanged |
| `JsonGrammar.AcceptedIffText` | contrib/jsoncpp/jsoncpp.cpp:827-907 | The reader accepts a text if and only if it is one of the grammar of section 7 of RFC 8259 up to the closing quote, with raw control bytes and any second half of a pair let in, and reads what it means |
| `JsonGrammar.TextsAreDecoded` | contrib/jsoncpp/jsoncpp.cpp:827-907 | Every text of the grammar, with every short escape and hexadecimal digits in either case, is decoded to its meaning |
| `JsonGrammar.DecodedIsText` | contrib/jsoncpp/jsoncpp.cpp:827-907 | Whatever the reader accepts can be written as items of the grammar |
| `JsonGrammar.EndIsFound` | contrib/jsoncpp/jsoncpp.cpp:636-646 | The scan finds the quote that closes any text of the grammar, whatever follows |
| `JsonGrammar.ReadText` | contrib/jsoncpp/jsoncpp.cpp:827-878 | A string of the grammar, wherever it stands in a document, is found and read as what it means |
| `JsonGrammar.WrittenIsText` | contrib/jsoncpp/jsoncpp.cpp:4227-4288 | The writer writes each byte by its short escape, the solidus excepted, a control byte with four digits and capital letters, and any other byte as it is; no control byte is left in the text |
| `JsonStrings.Utf8RoundTrip` | contrib/jsoncpp/jsoncpp.cpp:104-130 | A code point is encoded in the well-formed sequence of section 3 of RFC 3629 that denotes it if and only if it is not a surrogate |
| `JsonStrings.EscapeIsWellFormedIff` | contrib/jsoncpp/jsoncpp.cpp:880-907 | An escape is decoded to well-formed UTF-8 if and only if it does not begin with the second half of a surrogate pair |
| `JsonStrings.LoneSurrogateIsMalformed` | contrib/jsoncpp/jsoncpp.cpp:864-868 | The escape of U+DC00 alone is decoded to three bytes that are not well-formed |
| `JsonStrings.SurrogatesGiveCodePoint` | contrib/jsoncpp/jsoncpp.cpp:880-907 | A pair of surrogate escapes denotes its code point |
| `JsonStrings.PairIsRightIff` | contrib/jsoncpp/jsoncpp.cpp:886-899 | After the first half of a pair any escape is accepted; the code point is the one the two halves stand for if and only if it was a second half |
| `JsonStrings.BadPairIsRead` | contrib/jsoncpp/jsoncpp.cpp:886-899 | The first half of a pair followed by the escape of U+0041 is read as U+10041 |

## Left out

- Weak memory: each access to a shared word is one atomic step, and stores become visible in program order, as the write-barrier comment at `inc/arch/x86_64.h:29-36` says.
- TaggedBarrier.BarrierIsSafe: holds for runs before the tag reset at INT_MAX; after it the lines are no longer monotone.
- TaggedBarrier.EveryCallEnds: for calls whose tag is below INT_MAX, for the same reason.
- Fairness of the scheduler: that calls end is stated as a continuation of bounded length from every reachable state, and as a measure that ready threads lower; a schedule that never lets a ready thread move is a run too.
- Ump.DeliversInOrder: says of a copy that was overtaken only when that can happen, because its words can then be those of a later message (`UmpOvertaking.CopyCanBeWrong`).
- UmpMemory.Channel.TrySend: one whole call without interleaving; the interleavings are those of the state machine whose steps it takes. The same goes for TryRecv and for the FastForward calls. The blocking variants repeat these calls.
- UmpMemory.CreatePair: the alignment test on the buffer address and failing allocation are not modelled; the bound on the number of slots is.
- Ump.WordFitsIff: what happens after a message of more than 7 words has overrun its slot is not modelled; the runs are those of messages within it. Requests for more words are modelled: they load the words that follow the slot; what follows the ring is taken as 0.
- BarrierOverRings.NotifyNeverBlocks: a notification has no payload, so taking it is one step.
- ChannelBarrierMemory.Barrier.constructor: the number of rounds is the logarithm rounded up, computed in whole numbers instead of `ceil(log2(...))` in floating point.
- ParityBarrier.BarrierIsSafe: the state machine has a flag for every round; that the code's arrays have them for up to 256 threads only is stated in `Rounds.RoundsFitIff` and required by `ParityBarrierMemory.Barrier.constructor`.
- TreeBarrier.BarrierIsSafe: takes the tree as linked and without cycles; the default tree, and the records of a well-formed matrix without cycles, are proved to be such trees. Node numbers are positions in the node array.
- Topology.ParsedIsLinked: is about matrices without shared-memory entries. For matrices that are not well-formed only the exact result and the exact refusals are stated (`Topology.ParseModel`). The root's parent and the leaf marks are not modelled beyond the records; a matrix is square.
- TreeBroadcast.BroadcastIsOrdered: channels are FIFO queues without bound, which `Ump` and `Ffq` prove of the rings up to blocking; a sender that blocks is a sender that takes no step.
- Channels.Channel.Notify: a queue of a 1:1 channel is the number of notifications sent and received; message contents are those of the queue modules. Index receive and can_send on 1:1 channels select the same ends.
- 1:n channels, the SHM and SWMR backends and hybrid trees: the parser refuses hybrid models.
- Payload reductions: the loop of `smlt_reduce` receives the children's messages into the result and never applies the operation, so there is no fold to prove.
- The `shl_barrier` functions: stubs.
- BenchSort.Control.PrepareAnalysis: average and standard error are left out, and the ignored share is given as a number of samples. With no sample left the method reports nothing, where the code reads what lies outside.
- Placement.Place: the first step only; the choice of cores within a node is library calls.
- JsonStrings.StringRoundTrip: the writer's short way copies up to the terminator of the C string, which is taken to stand right after the value, as it does for strings held in values. The rest of jsoncpp is left out.
- JsonNumbers.DecodeNumber: tokens are given; where a number token ends, and what the reader of doubles makes of the rest, are left out. An empty magnitude counts as 0, as in the code.
- Platform code, allocation failure, NUMA placement of buffers, pinning, timing and the benchmark drivers.
- The debug assertion at `inc/backends/ump/smlt_ump_queue.h:319`, and its counterpart for FastForward: it demands the opposite of the direction that receiving queues have. The model follows the code without it.
