# Verified model of the ixgbevf driver core

A Dafny model of the parts of the ixgbevf Linux VF network driver that hold rings, protocols and layout
arithmetic, with proofs of what they promise. `dafny verify dfyconfig.toml` checks everything.

| files | component |
|---|---|
| `TxSpec`, `TxRing` | the transmit ring: a FIFO of packets that own ring slots, and the in-place ring of two arrays and two wrapping indices proved to perform exactly its steps |
| `TxConservation`, `TxRuns`, `TxGather` | over every run nothing is freed or unmapped twice and a torn-down ring has given everything back; one frame gathers exactly its bytes |
| `TxInterleave`, `TxInterleaveRuns`, `TxInterleaveAlone` | transmitter, cleaner and hardware on one ring, interleaved access by access: a frame half mapped or half undone is never touched by the cleaner, a buffer is freed only after hardware has reported it, and nothing is given back twice; each side run alone does what `TxSpec` says |
| `TxWake`, `TxWakeRuns` | stopping and waking the transmit queue as interleaved steps of transmitter and cleaner, and the ring's calls as such steps |
| `RxSpec`, `RxPolls`, `RxRing`, `RxRuns` | the receive ring with half-page recycling and biased reference counts, with the stack and the hardware acting between any two driver steps |
| `Packing`, `PackedFields`, `Bits` | the bit-field packing library, its table checks and the structure round trip |
| `QVectors`, `Ivar` | dividing rings among interrupt vectors and encoding the result into the allocation registers |
| `MailboxR2C`, `MailboxLock` | the VF mailbox status register, whose event bits clear when read, and the legacy mailbox lock between VF and PF |
| `QvLock` | the q_vector ownership lock between NAPI and busy polling |
| `Div64`, `Itr`, `Counters` | 64 by 32 bit division, interrupt rate smoothing, extension of wrapping counters |
| `Util` | shared vocabulary: ring indices, 32-bit truncation, division |

The rings, the adapter, the mailbox, the locks and the counters are classes whose fields and arrays change in
place. The state-changing methods are proved equal to a step of a specification state, and the results over all
runs are proved about that specification. `ghost var st` in a ring is that specification state.

Constants: `DESC_NEEDED` is 21, for the usual `MAX_SKB_FRAGS` of 17; pages are 4 KB, so a page has two halves.

Where code and expectation differ, the code is modelled:

- The little-endian layout whose groups come most significant first maps the first byte of a short last group
  outside the buffer. `Packing.AddressableExactly` says for which lengths and layouts the address map is a bijection.
- A transmit wake-up is lost for good when packets may count zero segments, when the ring is too small for the wake
  threshold, or when a request may exceed the ring. `TxWake.NoLostWakeUp` proves that these are the only ways.
- Smoothing reaches a target if and only if it starts at it or above (`Itr.ReachedExactly`). From below it settles
  short, within as many steps as it is away (`Itr.SettlesBelow`), at a rate x under target t with
  `x * (t - x) < 9 * t + x` (`Itr.RestsExactly`); for the bulk target that is at most 326 from anywhere up to 326.
- An extended counter is exact exactly when no gap between two reads reaches a whole wrap
  (`Counters.ExactWhenReadOftenEnough`); otherwise it is short by the wraps that went by unseen.

## Model

| member | source | states |
|---|---|---|
| TxRings.TxRing.XmitFrameRing | src/ixgbevf_main.c:5090-5168 | whatever the protocol, room, VLAN, offload and DMA outcome, the arrays and indices end as TxSpec.Xmit says, with its status, and still represent the queue; TxRuns.XmitKeepsInv says when that status is busy and who owns the frame |
| TxRings.TxRing.XmitRoom | src/ixgbevf_main.c:5125-5168 | after the room check: a dropped frame is freed once and leaves the ring as it was, an accepted one is mapped and queued |
| TxRings.TxRing.CountDescs | src/ixgbevf_main.c:5096-5118 | the 16-bit sum is the descriptors all buffers of the frame need, modulo 2^16 |
| TxRings.TxRing.MaybeStopTx | src/ixgbevf_main.c:4879-4906 | stops the queue and reports busy exactly if fewer slots are free than asked for |
| TxRings.TxRing.StartFrame | src/ixgbevf_main.c:4667-4686 | the context descriptor takes the first slot, next_to_use moves on, the first data slot carries the payload length and no DD |
| TxRings.TxRing.TxMap | src/ixgbevf_main.c:4908-5066 | a fully mapped frame joins the queue and the stop check follows; a failed one leaves only its map, unmap and free calls in the log |
| TxRings.TxRing.MapBuffers | src/ixgbevf_main.c:4922-4985 | buffers are mapped in order until the first failure, and the slots written are those of the mapped buffers |
| TxRings.TxRing.WriteChunks | src/ixgbevf_main.c:4943-4966 | one buffer becomes its chunks of at most 16384 bytes, recorded in its first slot only |
| TxRings.TxRing.Publish | src/ixgbevf_main.c:5005-5012 | setting next_to_watch turns the mapped slots into one packet at the end of the queue |
| TxRings.TxRing.Unwind | src/ixgbevf_main.c:5037-5060 | the failure path undoes every mapping made, newest first, across the wrap, and the ring represents the old queue again |
| TxRings.TxRing.MapFailed | src/ixgbevf_main.c:5037-5066 | after unwinding the frame is freed and next_to_use is back at its first slot |
| TxRings.TxRing.CleanTxIrq | src/ixgbevf_main.c:468-637 | the arrays and indices end as TxSpec.CleanIrq says, with its verdict, and TxRuns.CleanIsFifo says what is retired and whether the queue is woken; while the adapter is down even a torn-down ring may be polled, and stays as it is |
| TxRings.TxRing.CleanPass | src/ixgbevf_main.c:483-561 | the biased walk retires exactly the longest completed prefix within the budget and accumulates its 32-bit totals |
| TxRings.TxRing.WalkPacket | src/ixgbevf_main.c:525-544 | the inner walk ends at the watched descriptor, having undone every mapping of the packet and freed its slots |
| TxRings.TxRing.FinishClean | src/ixgbevf_main.c:563-568 | next_to_clean skips the retired packets, the statistics grow by their sums |
| TxRings.TxRing.WakeQueue | src/ixgbevf_main.c:612-634 | wakes exactly if packets were counted, the carrier is up and the threshold is free |
| TxRings.TxRing.CleanTxRing | src/ixgbevf_main.c:3216-3279 | frees and unmaps everything queued, completed or not, and resets the indices; on a ring already down it does nothing |
| TxRings.TxRing.Configure | src/ixgbevf_main.c:2301-2306 | zeroed records and reset indices make an empty ring again |
| TxRings.TxRing.XmitXdpRing | src/ixgbevf_main.c:1381-1456 | the ring ends in the state and returns the verdict of TxSpec.XmitXdp, with a context descriptor once after each reset |
| TxRings.TxRing.HardwareComplete | src/ixgbevf_main.c:495-497 | hardware may write back the last descriptor of any queued packet |
| Util.DescUnused | src/ixgbevf.h:415-421 | the free slots are the ring size less one less the distance from next_to_clean to next_to_use |
| TxRings.HeadSeen | src/ixgbevf_main.c:486-504 | what the cleaner reads at an unreclaimed slot is the packet's last descriptor, its DD and its counts |
| TxRings.TailSeen | src/ixgbevf_main.c:486-490 | at the slot after the last packet next_to_watch is NULL |
| TxRings.FailedSlots | src/ixgbevf_main.c:5037-5060 | the slots a failed map leaves record a head mapping first and page mappings after it, so each is undone by the right call |
| TxSpec.FrameIsPacket | src/ixgbevf_main.c:4922-5012 | a mapped frame takes one slot more than it needs data descriptors, and only its first slot carries the packet |
| TxSpec.RetireCountIs | src/ixgbevf_main.c:485-561 | being completed, within budget and maximal determines how many packets one pass retires |
| TxSpec.TotalsAreSums | src/ixgbevf_main.c:502-504 | the accumulators are the sums of bytecount and gso_segs modulo 2^32 |
| TxSpec.FlattenComplete | src/ixgbevf_main.c:495-497 | a write-back changes one slot of the ring |
| TxSpec.DataLeft | src/ixgbevf_main.c:4961-4977 | data_len reaches zero exactly when the fragments are used up |
| TxRuns.XmitKeepsInv | src/ixgbevf_main.c:5090-5168 | the status is busy exactly when the frame and three slots more do not fit, and then only the queue is stopped; otherwise the frame is taken once, and freed once unless it was queued; exactly when it is queued, as which packet, with how much room left, and whether the queue stops then; every outcome keeps the books balanced |
| TxRuns.XmitOwnsFrame | src/ixgbevf_main.c:5102-5168 | no buffer is taken or freed but this frame: taken exactly if the status is ok, freed exactly if it was taken and not queued |
| TxRuns.RoomIsKept | src/ixgbevf_main.c:5109-5123 | asking for three slots more than the data needs leaves at least two free |
| TxRuns.FailedMapKeepsBalance | src/ixgbevf_main.c:5037-5066 | a map that fails at any fragment undoes exactly what it made |
| TxRuns.XmitXdpKeepsInv | src/ixgbevf_main.c:1381-1456 | an XDP frame is taken exactly if a slot is free and its mapping succeeds; then it joins the queue, taken and mapped once; a refused one changes nothing |
| TxRuns.ContextOncePerReset | src/ixgbevf_main.c:1411-1428 | in every run an XDP ring writes a context descriptor with the first frame it takes after each reset, and with no other |
| TxRuns.CompleteKeepsInv | src/ixgbevf_main.c:495-497 | a write-back changes nothing that will be given back |
| TxRuns.CleanIsFifo | src/ixgbevf_main.c:475-637 | a pass retires the longest completed prefix up to count/2, adds its sums modulo 2^32, so exactly if and only if they are below, returns false exactly if it used the whole budget, and leaves a stopped queue stopped exactly if it is an XDP ring, the carrier is down, nothing was counted or fewer than 42 slots are free |
| TxRuns.DrainBalances | src/ixgbevf_main.c:3216-3279 | after teardown nothing is queued and every buffer and mapping has been given back |
| TxRuns.RunKeepsInv | src/ixgbevf_main.c:468-637 | the balance invariant holds after every run of sends, completions, cleans and teardowns |
| TxRuns.NothingTwice | src/ixgbevf_main.c:468-564 | at every point of every run no more was freed or unmapped than was taken or mapped, and the difference is what the queue still holds |
| TxRuns.Conservation | src/ixgbevf_main.c:3216-3279 | after every run that ends torn down each buffer was freed as often as taken and each mapping undone as often as made |
| TxRuns.IndicesMeetWhenEmpty | src/ixgbevf_main.c:5109-5123 | next_to_use meets next_to_clean only on an empty ring |
| TxConservation.RetireKeepsBalance | src/ixgbevf_main.c:485-561 | retiring packets keeps the books balanced and never gives back what is not live |
| TxConservation.PartialUnmaps | src/ixgbevf_main.c:4933-4981 | the slots of the buffers mapped so far record exactly their mappings, the head's in the context slot |
| TxConservation.UnwindSame | src/ixgbevf_main.c:5037-5060 | undoing backwards undoes the same mappings as undoing forwards |
| TxGather.FrameGathers | src/ixgbevf_main.c:4922-4985 | the data descriptors concatenate to exactly the head and then the fragments |
| TxGather.BufferGathers | src/ixgbevf_main.c:4941-4959 | however a buffer is cut, its chunks gather it |
| TxGather.FrameLayout | src/ixgbevf_main.c:4922-4985 | one context descriptor first, then data descriptors of 1 to 16384 bytes, only the last marked EOP and RS, the length of head and fragments less the header in the first only, and no DD left over from earlier use |
| TxGather.FrameCounts | src/ixgbevf_main.c:4759-4760 | the first record holds the frame, one segment or TSO's number, and head and fragments plus one header for every further segment, in 32 bits |
| TxGather.MapsInOrder | src/ixgbevf_main.c:4931-4985 | the head is mapped whole as Single, then each fragment whole as Page, in order |
| TxGather.XdpLayout | src/ixgbevf_main.c:1400-1450 | an XDP frame is one data descriptor that ends the packet and gathers exactly the frame, after a context descriptor the first time |
| TxInterleaveRuns.StepKeepsGood | src/ixgbevf_main.c:4908-5066 | every step of transmitter, cleaner or hardware, from any state of the other two, keeps the ring laid out as published packets, then the unpublished frame, then free slots, and the books square |
| TxInterleaveRuns.NothingTwiceInterleaved | src/ixgbevf_main.c:485-564 | in every interleaving, at every point, nothing was freed or unmapped more often than taken or mapped |
| TxInterleaveRuns.FreedOnlyAfterReport | src/ixgbevf_main.c:486-510 | in every interleaving the cleaner frees a buffer only after hardware reported on the last descriptor of its packet, the packet's record having watched that descriptor ever since |
| TxInterleaveRuns.EmptyRingOwesNothing | src/ixgbevf_main.c:485-564 | in every interleaving, a ring at rest with its indices together has given everything back |
| TxInterleaveRuns.CleanerStaysBehind | src/ixgbevf_main.c:486-497 | in every interleaving the cleaner leaves the slots of an unpublished frame alone, because next_to_watch is written last |
| TxInterleave.WatchedPacket | src/ixgbevf_main.c:5005-5012 | a record that watches a descriptor belongs to a published packet not yet taken, and watches its last slot |
| TxInterleave.WatchStep | src/ixgbevf_main.c:5005-5012 | exactly once the head is mapped, writing next_to_watch makes one packet of all the slots written, wherever the cleaner stands |
| TxInterleave.MapStep | src/ixgbevf_main.c:4931-4981 | the head is mapped once, after its first data slot, into the context slot; a fragment once into the slot just written; wherever the cleaner stands |
| TxInterleave.DropStep | src/ixgbevf_main.c:5163-5167 | a frame dropped before its context descriptor is freed and its record forgets it, and the ring is as it was, wherever the cleaner stands |
| TxInterleave.UndoLastStep | src/ixgbevf_main.c:5037-5053 | while more than the first slot is left, the last one's mapping is undone and the slot is free again, wherever the cleaner stands |
| TxInterleave.UndoHeadStep | src/ixgbevf_main.c:5055-5065 | back at the first slot the head is unmapped, the frame freed and the ring as it was |
| TxInterleave.TakeStep | src/ixgbevf_main.c:486-523 | a packet is taken if and only if budget is left, it is published and its last descriptor has DD; then exactly its buffer is freed and its head unmapped |
| TxInterleave.WalkStep | src/ixgbevf_main.c:525-544 | inside a packet the next slot's mapping is undone, up to the watched descriptor and no further, wherever the transmitter stands |
| TxInterleave.NextPacketStep | src/ixgbevf_main.c:545-561 | exactly after a packet's last slot the cleaner turns to the next packet |
| TxInterleave.StopStep | src/ixgbevf_main.c:490-564 | the pass ends if and only if no packet can be taken; publishing next_to_clean then keeps everything the transmitter relies on |
| TxInterleaveAlone.CleanerAloneRetires | src/ixgbevf_main.c:475-564 | a pass run access by access retires exactly the packets, with exactly the log, of TxSpec.CleanIrq, wherever the transmitter stands |
| TxInterleaveAlone.SenderAloneSendsFrame | src/ixgbevf_main.c:4922-5014 | the frame TxSpec.Xmit accepts is queued by the transmitter's accesses too, with exactly the log TxSpec.Xmit gives it, wherever the cleaner stands |
| TxInterleaveAlone.SenderAloneQueues | src/ixgbevf_main.c:4922-5014 | any packet with a context descriptor first is queued access by access: taken once and its mappings made in slot order |
| TxInterleaveAlone.FailedSenderAloneUndoes | src/ixgbevf_main.c:5037-5066 | a map that fails at any point undoes its mappings newest first, frees the frame and leaves the queue as it was |
| TxWake.NoLostWakeUp | src/ixgbevf_main.c:4879-4906 | in no interleaving is the queue left stopped with nothing to reclaim and nobody about to wake it, if and only if packets count segments and both the threshold and every request fit the ring |
| TxWake.SoundIsEnough | src/ixgbevf_main.c:612-634 | the safety direction, for every reachable state |
| TxWake.SoundIsNeeded | src/ixgbevf_main.c:617-618 | if one of the conditions fails, a concrete run ends asleep |
| TxWake.DrainWakes | src/ixgbevf_main.c:612-634 | in a sound set-up a stopped queue always has packets left, and the pass that reclaims them all reaches the empty, started queue |
| TxWake.CleanerAloneSteps | src/ixgbevf_main.c:563-634 | a cleaner left alone after reclaiming n packets gets, step by step, to the state its threshold and stopped tests lead to |
| TxWake.TxKeepsInv | src/ixgbevf_main.c:5012-5014 | every transmitter step keeps: stopped and not about to be woken means less room than the threshold or the largest request |
| TxWakeRuns.CleanIsCleaner | src/ixgbevf_main.c:563-634 | a clean pass of the ring is the cleaner's steps of TxWake, from publishing next_to_clean to waking the queue |
| TxWakeRuns.XmitIsSender | src/ixgbevf_main.c:4879-5014 | offering a frame to the ring, queued, dropped or refused, is the transmitter's steps of TxWake |
| TxWakeRuns.RunIsSeen | src/ixgbevf_main.c:468-637 | every run of the ring whose frames fit the set-up and are offered only while it is not stopped, with the carrier up and no teardown, is a run of TxWake |
| TxWakeRuns.StoppedRingWakes | src/ixgbevf_main.c:612-634 | in every such run in a sound set-up a stopped ring has packets queued, and once hardware has completed them one clean pass empties and wakes it |
| RxSpec.GetKeepsInv | src/ixgbevf_main.c:859-877 | taking one reference out of the bias keeps all counts right and is always possible |
| RxSpec.TakeKeepsInv | src/ixgbevf_main.c:1219-1239 | passing the reference on and flipping to the other half keeps all counts right |
| RxSpec.PutBackKeepsInv | src/ixgbevf_main.c:1600-1628 | putting the reference back keeps all counts right |
| RxSpec.DecideKeepsInv | src/ixgbevf_main.c:1159-1176 | a count that leaves at most one reference outside proves the half that comes next free |
| RxSpec.RestockKeepsInv | src/ixgbevf_main.c:1181-1204 | restocking an exhausted bias, by one or by USHRT_MAX, keeps all counts right |
| RxSpec.RecycleKeepsInv | src/ixgbevf_main.c:1135-1152 | recycling moves the page behind the others and keeps one slot per page |
| RxSpec.GiveUpKeepsInv | src/ixgbevf_main.c:891-911 | draining what the ring still owns leaves the page to its holders outside |
| RxSpec.EnvKeepsInv | src/ixgbevf_main.c:1166-1176 | the stack dropping or duplicating any reference it can see, and hardware completing a posted buffer, keep the invariant at every point |
| RxSpec.FillKeepsInv | src/ixgbevf_main.c:1022-1084 | after any fill, even one cut short by the allocator, no recycled buffer waits behind next_to_use, so resetting next_to_alloc loses none |
| RxPolls.FillOutcome | src/ixgbevf_main.c:1022-1084 | recycled buffers are posted first, then the pages offered, in order and with one reference each; a fill falls short only at an offer that fails |
| RxPolls.PrepareOutcome | src/ixgbevf_main.c:1558-1562 | a round refills exactly if 16 slots or more were cleaned, and then as many as were cleaned |
| RxPolls.FirstRoundFills | src/ixgbevf_main.c:1538-1565 | a poll starts with every unused descriptor counted: from 16 on, its first round fills the ring up, short only of pages |
| RxSpec.DrainReleasesAll | src/ixgbevf_main.c:3157-3210 | after clean_rx_ring every page is referenced exactly by its holders outside |
| RxPolls.Accept | src/ixgbevf_main.c:1579-1628 | from the buffer's arrival to its outcome the invariant holds, whatever the environment does in between; AcceptOutcome says which outcome does what |
| RxPolls.AcceptOutcome | src/ixgbevf_main.c:1219-1239 | data used in place takes one reference out of the bias, leaves with the half it is in and flips the buffer; data copied or dropped, and a failed skb, leave half and bias as they were |
| RxPolls.Judge | src/ixgbevf_main.c:1159-1204 | the reuse verdict stays right though the environment acts between reading the count and restocking |
| RxPolls.JudgeOutcome | src/ixgbevf_main.c:1159-1204 | a page may be reused if and only if it is not reserved and at most one reference is outside when the count is read; an exhausted bias is restocked |
| RxPolls.Rounds | src/ixgbevf_main.c:1556-1631 | a whole poll ends between buffers with the invariant and the fill budget intact |
| RxPolls.RoundOutcome | src/ixgbevf_main.c:1556-1631 | what a round makes of the buffer at next_to_clean: it stays if there is no skb, else its page goes behind the others, flipped if used in place, or leaves the ring, exactly by the reuse test; no other buffer changes |
| RxPolls.PollEnds | src/ixgbevf_main.c:1555-1631 | a poll goes on while it processes buffers and fewer packets than the budget have ended, and stops at the first round that does not |
| RxRings.RxRing.AllocRxBuffers | src/ixgbevf_main.c:1022-1084 | the arrays and three indices end as RxSpec.FillFrom says, with next_to_alloc at next_to_use |
| RxRings.RxRing.AllocMappedPage | src/ixgbevf_main.c:950-1000 | a recycled page is kept, otherwise a new one joins with one reference; a failure changes nothing |
| RxRings.RxRing.GetRxBuffer | src/ixgbevf_main.c:859-877 | performs RxSpec.Get in place |
| RxRings.RxRing.AcceptBuffer | src/ixgbevf_main.c:1579-1628 | used data leaves with the half at next_to_clean, whose record flips and owns one reference less; any other outcome leaves the record as it was |
| RxRings.RxRing.FlipBuffer | src/ixgbevf_main.c:1229-1234 | performs RxSpec.Take in place |
| RxRings.RxRing.KeepBuffer | src/ixgbevf_main.c:1600-1628 | performs RxSpec.PutBack in place |
| RxRings.RxRing.CanReuseRxPage | src/ixgbevf_main.c:1159-1204 | performs RxPolls.Judge in place |
| RxRings.RxRing.ReuseRxPage | src/ixgbevf_main.c:1135-1152 | the slot at next_to_alloc receives the page, and it is never the slot being cleaned |
| RxRings.RxRing.PutRxBuffer | src/ixgbevf_main.c:879-912 | the page is recycled or given up, and the slot is emptied |
| RxRings.RxRing.NextToClean | src/ixgbevf_main.c:928-943 | next_to_clean steps on, and with it the buffer's processing is complete |
| RxRings.RxRing.PeekLength | src/ixgbevf_main.c:1568-1571 | the length read is non-zero exactly if hardware completed that very slot |
| RxRings.RxRing.CleanRxIrq | src/ixgbevf_main.c:1533-1691 | a poll, with the environment acting at four points of every round, leaves arrays and indices as RxPolls.Rounds says; RxPolls.PollEnds and RoundOutcome say how far it goes and what becomes of each buffer |
| RxRings.RxRing.CleanRxRing | src/ixgbevf_main.c:3157-3210 | every held page is drained once and nothing else is touched |
| RxRings.RxRing.Configure | src/ixgbevf_main.c:2509-2547 | zeroed records, one cleared length and a first fill make a valid ring |
| RxRings.RxRing.PostedDescriptors | src/ixgbevf_main.c:1037-1065 | next_to_use and every posted, uncompleted descriptor read length zero, and the latter carry the address of a half nobody else references |
| RxRings.RxRing.SlotsHoldingPages | src/ixgbevf_main.c:1022-1084 | exactly the slots from next_to_clean up to next_to_alloc hold a page |
| RxRings.LaidPost | src/ixgbevf_main.c:1050-1062 | writing the address and clearing the next length moves the sentinel on by one |
| RxRuns.RunKeepsInv | src/ixgbevf_main.c:1533-1691 | the invariant and the fill budget hold in every state of every run |
| RxRuns.PollIsRun | src/ixgbevf_main.c:1533-1691 | every poll, whatever stack and hardware do between its steps, continues a run by driver and outside events, so that what every run promises every poll promises |
| RxRuns.PostedHalfIsExclusive | src/ixgbevf_main.c:1159-1204 | in every state of every run nobody outside references a half that hardware may write |
| RxRuns.ReferencesAddUp | src/ixgbevf_main.c:859-912 | in every state of every run a page's count is the ring's bias, the references outside and the one in hand |
| RxRuns.RingShape | src/ixgbevf_main.c:1022-1084 | next_to_clean, next_to_use and next_to_alloc keep their order less than a lap apart, and no page sits in two slots |
| RxRuns.TeardownReleasesAll | src/ixgbevf_main.c:3157-3210 | after every run that ends torn down the ring owns no reference |
| RxRuns.HeldPagesAreAlive | src/ixgbevf_main.c:892-912 | a page in the ring always has a reference, whatever the stack gives up |
| Packing.BoxAddrBigEndian | src/kcompat_packing.c:68-86 | without quirks byte `box` is stored at `len - 1 - box`, although the offset wraps |
| Packing.BoxAddrInvolution | src/kcompat_packing.c:68-86 | in an addressable layout the address is in the buffer and the map is its own inverse |
| Packing.AddressableExactly | src/kcompat_packing.c:46-66 | the map is a bijection if and only if groups come least significant first, or bytes big-endian, or the length is a multiple of 4 |
| Packing.PackByteBit | src/kcompat_packing.c:140-163 | masks, shifts and reversal put exactly the field's bits into a byte and keep the others |
| Packing.UnpackByteBit | src/kcompat_packing.c:251-273 | masks, shifts and reversal put exactly the field's bits into the value and keep the others |
| Packing.PackBits | src/kcompat_packing.c:88-165 | the field holds the value and no logical bit outside it has changed |
| Packing.Pack | src/kcompat_packing.c:186-202 | exactly when EINVAL and ERANGE are returned, with the buffer untouched, and the packed buffer otherwise |
| Packing.UnpackBits | src/kcompat_packing.c:204-275 | the value is the field's logical bits followed by zeros |
| Packing.Unpack | src/kcompat_packing.c:296-316 | exactly when EINVAL and ERANGE are returned, and the field's value otherwise |
| Packing.RoundTrip | src/kcompat_packing.c:88-316 | unpacking what was packed gives the value cut to the field's width |
| Packing.RoundTripModulo | src/kcompat_packing.c:88-316 | as numbers, the value modulo two to the width |
| Packing.OtherFieldsUntouched | src/kcompat_packing.c:88-165 | a field that shares no bit with the one packed reads the same before and after |
| Packing.PackedIsUnique | src/kcompat_packing.c:88-165 | the law of packing determines every byte of the buffer |
| PackedFields.CheckedExactly | src/kcompat_packing.h:40-89 | the neighbour and end checks pass if and only if the table is sorted, in range and pairwise disjoint |
| PackedFields.CheckedIsSound | src/kcompat_packing.h:40-89 | a table that passes has every two entries disjoint, in either order |
| PackedFields.PackFields | src/kcompat_packing.c:20-31 | afterwards every entry shows its member's value, and no bit outside the entries has changed |
| PackedFields.Store | src/kcompat_packing.c:371-388 | the member reads back as the value cut to its size, and no byte outside it has changed |
| PackedFields.UnpackFields | src/kcompat_packing.c:33-44 | afterwards every member holds what the buffer shows, and no byte outside the members has changed |
| PackedFields.FieldsRoundTrip | src/kcompat_packing.c:20-44 | packing a structure and unpacking it restores every member whose value fits its width, and cuts the others to it |
| QVectors.AllocKeepsConsistent | src/ixgbevf_main.c:3549-3666 | one more vector keeps: the k-th Tx or XDP ring has register k, and tables and vectors name the same rings |
| QVectors.LayoutPlacesAll | src/ixgbevf_main.c:3720-3765 | with at least one vector every ring gets exactly one vector and its own register, for any counts |
| QVectors.CeilDivBounds | src/ixgbevf_main.c:3743-3746 | a rounded-up share never exceeds what is left |
| QVectors.ShareStep | src/ixgbevf_main.c:3743-3762 | rounding up is an even share for the first vector, and leaves the others exactly theirs |
| QVectors.LayoutIsFair | src/ixgbevf_main.c:3743-3762 | with fewer vectors than rings, each of q vectors gets n / q rings of a kind and the first n % q one more |
| QVectors.Adapter.AllocQVector | src/ixgbevf_main.c:3549-3666 | the tables gain the vector and its rings, or nothing without memory |
| QVectors.Adapter.AllocQVectors | src/ixgbevf_main.c:3720-3777 | all allocations succeed and the tables show the layout, or everything is freed again and the counts are zero |
| QVectors.Adapter.FreeQVector | src/ixgbevf_main.c:3686-3712 | freeing the newest vector removes exactly its rings from the tables |
| QVectors.Adapter.FreeAll | src/ixgbevf_main.c:3767-3777 | the error path leaves every table empty |
| QVectors.LayoutIsRoomy | src/ixgbevf_main.c:3728-3762 | with a vector for every ring, the first vectors have one Rx ring each and nothing else, and those after them one Tx and one XDP ring as long as there are any |
| Ivar.SetIvarEntry | src/ixgbevf_main.c:1873-1881 | for register word k, Rx queue 2k is set in bits 0 to 7, Tx 2k in 8 to 15, Rx 2k+1 in 16 to 23 and Tx 2k+1 in 24 to 31, and no other entry is disturbed |
| Ivar.AllocRoutes | src/ixgbevf_main.c:1865-1877 | an entry decodes to its vector with the valid bit set, for vectors below 128 |
| Ivar.InterruptsReachTheirVectors | src/ixgbevf_main.c:1904-1947 | end to end, for any ring and vector counts, the byte the hardware reads for a ring's queue and direction is valid and names the vector that owns the ring |
| Ivar.UnusedEntriesKept | src/ixgbevf_main.c:1904-1947 | entries of registers no ring uses are as before |
| Ivar.Hardware.SetRingIvar | src/ixgbevf_main.c:1873-1881 | the register array ends as Ivar.SetIvar says, and SetIvarEntry says which byte of which word that changes |
| Ivar.Hardware.SetOtherIvar | src/ixgbevf_main.c:1865-1871 | the low byte names the vector, the rest of the register is kept |
| Ivar.Hardware.ConfigureMsix | src/ixgbevf_main.c:1904-1947 | the registers end as writing every vector's rings in turn leaves them, and InterruptsReachTheirVectors says what each byte then routes to; the low byte of the last one names the vector of the other causes |
| MailboxR2C.ReadKeepsInv | src/ixgbe_mbx.c:216-224 | a read loses no pending event |
| MailboxR2C.ActKeepsInv | src/ixgbe_mbx.c:226-255 | finishing a clear drops exactly what its read saw |
| MailboxR2C.PendingIsOwed | src/ixgbe_mbx.c:216-328 | in every run an event is pending exactly if it was raised since the read of the clear that last consumed it |
| MailboxR2C.RaisedBitSurvives | src/ixgbe_mbx.c:226-255 | in every run a raised bit stays pending until a clear of its kind begins, even one raised between a read and its clear |
| MailboxR2C.NeverCountedTwice | src/ixgbe_mbx.c:226-244 | in every run requests and acks are counted at most once for each time they were raised |
| MailboxR2C.CountedOncePerClear | src/ixgbe_mbx.c:226-255 | in every run, whatever is raised in between, each clear that began while its event was set is counted exactly once |
| MailboxR2C.ClearConsumes | src/ixgbe_mbx.c:226-255 | an undisturbed clear consumes what is pending and bumps its counter once |
| MailboxR2C.ClearsByName | src/ixgbe_mbx.c:226-255 | a message clear takes PFSTS, an ack clear PFACK, a reset clear RSTD away, counting exactly if its bit, for a reset RSTI or RSTD, was set; RSTI is left to the hardware |
| MailboxR2C.RaisedDuringClear | src/ixgbe_mbx.c:226-255 | after a clear with the PF raising bits in between, exactly those bits and the ones of other kinds are pending |
| MailboxR2C.VfMailbox.ReadMailbox | src/ixgbe_mbx.c:216-224 | returns register and cache together and remembers the bits the hardware has cleared |
| MailboxR2C.VfMailbox.ClearEvent | src/ixgbe_mbx.c:226-255 | performs read and clear in place, with the PF raising bits in between |
| MailboxR2C.VfMailbox.CheckForMsg | src/ixgbe_mbx.c:265-289 | finds a message exactly if one is pending, and leaves it pending |
| MailboxR2C.VfMailbox.CheckAndClear | src/ixgbe_mbx.c:298-328 | finds an ack exactly if PFACK is set, a reset exactly if RSTI or RSTD is, in register or cache; a hit is cleared by a second read, with the PF raising bits at both points |
| MailboxLock.RunKeepsInv | src/ixgbe_mbx.c:336-528 | in every interleaving at most one side holds the lock, and the memory is what completed writes left but for its owner's copy |
| MailboxLock.OnlyTheOwnerTouchesMemory | src/ixgbe_mbx.c:336-377 | only the side that holds the lock reads or changes mailbox memory |
| MailboxLock.ReadsSeeCompletedWrites | src/ixgbe_mbx.c:504-528 | a read that completes returns the memory as the completed writes left it, never a partial one |
| MailboxLock.WritesAreWhole | src/ixgbe_mbx.c:828-856 | a write that completes has left its whole message in the memory |
| MailboxLock.LockAttemptEnds | src/ixgbe_mbx.c:760-802 | whatever the other side does, a side still trying has used fewer than three accesses for each of `timeout` tries |
| MailboxLock.LockAttemptConcludes | src/ixgbe_mbx.c:336-377 | given that many turns, the attempt ends with the lock held and the copy about to start, or with a time-out, and goes on until then |
| MailboxLock.TimesOutExactly | src/ixgbe_mbx.c:336-377 | an attempt that ends has timed out if and only if all `timeout` tries failed, and owns the lock if and only if fewer did |
| MailboxLock.ZeroTimeoutRefuses | src/ixgbe_mbx.c:343-344 | with a zero timeout no run tries for the lock or touches the memory, and every request is refused |
| QvLock.RunKeepsInv | src/ixgbevf.h:301-395 | over every interleaving the state word says who owns, that it is disabled, and whether a poller was refused |
| QvLock.AtMostOneOwner | src/ixgbevf.h:309-376 | at most one owner, and no WARN_ON in lock or unlock fires |
| QvLock.LockSucceedsWhenFree | src/ixgbevf.h:309-361 | a lock succeeds exactly if nobody owns the q_vector and it is not disabled |
| QvLock.OffUntilInit | src/ixgbevf_main.c:2923-2948 | once disable has returned true no lock succeeds until the next init |
| QvLock.UnlockReportsRefusals | src/ixgbevf.h:329-376 | unlock returns true exactly if a poller was refused during that ownership |
| QvLock.DisableWaitsForOwner | src/ixgbevf.h:386-395 | disable returns true exactly if nobody owns the q_vector |
| QvLock.Lock.LockNapi | src/ixgbevf.h:309-326 | succeeds exactly if nobody owns the q_vector and it is not disabled; a refusal leaves the owner |
| QvLock.Lock.UnlockNapi | src/ixgbevf.h:329-342 | ends the ownership, keeps a pending disable, and returns whether a poller was refused |
| QvLock.Lock.LockPoll | src/ixgbevf.h:345-361 | succeeds exactly if nobody owns the q_vector and it is not disabled; a refusal is remembered |
| QvLock.Lock.UnlockPoll | src/ixgbevf.h:364-376 | ends the ownership, keeps a pending disable, and returns whether a poller was refused |
| QvLock.Lock.Disable | src/ixgbevf.h:386-395 | refuses all later locks, and returns true exactly if nobody owns the q_vector, which is then off |
| QvLock.Lock.Init | src/ixgbevf.h:301-306 | a q_vector that is off is free and enabled again |
| Div64.DivRem | src/kcompat.c:586-617 | quotient and remainder of any 64-bit number by any non-zero 32-bit base, through both loops |
| Div64.ScaleUp | src/kcompat.c:601-604 | doubling keeps the divisor at base times the digit and within 64 bits |
| Div64.ScaleDown | src/kcompat.c:606-613 | subtract and halve keep the division law and end below the base |
| Itr.SmoothNeverOvershoots | src/ixgbevf_main.c:2047-2050 | a step stays between rate and target, and strictly descends to a lower target, and never gets to a higher one |
| Itr.RisesExactlyWhen | src/ixgbevf_main.c:2047-2050 | towards a higher target the rate moves if and only if the gap is wide enough |
| Itr.SmoothMonotone | src/ixgbevf_main.c:2047-2050 | a higher rate now is no lower rate next |
| Itr.ReachesLowerTarget | src/ixgbevf_main.c:2022-2057 | a lower target is reached exactly, within as many steps as it is away |
| Itr.ReachedExactly | src/ixgbevf_main.c:2022-2057 | for every target and rate, some number of steps gets to the target if and only if the rate starts at it or above |
| Itr.RestsExactly | src/ixgbevf_main.c:2047-2050 | a step leaves a rate as it is if and only if it is the target or lies below it with too narrow a gap |
| Itr.SettlesBelow | src/ixgbevf_main.c:2022-2057 | from below, within as many steps as it is away the rate comes to rest, short of the target, and stays there |
| Itr.BulkSettlesAt326 | src/ixgbevf_main.c:2022-2057 | under the bulk target a rate of at most 326 never rises beyond it |
| Itr.NeverBackAtSlowest | src/ixgbevf_main.c:1972-2057 | over every run of any traffic, a rate once below the slowest setting never returns to it |
| Itr.ClassifyByRate | src/ixgbevf_main.c:1972-2020 | a container ends lowest exactly at a rate of at most 10 unless it was bulk, and bulk exactly above 20 unless it was lowest; without packets nothing changes |
| Itr.SteadyRateSettles | src/ixgbevf_main.c:1992-2012 | whatever the class was, two interrupts at a steady rate settle it |
| Itr.TargetOfSlower | src/ixgbevf_main.c:2022-2052 | the rate moves towards 336 if either container is bulk, else 200 if either is low, else 40 |
| Itr.Vector.SetItr | src/ixgbevf_main.c:1972-2057 | both containers are classified with a non-zero divisor and the smoothed rate stays in range |
| Itr.RatesStayInRange | src/ixgbevf_main.c:1972-2057 | over every run from an adaptive default the rate stays in 40 to 336 |
| Counters.VfCounter.Update32 | src/ixgbevf_main.c:3987-3995 | masks and carry do what Counters.Update says for 2^32 |
| Counters.VfCounter.Update36 | src/ixgbevf_main.c:3997-4008 | masks and carry do what Counters.Update says for 2^36 |
| Counters.CounterIsEvents | src/ixgbevf_main.c:3024-3043 | after any reads of an epoch counter less base is the events, less the wraps that went by unseen |
| Counters.ExactWhenReadOftenEnough | src/ixgbevf_main.c:3987-4008 | the count is exact if and only if no gap reaches a whole wrap |

## Left out

- Kernel plumbing: probe, remove, PCI error recovery, suspend, netdev operations, ethtool reporting.
- TSO and checksum header rewriting, VLAN tag insertion, RSS hash, receive checksum flags: descriptor words are modelled by the fields the ring logic depends on (context or data, address, length, EOP and RS, payload length, DD).
- Byte queue limits, hang detection, time stamps and the statistics of q_vectors; 64-bit statistics are unbounded here.
- Memory barriers finer than sequential consistency.
- TxRings.TxRing.XmitFrameRing: zero-length heads and fragments, and frames that need more than 65535 descriptors, are excluded.
- TxRings.TxRing.MaybeStopTx: does not model the re-check and reprieve, because no cleaner runs beside a method; TxWake interleaves them step by step.
- TxRings.TxRing.CleanTxIrq: the early return after a detected hang is left out.
- The transmit class runs each call whole; TxInterleave runs transmitter, cleaner and hardware beside each other on the same arrays, with a packet's release (clear next_to_watch, free, unmap, clear len) and the last undo step of a failed map as one step each.
- TxWake and TxWakeRuns assume the carrier up and no teardown: with the carrier down a clean pass wakes nothing (`TxRuns.CleanIsFifo`), and the link-up path that starts the queues again is not modelled.
- Multi-descriptor XDP frames.
- TxRings.TxRing.HardwareComplete: hardware sets DD on the last descriptor of any queued packet at any time; it never clears what it wrote.
- The receive ring's DMA mappings: put_rx_buffer unmaps only on one path (src/ixgbevf_main.c:894), so page references are conserved here instead.
- RxRings.RxRing.CleanRxIrq: each packet's outcome, the page's reserved flag and the acts of stack and hardware come from a script of rounds; a poll ends no later than its script. The frame under assembly across descriptors (`rx_ring->skb`) is not modelled.
- Pages larger than 4 KB, where buffers advance through a page instead of flipping.
- Packing.Pack: layouts whose addresses leave the buffer (see `AddressableExactly`) and buffers above 2^28 bytes, where the C code's `int` byte index would overflow, are excluded; the WARN on a value too wide is not modelled.
- Packing.Unpack: the same layouts and buffers are excluded.
- PackedFields.Store: a little-endian machine; a big-endian one stores the same bytes in reverse.
- Ring lists of a vector are kept in allocation order; the driver prepends, which visits the same rings in reverse.
- The register index override for data centre bridging (src/ixgbevf_main.c:2974), the interrupt rate and enable mask part of configure_msix, and the bound on the q_vector array.
- Upgraded mailbox functions, and their mix with legacy ones; the flush of old events inside a legacy write, which does not touch lock or memory.
- busy_polling's own WARN_ON.
- Counters.VfCounter.Update36: the two register reads are taken as one value, as if reading the low half latched the high half.
- Counters across resets: the base moves without clearing the counter's high bits, so only one epoch is claimed; the 64-bit counter itself is unbounded here.
- restart_queue and tx_busy totals.
